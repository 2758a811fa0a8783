/** Bilingual lemma definitions, filled in by builders after construction. */
module LemmaDefinitions {
  class LemmaDefinition {
    const canonicalId: string
    const termEn: string
    const termDe: string
    var definitionEn: string
    var definitionDe: string
    var category: string
    var examples: seq<string>

    /** `LemmaDefinition::new`: the id and both terms, no definitions, no category, no examples. */
    constructor (canonicalId: string, termEn: string, termDe: string)
      ensures this.canonicalId == canonicalId && this.termEn == termEn && this.termDe == termDe
      ensures definitionEn == "" && definitionDe == "" && category == "" && examples == []
    {
      this.canonicalId := canonicalId;
      this.termEn := termEn;
      this.termDe := termDe;
      definitionEn := "";
      definitionDe := "";
      category := "";
      examples := [];
    }

    /** `with_definitions`: the builder sets both definitions and hands the value back. */
    method WithDefinitions(defEn: string, defDe: string) returns (self: LemmaDefinition)
      modifies this`definitionEn, this`definitionDe
      ensures self == this && definitionEn == defEn && definitionDe == defDe
    {
      definitionEn := defEn;
      definitionDe := defDe;
      self := this;
    }

    /** `with_category`: the builder sets only the category and hands the value back. */
    method WithCategory(category: string) returns (self: LemmaDefinition)
      modifies this`category
      ensures self == this && this.category == category
    {
      this.category := category;
      self := this;
    }

    /** `add_example`: append at the end, keeping earlier examples. */
    method AddExample(example: string)
      modifies this`examples
      ensures examples == old(examples) + [example]
    {
      examples := examples + [example];
    }
  }

  /** Two definitions built from the same terms, one setting definitions then category and one the other way round, end up equal field by field. */
  method BuildersCommute(id: string, en: string, de: string, defEn: string, defDe: string, category: string)
    returns (a: LemmaDefinition, b: LemmaDefinition)
    ensures a.canonicalId == b.canonicalId && a.termEn == b.termEn && a.termDe == b.termDe
    ensures a.definitionEn == b.definitionEn == defEn && a.definitionDe == b.definitionDe == defDe
    ensures a.category == b.category == category && a.examples == b.examples == []
  {
    a := new LemmaDefinition(id, en, de);
    a := a.WithDefinitions(defEn, defDe);
    a := a.WithCategory(category);
    b := new LemmaDefinition(id, en, de);
    b := b.WithCategory(category);
    b := b.WithDefinitions(defEn, defDe);
  }
}
