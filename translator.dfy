/**
 * The term translator: a lookup table keyed by source language, target
 * language and source term. Lookups are one-way: a pair added from English
 * to German says nothing about German to English.
 */
module TermTranslator {
  import opened Common

  /** (from language, to language, source term). */
  type Key = (string, string, string)

  /** The table `populate_translations` leaves in an empty translator: nine pairs from English to German. */
  function DefaultTable(): map<Key, string>
  {
    map[][("en", "de", "neural") := "neural"]
         [("en", "de", "cluster") := "Cluster"]
         [("en", "de", "node") := "Knoten"]
         [("en", "de", "path") := "Pfad"]
         [("en", "de", "interface") := "Schnittstelle"]
         [("en", "de", "audit") := "Überprüfung"]
         [("en", "de", "validation") := "Validierung"]
         [("en", "de", "channel") := "Kanal"]
         [("en", "de", "repository") := "Quelle"]
  }

  /** Every default key translates from English to German, so nothing translates back. */
  lemma DefaultsAreEnglishToGerman()
    ensures forall k :: k in DefaultTable() ==> k.0 == "en" && k.1 == "de"
    ensures ("de", "en", "Knoten") !in DefaultTable()
    ensures DefaultTable()[("en", "de", "node")] == "Knoten" && DefaultTable()[("en", "de", "path")] == "Pfad"
  {
  }

  class Translator {
    var translations: map<Key, string>

    /** `Translator::new` (and `Default`): an empty table populated with the nine default pairs. */
    constructor ()
      ensures translations == DefaultTable()
    {
      translations := map[];
      new;
      AddTranslation("en", "de", "neural", "neural");
      AddTranslation("en", "de", "cluster", "Cluster");
      AddTranslation("en", "de", "node", "Knoten");
      AddTranslation("en", "de", "path", "Pfad");
      AddTranslation("en", "de", "interface", "Schnittstelle");
      AddTranslation("en", "de", "audit", "Überprüfung");
      AddTranslation("en", "de", "validation", "Validierung");
      AddTranslation("en", "de", "channel", "Kanal");
      AddTranslation("en", "de", "repository", "Quelle");
    }

    /** `add_translation`: store the target under (from, to, source), replacing any earlier target. */
    method AddTranslation(from: string, to: string, source: string, target: string)
      modifies this`translations
      ensures translations == old(translations)[(from, to, source) := target]
    {
      translations := translations[(from, to, source) := target];
    }

    /** `translate`: the target stored under (from, to, term), or None for a key never added. */
    function Translate(from: string, to: string, term: string): (r: Option<string>)
      reads this
      ensures r.Some? <==> (from, to, term) in translations
      ensures r.Some? ==> r.value == translations[(from, to, term)]
    {
      if (from, to, term) in translations then Some(translations[(from, to, term)]) else None
    }
  }

  /**
   * After `add_translation` the key translates to the new target, a second
   * add under the same key overwrites it, and every other key is unchanged.
   */
  method AddThenTranslate(t: Translator, from: string, to: string, source: string, first: string, second: string,
                          other: Key)
    requires other != (from, to, source)
    modifies t
    ensures t.Translate(from, to, source) == Some(second)
    ensures t.Translate(other.0, other.1, other.2) == old(t.Translate(other.0, other.1, other.2))
  {
    t.AddTranslation(from, to, source, first);
    assert t.Translate(from, to, source) == Some(first);
    t.AddTranslation(from, to, source, second);
  }

  /** A new translator turns "node" into "Knoten" but has nothing from German back to English. */
  method DefaultLookups() returns (forward: Option<string>, backward: Option<string>)
    ensures forward == Some("Knoten")
    ensures backward == None
  {
    var t := new Translator();
    forward := t.Translate("en", "de", "node");
    backward := t.Translate("de", "en", "Knoten");
    DefaultsAreEnglishToGerman();
  }
}
