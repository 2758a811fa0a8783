/**
 * The code analyzer: finds declarations that start a line (async
 * functions, functions, structs/enums/traits, modules) and files each
 * declared name under its entity type.
 *
 * Each of the four regular expressions is written out as a matcher over
 * ASCII text: `^` holds at the start of the text or after a line feed,
 * `\s` is `Text.IsWhitespace`, `\w` is `IsWordChar`, and `captures_iter`
 * is a left-to-right scan for non-overlapping matches.
 */
module CodeAnalysis {
  import opened Common
  import opened Text

  /** ASCII `\w`: a letter, a digit or an underscore. */
  predicate IsWordChar(c: char)
  {
    'a' <= c <= 'z' || 'A' <= c <= 'Z' || '0' <= c <= '9' || c == '_'
  }

  predicate IsWord(s: string)
  {
    |s| > 0 && forall i :: 0 <= i < |s| ==> IsWordChar(s[i])
  }

  /** `(?m)^`: the start of the text, or just after a line feed. */
  predicate LineStart(s: string, p: nat)
    requires p <= |s|
  {
    p == 0 || s[p - 1] == '\n'
  }

  /** `t` occurs in `s` at position `i`. */
  predicate HasAt(s: string, i: nat, t: string)
  {
    i + |t| <= |s| && s[i..i + |t|] == t
  }

  /** The length of the longest run of whitespace starting at `i` (what a greedy `\s+` takes). */
  function WsRun(s: string, i: nat): (n: nat)
    requires i <= |s|
    ensures i + n <= |s|
    decreases |s| - i
  {
    if i < |s| && IsWhitespace(s[i]) then 1 + WsRun(s, i + 1) else 0
  }

  /** The length of the longest run of word characters starting at `i` (what a greedy `\w+` takes). */
  function WordRun(s: string, i: nat): (n: nat)
    requires i <= |s|
    ensures i + n <= |s|
    ensures forall k :: i <= k < i + n ==> IsWordChar(s[k])
    ensures i + n < |s| ==> !IsWordChar(s[i + n])
    decreases |s| - i
  {
    if i < |s| && IsWordChar(s[i]) then 1 + WordRun(s, i + 1) else 0
  }

  /**
   * Each keyword in turn, each followed by at least one whitespace
   * character: the position after the last whitespace run, or None.
   */
  function AfterKeywords(s: string, i: nat, keywords: seq<string>): (r: Option<nat>)
    requires i <= |s|
    ensures r.Some? ==> i <= r.value <= |s|
    decreases |keywords|
  {
    if |keywords| == 0 then Some(i)
    else if HasAt(s, i, keywords[0]) && WsRun(s, i + |keywords[0]|) > 0 then
      AfterKeywords(s, i + |keywords[0]| + WsRun(s, i + |keywords[0]|), keywords[1..])
    else None
  }

  /** `(\w+)`: the name starting at `j` and the position after it. */
  function NameAt(s: string, j: nat): (r: Option<(string, nat)>)
    requires j <= |s|
    ensures r.Some? ==> j < r.value.1 <= |s| && r.value.0 == s[j..r.value.1] && IsWord(r.value.0)
    ensures r.Some? ==> r.value.1 == |s| || !IsWordChar(s[r.value.1])
  {
    var n := WordRun(s, j);
    if n > 0 then Some((s[j..j + n], j + n)) else None
  }

  /**
   * An alternation of keyword sequences followed by a name, tried
   * leftmost-first: the first alternative that matches as a whole.
   */
  function MatchHeads(s: string, i: nat, heads: seq<seq<string>>): (r: Option<(string, nat)>)
    requires i <= |s|
    ensures r.Some? ==> i < r.value.1 <= |s| && IsWord(r.value.0)
    decreases |heads|
  {
    if |heads| == 0 then None
    else
      var after := AfterKeywords(s, i, heads[0]);
      if after.Some? && NameAt(s, after.value).Some? then NameAt(s, after.value)
      else MatchHeads(s, i, heads[1..])
  }

  /**
   * One declaration pattern: an optional `pub\s+` prefix when allowed, one
   * of the keyword sequences, a name; matches are filed under `entityType`.
   */
  datatype DeclPattern = DeclPattern(optionalPub: bool, heads: seq<seq<string>>, entityType: string)

  /** `(?m)^(pub\s+)?async\s+fn\s+(\w+)` */
  const AsyncFunctionDecl := DeclPattern(true, [["async", "fn"]], "async_function")
  /** `(?m)^(pub\s+)?fn\s+(\w+)` */
  const FunctionDecl := DeclPattern(true, [["fn"]], "function")
  /** `(?m)^(pub\s+)?(struct|enum|trait)\s+(\w+)` */
  const DataStructureDecl := DeclPattern(true, [["struct"], ["enum"], ["trait"]], "data_structure")
  /** `(?m)^mod\s+(\w+)` */
  const ModuleDecl := DeclPattern(false, [["mod"]], "module")

  /** The four patterns `CodeAnalyzer::new` sets up, in order. */
  function DefaultDecls(): seq<DeclPattern>
  {
    [AsyncFunctionDecl, FunctionDecl, DataStructureDecl, ModuleDecl]
  }

  /**
   * The match of the pattern starting at `p`, if any: its last capture (the
   * name) and where it ends. With `pub` and whitespace in front the
   * pattern is tried past them first; failing that, without them.
   */
  function MatchAt(s: string, p: nat, pat: DeclPattern): (r: Option<(string, nat)>)
    requires p <= |s|
    ensures r.Some? ==> p < r.value.1 <= |s| && IsWord(r.value.0)
  {
    var afterPub := AfterKeywords(s, p, ["pub"]);
    var viaPub := if pat.optionalPub && afterPub.Some? then MatchHeads(s, afterPub.value, pat.heads) else None;
    if viaPub.Some? then viaPub else MatchHeads(s, p, pat.heads)
  }

  /** `captures_iter` from position `p`: the names of the successive non-overlapping matches, in text order. */
  function Scan(s: string, pat: DeclPattern, p: nat): (names: seq<string>)
    requires p <= |s|
    ensures forall k :: 0 <= k < |names| ==> IsWord(names[k])
    decreases |s| - p
  {
    if p == |s| then []
    else if LineStart(s, p) && MatchAt(s, p, pat).Some? then
      var m := MatchAt(s, p, pat).value;
      [m.0] + Scan(s, pat, m.1)
    else Scan(s, pat, p + 1)
  }

  /** The list stored under `key`, or an empty one. */
  function Entry(entities: map<string, seq<string>>, key: string): seq<string>
  {
    if key in entities then entities[key] else []
  }

  /** Push each name under `key`; a key is created only by its first name. */
  function Push(entities: map<string, seq<string>>, key: string, names: seq<string>): map<string, seq<string>>
  {
    if |names| == 0 then entities else entities[key := Entry(entities, key) + names]
  }

  /** The map `analyze_code` builds, the patterns taken in order. */
  function Entities(s: string, patterns: seq<DeclPattern>): map<string, seq<string>>
  {
    if |patterns| == 0 then map[]
    else
      var pat := patterns[|patterns| - 1];
      Push(Entities(s, patterns[..|patterns| - 1]), pat.entityType, Scan(s, pat, 0))
  }

  /** Pushing one more name after some others. */
  lemma PushOneMore(entities: map<string, seq<string>>, key: string, names: seq<string>, name: string)
    ensures Push(entities, key, names + [name]) == Push(entities, key, names)[key := Entry(Push(entities, key, names), key) + [name]]
  {
    if |names| > 0 {
      assert Entry(entities, key) + names + [name] == Entry(entities, key) + (names + [name]);
    } else {
      assert names + [name] == [name];
    }
  }

  datatype CodeAnalyzer = CodeAnalyzer(patterns: seq<DeclPattern>)
  {
    /**
     * `analyze_code`: for each pattern in order, every match in text order
     * pushes its last capture under the pattern's entity type, when that
     * capture is not empty.
     */
    method AnalyzeCode(code: string) returns (entities: map<string, seq<string>>)
      ensures entities == Entities(code, patterns)
    {
      entities := map[];
      for i := 0 to |patterns|
        invariant entities == Entities(code, patterns[..i])
      {
        assert patterns[..i + 1][..i] == patterns[..i];
        entities := PushCaptures(code, patterns[i], entities);
      }
      assert patterns[..|patterns|] == patterns;
    }
  }

  /** `CodeAnalyzer::new` (and `Default`): the four declaration patterns. */
  function NewAnalyzer(): (a: CodeAnalyzer)
    ensures a.patterns == DefaultDecls()
  {
    CodeAnalyzer(DefaultDecls())
  }

  /** The inner loop of `analyze_code`: walk the matches of one pattern and push each name. */
  method PushCaptures(code: string, pat: DeclPattern, entities0: map<string, seq<string>>)
    returns (entities: map<string, seq<string>>)
    ensures entities == Push(entities0, pat.entityType, Scan(code, pat, 0))
  {
    entities := entities0;
    ghost var found: seq<string> := [];
    var p := 0;
    while p < |code|
      invariant p <= |code|
      invariant Scan(code, pat, 0) == found + Scan(code, pat, p)
      invariant entities == Push(entities0, pat.entityType, found)
      decreases |code| - p
    {
      var m := if LineStart(code, p) then MatchAt(code, p, pat) else None;
      if m.Some? {
        var name := m.value.0;
        if |name| > 0 {
          PushOneMore(entities0, pat.entityType, found, name);
          entities := entities[pat.entityType := Entry(entities, pat.entityType) + [name]];
        }
        found := found + [name];
        p := m.value.1;
      } else {
        p := p + 1;
      }
    }
    assert Scan(code, pat, p) == [];
    assert found + [] == found;
  }

  /** A key is present exactly when some pattern with that entity type finds a name. */
  lemma {:induction false} EntitiesKeys(s: string, patterns: seq<DeclPattern>, key: string)
    ensures key in Entities(s, patterns) <==>
      exists i :: 0 <= i < |patterns| && patterns[i].entityType == key && |Scan(s, patterns[i], 0)| > 0
  {
    if |patterns| > 0 {
      var front := patterns[..|patterns| - 1];
      EntitiesKeys(s, front, key);
      if exists i :: 0 <= i < |patterns| && patterns[i].entityType == key && |Scan(s, patterns[i], 0)| > 0 {
        var i :| 0 <= i < |patterns| && patterns[i].entityType == key && |Scan(s, patterns[i], 0)| > 0;
        if i < |front| {
          assert front[i] == patterns[i];
        }
      }
      if exists i :: 0 <= i < |front| && front[i].entityType == key && |Scan(s, front[i], 0)| > 0 {
        var i :| 0 <= i < |front| && front[i].entityType == key && |Scan(s, front[i], 0)| > 0;
        assert patterns[i] == front[i];
      }
    }
  }

  /** Pushing under another key leaves this key's entry alone. */
  lemma PushOther(entities: map<string, seq<string>>, other: string, names: seq<string>, key: string)
    requires other != key
    ensures Entry(Push(entities, other, names), key) == Entry(entities, key)
  {
  }

  /** Pushing under a key not yet present makes the names its whole entry. */
  lemma PushFresh(entities: map<string, seq<string>>, key: string, names: seq<string>)
    requires key !in entities
    ensures Entry(Push(entities, key, names), key) == names
  {
  }

  /** With one pattern per entity type, each type holds exactly that pattern's names, in text order. */
  lemma {:induction false} EntitiesOfDistinct(s: string, patterns: seq<DeclPattern>, i: nat)
    requires forall a, b :: 0 <= a < b < |patterns| ==> patterns[a].entityType != patterns[b].entityType
    requires i < |patterns|
    ensures Entry(Entities(s, patterns), patterns[i].entityType) == Scan(s, patterns[i], 0)
  {
    var front := patterns[..|patterns| - 1];
    var last := patterns[|patterns| - 1];
    var key := patterns[i].entityType;
    assert Entities(s, patterns) == Push(Entities(s, front), last.entityType, Scan(s, last, 0));
    if i < |front| {
      assert front[i] == patterns[i];
      EntitiesOfDistinct(s, front, i);
      PushOther(Entities(s, front), last.entityType, Scan(s, last, 0), key);
    } else {
      EntitiesKeys(s, front, key);
      PushFresh(Entities(s, front), key, Scan(s, last, 0));
    }
  }

  /** Empty input has no matches, so the map is empty. */
  lemma EmptyCode(a: CodeAnalyzer)
    ensures Entities("", a.patterns) == map[]
  {
    forall k
      ensures k !in Entities("", a.patterns)
    {
      EntitiesKeys("", a.patterns, k);
    }
  }


  /** The keywords, each followed by one space. */
  function Spaced(keywords: seq<string>): string
  {
    if |keywords| == 0 then "" else keywords[0] + " " + Spaced(keywords[1..])
  }

  /** Every keyword starts with a character that is not whitespace. */
  predicate Solid(keywords: seq<string>)
  {
    forall m :: 0 <= m < |keywords| ==> |keywords[m]| > 0 && !IsWhitespace(keywords[m][0])
  }

  /** The keywords after the first are solid too. */
  lemma SolidTail(keywords: seq<string>)
    requires Solid(keywords) && |keywords| > 0
    ensures Solid(keywords[1..])
  {
    forall m | 0 <= m < |keywords[1..]|
      ensures |keywords[1..][m]| > 0 && !IsWhitespace(keywords[1..][m][0])
    {
      assert keywords[1..][m] == keywords[m + 1];
    }
  }

  /** Text found at a position holds each part of it at the matching position. */
  lemma HasAtSplit(s: string, i: nat, a: string, b: string)
    requires HasAt(s, i, a + b)
    ensures HasAt(s, i, a) && HasAt(s, i + |a|, b)
  {
    assert s[i..i + |a|] == (a + b)[..|a|];
    assert s[i + |a|..i + |a| + |b|] == (a + b)[|a|..];
  }

  /** Spaced keywords at `i`: the first keyword, one space, and the rest spaced right after. */
  lemma SpacedFirst(s: string, i: nat, keywords: seq<string>)
    requires |keywords| > 0 && HasAt(s, i, Spaced(keywords))
    ensures HasAt(s, i, keywords[0]) && s[i + |keywords[0]|] == ' '
    ensures HasAt(s, i + |keywords[0]| + 1, Spaced(keywords[1..]))
    ensures |Spaced(keywords)| == |keywords[0]| + 1 + |Spaced(keywords[1..])|
  {
    var kw, rest := keywords[0], keywords[1..];
    assert Spaced(keywords) == kw + " " + Spaced(rest);
    HasAtSplit(s, i, kw + " ", Spaced(rest));
    HasAtSplit(s, i, kw, " ");
  }

  /** A solid keyword sits first in its spaced form. */
  lemma SpacedStart(s: string, j: nat, keywords: seq<string>)
    requires Solid(keywords) && |keywords| > 0 && HasAt(s, j, Spaced(keywords))
    ensures j < |s| && !IsWhitespace(s[j])
  {
    assert Spaced(keywords) == keywords[0] + " " + Spaced(keywords[1..]);
    assert s[j] == Spaced(keywords)[0] == keywords[0][0];
  }

  /**
   * Solid keywords, each followed by one space, and then a character that
   * is not whitespace: the keyword matcher stops right after the last space.
   */
  lemma {:induction false} AfterSpaced(s: string, i: nat, keywords: seq<string>)
    requires Solid(keywords)
    requires HasAt(s, i, Spaced(keywords))
    requires i + |Spaced(keywords)| < |s| && !IsWhitespace(s[i + |Spaced(keywords)|])
    ensures AfterKeywords(s, i, keywords) == Some(i + |Spaced(keywords)|)
    decreases |keywords|
  {
    if |keywords| > 0 {
      var kw, rest := keywords[0], keywords[1..];
      var j := i + |kw| + 1;
      SpacedFirst(s, i, keywords);
      SolidTail(keywords);
      assert !IsWhitespace(s[j]) by {
        if |rest| > 0 {
          SpacedStart(s, j, rest);
        }
      }
      assert WsRun(s, i + |kw|) == 1 by {
        assert WsRun(s, j) == 0;
      }
      AfterSpaced(s, j, rest);
    }
  }

  /** A word ends where the next character is not a word character. */
  lemma {:induction false} WordRunExact(s: string, j: nat, name: string)
    requires IsWord(name) && HasAt(s, j, name)
    requires j + |name| == |s| || !IsWordChar(s[j + |name|])
    ensures WordRun(s, j) == |name| && NameAt(s, j) == Some((name, j + |name|))
    decreases |name|
  {
    assert s[j] == name[0];
    if |name| > 1 {
      assert s[j + 1..j + 1 + |name[1..]|] == name[1..];
      WordRunExact(s, j + 1, name[1..]);
    } else {
      assert WordRun(s, j + 1) == 0;
    }
  }

  /** A whole name sits at `j`: the next character, if any, cannot extend it. */
  predicate NameEndsAt(s: string, j: nat, name: string)
  {
    IsWord(name) && HasAt(s, j, name) && (j + |name| == |s| || !IsWordChar(s[j + |name|]))
  }

  /** The spaced keywords and then a whole name at `j`: the keywords match up to `j`, and the name after them. */
  lemma Declaration(s: string, i: nat, keywords: seq<string>, j: nat, name: string)
    requires Solid(keywords)
    requires j == i + |Spaced(keywords)|
    requires HasAt(s, i, Spaced(keywords)) && NameEndsAt(s, j, name)
    ensures AfterKeywords(s, i, keywords) == Some(j)
    ensures NameAt(s, j) == Some((name, j + |name|))
  {
    assert s[j] == name[0];
    AfterSpaced(s, i, keywords);
    WordRunExact(s, j, name);
  }

  /** When the character at `i` cannot start the first keyword, the keyword matcher fails. */
  lemma NoKeywordAt(s: string, i: nat, keywords: seq<string>)
    requires i < |s| && |keywords| > 0 && |keywords[0]| > 0 && s[i] != keywords[0][0]
    ensures AfterKeywords(s, i, keywords) == None
  {
  }

  /** The first alternative that matches decides the alternation. */
  lemma FirstHead(s: string, i: nat, heads: seq<seq<string>>, j: nat)
    requires i <= |s| && |heads| > 0
    requires AfterKeywords(s, i, heads[0]) == Some(j) && NameAt(s, j).Some?
    ensures MatchHeads(s, i, heads) == NameAt(s, j)
  {
  }

  /** An alternation none of whose alternatives can start with the character at `i` fails there. */
  lemma {:induction false} NoHeadStartsWith(s: string, i: nat, heads: seq<seq<string>>)
    requires i < |s|
    requires forall m :: 0 <= m < |heads| ==> |heads[m]| > 0 && |heads[m][0]| > 0 && heads[m][0][0] != s[i]
    ensures MatchHeads(s, i, heads) == None
    decreases |heads|
  {
    if |heads| > 0 {
      NoKeywordAt(s, i, heads[0]);
      assert forall m :: 0 <= m < |heads[1..]| ==> heads[1..][m] == heads[m + 1];
      NoHeadStartsWith(s, i, heads[1..]);
    }
  }

  /**
   * Alternatives before `k` that cannot start with the character at `i`,
   * and alternative `k` that matches: the alternation takes alternative `k`.
   */
  lemma {:induction false} LaterHead(s: string, i: nat, heads: seq<seq<string>>, k: nat, j: nat)
    requires i < |s| && k < |heads|
    requires forall m :: 0 <= m < k ==> |heads[m]| > 0 && |heads[m][0]| > 0 && heads[m][0][0] != s[i]
    requires AfterKeywords(s, i, heads[k]) == Some(j) && NameAt(s, j).Some?
    ensures MatchHeads(s, i, heads) == NameAt(s, j)
    decreases k
  {
    if k > 0 {
      NoKeywordAt(s, i, heads[0]);
      assert forall m :: 0 <= m < |heads[1..]| ==> heads[1..][m] == heads[m + 1];
      LaterHead(s, i, heads[1..], k - 1, j);
    }
  }

  /**
   * No `pub` in front (or none allowed), and one alternative's keywords,
   * spaced, then a whole name, with no earlier alternative able to start
   * there: the pattern matches, taking that name.
   */
  lemma Declared(s: string, p: nat, pat: DeclPattern, k: nat, j: nat, name: string, e: nat)
    requires p < |s| && (pat.optionalPub ==> s[p] != 'p') && k < |pat.heads| && Solid(pat.heads[k])
    requires forall m :: 0 <= m < k ==> |pat.heads[m]| > 0 && |pat.heads[m][0]| > 0 && pat.heads[m][0][0] != s[p]
    requires j == p + |Spaced(pat.heads[k])| && e == j + |name|
    requires HasAt(s, p, Spaced(pat.heads[k])) && NameEndsAt(s, j, name)
    ensures MatchAt(s, p, pat) == Some((name, e))
  {
    Declaration(s, p, pat.heads[k], j, name);
    LaterHead(s, p, pat.heads, k, j);
    if pat.optionalPub {
      NoKeywordAt(s, p, ["pub"]);
    }
    MatchWithoutPub(s, p, pat);
  }

  /** Where no `pub` prefix can be taken, the pattern is its alternation at `p`. */
  lemma MatchWithoutPub(s: string, p: nat, pat: DeclPattern)
    requires p <= |s| && (pat.optionalPub ==> AfterKeywords(s, p, ["pub"]) == None)
    ensures MatchAt(s, p, pat) == MatchHeads(s, p, pat.heads)
  {
  }

  /** Where a `pub` prefix is allowed and taken, and the alternation matches after it, that match wins. */
  lemma MatchViaPub(s: string, p: nat, pat: DeclPattern, q: nat)
    requires p <= q <= |s| && pat.optionalPub && AfterKeywords(s, p, ["pub"]) == Some(q)
    requires MatchHeads(s, q, pat.heads).Some?
    ensures MatchAt(s, p, pat) == MatchHeads(s, q, pat.heads)
  {
  }

  /** `pub` and one space in front of the first alternative's declaration: a pattern that allows `pub` matches past them. */
  lemma PubDeclared(s: string, p: nat, pat: DeclPattern, j: nat, name: string, e: nat)
    requires pat.optionalPub && HasAt(s, p, "pub ")
    requires |pat.heads| > 0 && |pat.heads[0]| > 0 && Solid(pat.heads[0])
    requires j == p + 4 + |Spaced(pat.heads[0])| && e == j + |name|
    requires HasAt(s, p + 4, Spaced(pat.heads[0])) && NameEndsAt(s, j, name)
    ensures MatchAt(s, p, pat) == Some((name, e))
  {
    Declaration(s, p + 4, pat.heads[0], j, name);
    assert Spaced(["pub"]) == "pub ";
    assert s[p + 4] == Spaced(pat.heads[0])[0] == pat.heads[0][0][0];
    AfterSpaced(s, p, ["pub"]);
    FirstHead(s, p + 4, pat.heads, j);
    MatchViaPub(s, p, pat, p + 4);
  }

  /** Every default pattern starts with a letter, so none matches where the text has whitespace. */
  lemma NoMatchAtWhitespace(s: string, p: nat, pat: DeclPattern)
    requires pat in DefaultDecls()
    requires p < |s| && IsWhitespace(s[p])
    ensures MatchAt(s, p, pat) == None
  {
    NoKeywordAt(s, p, ["pub"]);
    NoHeadStartsWith(s, p, pat.heads);
  }

  /**
   * An indented line contributes nothing: the scan passes over its
   * leading whitespace without a match, so methods inside `impl` blocks are
   * not found.
   */
  lemma IndentedLineSkipped(s: string, p: nat, pat: DeclPattern)
    requires pat in DefaultDecls()
    requires p < |s| && IsWhitespace(s[p])
    ensures Scan(s, pat, p) == Scan(s, pat, p + 1)
  {
    NoMatchAtWhitespace(s, p, pat);
  }

  /** `fn NAME` at the start of a line: a pattern whose only alternative is `fn` matches, taking NAME. */
  lemma FnLine(s: string, p: nat, name: string, pat: DeclPattern)
    requires pat.heads == [["fn"]]
    requires HasAt(s, p, "fn ") && NameEndsAt(s, p + 3, name)
    ensures MatchAt(s, p, pat) == Some((name, p + 3 + |name|))
  {
    assert Spaced(pat.heads[0]) == "fn ";
    Declared(s, p, pat, 0, p + 3, name, p + 3 + |name|);
  }

  /** `pub fn NAME`: a pattern that allows `pub` and whose only alternative is `fn` matches, taking NAME. */
  lemma PubFnLine(s: string, p: nat, name: string, pat: DeclPattern)
    requires pat.optionalPub && pat.heads == [["fn"]]
    requires HasAt(s, p, "pub fn ") && NameEndsAt(s, p + 7, name)
    ensures MatchAt(s, p, pat) == Some((name, p + 7 + |name|))
  {
    assert Spaced(pat.heads[0]) == "fn ";
    HasAtSplit(s, p, "pub ", "fn ");
    PubDeclared(s, p, pat, p + 7, name, p + 7 + |name|);
  }

  /** `async fn NAME`: a pattern whose only alternative is `async fn` matches, taking NAME. */
  lemma AsyncFnLine(s: string, p: nat, name: string, pat: DeclPattern)
    requires pat.heads == [["async", "fn"]]
    requires HasAt(s, p, "async fn ") && NameEndsAt(s, p + 9, name)
    ensures MatchAt(s, p, pat) == Some((name, p + 9 + |name|))
  {
    assert Spaced(pat.heads[0]) == "async fn ";
    Declared(s, p, pat, 0, p + 9, name, p + 9 + |name|);
  }

  /** `pub async fn NAME`: a pattern that allows `pub` and whose only alternative is `async fn` matches, taking NAME. */
  lemma PubAsyncFnLine(s: string, p: nat, name: string, pat: DeclPattern)
    requires pat.optionalPub && pat.heads == [["async", "fn"]]
    requires HasAt(s, p, "pub async fn ") && NameEndsAt(s, p + 13, name)
    ensures MatchAt(s, p, pat) == Some((name, p + 13 + |name|))
  {
    assert Spaced(pat.heads[0]) == "async fn ";
    HasAtSplit(s, p, "pub ", "async fn ");
    PubDeclared(s, p, pat, p + 13, name, p + 13 + |name|);
  }

  /** `async` is not `fn`: a pattern whose only alternative is `fn` does not match a line starting `async`. */
  lemma AsyncIsNotFn(s: string, p: nat, pat: DeclPattern)
    requires pat.heads == [["fn"]]
    requires HasAt(s, p, "async ")
    ensures MatchAt(s, p, pat) == None
  {
    NoKeywordAt(s, p, ["pub"]);
    NoHeadStartsWith(s, p, pat.heads);
  }

  /** Nor is `pub async`: the alternative `fn` fails both past the `pub` and in front of it. */
  lemma PubAsyncIsNotFn(s: string, p: nat, pat: DeclPattern)
    requires pat.heads == [["fn"]]
    requires HasAt(s, p, "pub async ")
    ensures MatchAt(s, p, pat) == None
  {
    HasAtSplit(s, p, "pub ", "async ");
    assert Spaced(["pub"]) == "pub ";
    AfterSpaced(s, p, ["pub"]);
    NoHeadStartsWith(s, p + 4, pat.heads);
    NoHeadStartsWith(s, p, pat.heads);
  }

  /** `struct NAME`, `enum NAME` and `trait NAME`: the type pattern matches, taking NAME, the last capture. */
  lemma TypeLine(s: string, p: nat, k: nat, name: string, pat: DeclPattern)
    requires pat.heads == [["struct"], ["enum"], ["trait"]] && k < 3
    requires HasAt(s, p, pat.heads[k][0] + " ")
    requires NameEndsAt(s, p + |pat.heads[k][0]| + 1, name)
    ensures MatchAt(s, p, pat) == Some((name, p + |pat.heads[k][0]| + 1 + |name|))
  {
    var j := p + |pat.heads[k][0]| + 1;
    assert Spaced(pat.heads[k]) == pat.heads[k][0] + " ";
    assert s[p] == pat.heads[k][0][0];
    Declared(s, p, pat, k, j, name, j + |name|);
  }

  /** `mod NAME` at the start of a line: a pattern whose only alternative is `mod` matches, taking NAME. */
  lemma ModLine(s: string, p: nat, name: string, pat: DeclPattern)
    requires pat.heads == [["mod"]]
    requires HasAt(s, p, "mod ") && NameEndsAt(s, p + 4, name)
    ensures MatchAt(s, p, pat) == Some((name, p + 4 + |name|))
  {
    assert Spaced(pat.heads[0]) == "mod ";
    Declared(s, p, pat, 0, p + 4, name, p + 4 + |name|);
  }

  /** `pub mod NAME` is no match for a pattern without the optional `pub` whose only alternative is `mod`. */
  lemma PubModLine(s: string, p: nat, pat: DeclPattern)
    requires !pat.optionalPub && pat.heads == [["mod"]]
    requires HasAt(s, p, "pub ")
    ensures MatchAt(s, p, pat) == None
  {
    NoHeadStartsWith(s, p, pat.heads);
  }

  /** A key is only ever created by a name, so no list in the map is empty. */
  lemma {:induction false} EntitiesNonEmpty(s: string, patterns: seq<DeclPattern>, key: string)
    ensures key in Entities(s, patterns) ==> |Entities(s, patterns)[key]| > 0
  {
    if |patterns| > 0 {
      EntitiesNonEmpty(s, patterns[..|patterns| - 1], key);
    }
  }

  /** The text has no line feed. */
  predicate OneLine(s: string)
  {
    forall q :: 0 <= q < |s| ==> s[q] != '\n'
  }

  /** On a single line only the very start is the start of a line, so a scan from further on finds nothing. */
  lemma {:induction false} ScanPastLineStart(s: string, pat: DeclPattern, p: nat)
    requires OneLine(s) && 0 < p <= |s|
    ensures Scan(s, pat, p) == []
    decreases |s| - p
  {
    if p < |s| {
      ScanPastLineStart(s, pat, p + 1);
    }
  }

  /** A single line holds at most one declaration: the match at its start, if any. */
  lemma ScanOneLine(s: string, pat: DeclPattern)
    requires OneLine(s)
    ensures Scan(s, pat, 0) == if MatchAt(s, 0, pat).Some? then [MatchAt(s, 0, pat).value.0] else []
  {
    if |s| > 0 {
      ScanPastLineStart(s, pat, 1);
      if MatchAt(s, 0, pat).Some? {
        ScanPastLineStart(s, pat, MatchAt(s, 0, pat).value.1);
      }
    }
  }

  /** The four default patterns file under four different entity types. */
  lemma DefaultTypesDistinct()
    ensures forall a, b :: 0 <= a < b < |DefaultDecls()| ==> DefaultDecls()[a].entityType != DefaultDecls()[b].entityType
  {
  }

  /** A text that is the line `fn NAME`: the default analyzer files NAME, and only NAME, under "function". */
  lemma FnLineIsFunction(s: string, name: string)
    requires OneLine(s) && HasAt(s, 0, "fn ") && NameEndsAt(s, 3, name)
    ensures Entry(Entities(s, DefaultDecls()), "function") == [name]
  {
    FnLine(s, 0, name, FunctionDecl);
    ScanOneLine(s, FunctionDecl);
    DefaultTypesDistinct();
    EntitiesOfDistinct(s, DefaultDecls(), 1);
  }

  /** A text that is the line `pub fn NAME`: the default analyzer files NAME, and only NAME, under "function". */
  lemma PubFnLineIsFunction(s: string, name: string)
    requires OneLine(s) && HasAt(s, 0, "pub fn ") && NameEndsAt(s, 7, name)
    ensures Entry(Entities(s, DefaultDecls()), "function") == [name]
  {
    PubFnLine(s, 0, name, FunctionDecl);
    ScanOneLine(s, FunctionDecl);
    DefaultTypesDistinct();
    EntitiesOfDistinct(s, DefaultDecls(), 1);
  }

  /** A text that is the line `pub async fn NAME`: the default analyzer files NAME, and only NAME, under "async_function". */
  lemma PubAsyncLineIsAsync(s: string, name: string)
    requires OneLine(s) && HasAt(s, 0, "pub async fn ") && NameEndsAt(s, 13, name)
    ensures Entry(Entities(s, DefaultDecls()), "async_function") == [name]
  {
    PubAsyncFnLine(s, 0, name, AsyncFunctionDecl);
    ScanOneLine(s, AsyncFunctionDecl);
    DefaultTypesDistinct();
    EntitiesOfDistinct(s, DefaultDecls(), 0);
  }

  /** ... and nothing under "function". */
  lemma PubAsyncLineIsNotFunction(s: string)
    requires OneLine(s) && HasAt(s, 0, "pub async ")
    ensures "function" !in Entities(s, DefaultDecls())
  {
    PubAsyncIsNotFn(s, 0, FunctionDecl);
    ScanOneLine(s, FunctionDecl);
    DefaultTypesDistinct();
    EntitiesOfDistinct(s, DefaultDecls(), 1);
    EntitiesNonEmpty(s, DefaultDecls(), "function");
  }

  /** A text that is the line `struct NAME`, `enum NAME` or `trait NAME`: NAME, and only NAME, is filed under "data_structure". */
  lemma TypeLineIsDataStructure(s: string, k: nat, name: string)
    requires k < 3
    requires OneLine(s) && HasAt(s, 0, DataStructureDecl.heads[k][0] + " ")
    requires NameEndsAt(s, |DataStructureDecl.heads[k][0]| + 1, name)
    ensures Entry(Entities(s, DefaultDecls()), "data_structure") == [name]
  {
    TypeLine(s, 0, k, name, DataStructureDecl);
    ScanOneLine(s, DataStructureDecl);
    DefaultTypesDistinct();
    EntitiesOfDistinct(s, DefaultDecls(), 2);
  }

  /** A text that is the line `mod NAME`: NAME, and only NAME, is filed under "module". */
  lemma ModLineIsModule(s: string, name: string)
    requires OneLine(s) && HasAt(s, 0, "mod ") && NameEndsAt(s, 4, name)
    ensures Entry(Entities(s, DefaultDecls()), "module") == [name]
  {
    ModLine(s, 0, name, ModuleDecl);
    ScanOneLine(s, ModuleDecl);
    DefaultTypesDistinct();
    EntitiesOfDistinct(s, DefaultDecls(), 3);
  }

  /** A text that is the line `async fn NAME`: the default analyzer files NAME, and only NAME, under "async_function". */
  lemma AsyncLineIsAsync(s: string, name: string)
    requires OneLine(s) && HasAt(s, 0, "async fn ") && NameEndsAt(s, 9, name)
    ensures Entry(Entities(s, DefaultDecls()), "async_function") == [name]
  {
    AsyncFnLine(s, 0, name, AsyncFunctionDecl);
    ScanOneLine(s, AsyncFunctionDecl);
    DefaultTypesDistinct();
    EntitiesOfDistinct(s, DefaultDecls(), 0);
  }

  /** ... and nothing under "function": the function pattern needs `fn` right after the optional `pub`. */
  lemma AsyncLineIsNotFunction(s: string)
    requires OneLine(s) && HasAt(s, 0, "async ")
    ensures "function" !in Entities(s, DefaultDecls())
  {
    AsyncIsNotFn(s, 0, FunctionDecl);
    ScanOneLine(s, FunctionDecl);
    DefaultTypesDistinct();
    EntitiesOfDistinct(s, DefaultDecls(), 1);
    EntitiesNonEmpty(s, DefaultDecls(), "function");
  }

  /** A text that is the line `pub mod NAME`: nothing is filed under "module". */
  lemma PubModLineIgnored(s: string)
    requires OneLine(s) && HasAt(s, 0, "pub ")
    ensures "module" !in Entities(s, DefaultDecls())
  {
    PubModLine(s, 0, ModuleDecl);
    ScanOneLine(s, ModuleDecl);
    DefaultTypesDistinct();
    EntitiesOfDistinct(s, DefaultDecls(), 3);
    EntitiesNonEmpty(s, DefaultDecls(), "module");
  }
}
