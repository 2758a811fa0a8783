/**
 * The query processor: tags a query with the keyword groups it mentions,
 * and splits it into lower-case entity words.
 */
module EngineQueryProcessor {
  import opened Common
  import opened Text

  /**
   * A case-insensitive alternation of lower-case words, `(?i)(w1|w2)`, and
   * the key a match is filed under.
   */
  datatype Pattern = Pattern(words: seq<string>, key: string)

  /** The pattern occurs somewhere in the query, ignoring ASCII case. */
  predicate Matches(p: Pattern, query: string)
  {
    exists i :: 0 <= i < |p.words| && Contains(Lower(query), p.words[i])
  }

  /** The four keyword groups `QueryProcessor::new` sets up, in order. */
  function DefaultPatterns(): seq<Pattern>
  {
    [ Pattern(["neural", "neuro"], "neural_keyword"),
      Pattern(["cluster", "clust"], "cluster_keyword"),
      Pattern(["path", "route"], "path_keyword"),
      Pattern(["channel", "interface"], "channel_keyword") ]
  }

  /** The value stored under `key`, or an empty list. */
  function Entry(tokens: map<string, seq<string>>, key: string): seq<string>
  {
    if key in tokens then tokens[key] else []
  }

  /** The map `parse_query` builds from the patterns taken in order. */
  function Tokens(patterns: seq<Pattern>, query: string): map<string, seq<string>>
  {
    if |patterns| == 0 then map[]
    else
      var before := Tokens(patterns[..|patterns| - 1], query);
      var p := patterns[|patterns| - 1];
      if Matches(p, query) then before[p.key := Entry(before, p.key) + [query]] else before
  }

  /** The number of patterns with this key that match the query. */
  function Hits(patterns: seq<Pattern>, key: string, query: string): nat
  {
    if |patterns| == 0 then 0
    else
      var p := patterns[|patterns| - 1];
      Hits(patterns[..|patterns| - 1], key, query) + (if p.key == key && Matches(p, query) then 1 else 0)
  }

  /**
   * A key is present exactly when one of its patterns matches, and its list
   * holds the whole query once per matching pattern with that key.
   */
  lemma {:induction false} TokensMeaning(patterns: seq<Pattern>, query: string, key: string)
    ensures key in Tokens(patterns, query) <==> exists i :: 0 <= i < |patterns| && patterns[i].key == key && Matches(patterns[i], query)
    ensures key in Tokens(patterns, query) <==> Hits(patterns, key, query) > 0
    ensures Entry(Tokens(patterns, query), key) == seq(Hits(patterns, key, query), _ => query)
  {
    if |patterns| > 0 {
      var front := patterns[..|patterns| - 1];
      TokensMeaning(front, query, key);
      if exists i :: 0 <= i < |patterns| && patterns[i].key == key && Matches(patterns[i], query) {
        var i :| 0 <= i < |patterns| && patterns[i].key == key && Matches(patterns[i], query);
        if i < |front| {
          assert front[i] == patterns[i];
        }
      }
      if exists i :: 0 <= i < |front| && front[i].key == key && Matches(front[i], query) {
        var i :| 0 <= i < |front| && front[i].key == key && Matches(front[i], query);
        assert patterns[i] == front[i];
      }
    }
  }

  /** Each pattern adds at most one key, so there are never more keys than patterns. */
  lemma {:induction false} TokensKeyCount(patterns: seq<Pattern>, query: string)
    ensures |Tokens(patterns, query)| <= |patterns|
  {
    if |patterns| > 0 {
      TokensKeyCount(patterns[..|patterns| - 1], query);
    }
  }

  /** With no key repeated, a matching key holds exactly one copy of the query. */
  lemma {:induction false} HitsOfDistinctKeys(patterns: seq<Pattern>, key: string, query: string)
    requires forall i, j :: 0 <= i < j < |patterns| ==> patterns[i].key != patterns[j].key
    ensures Hits(patterns, key, query) <= 1
  {
    if |patterns| > 0 {
      var front := patterns[..|patterns| - 1];
      HitsOfDistinctKeys(front, key, query);
      if patterns[|patterns| - 1].key == key {
        // No earlier pattern has this key, so none of them matched under it.
        TokensMeaning(front, query, key);
      }
    }
  }

  /** Any query containing "cluster" also contains "clust": the longer alternative never decides a match. */
  lemma ClustSubsumesCluster(query: string)
    ensures Matches(DefaultPatterns()[1], query) <==> Contains(Lower(query), "clust")
  {
    var s := Lower(query);
    if Contains(s, "cluster") {
      var i: nat :| OccursAt(s, "cluster", i);
      assert s[i..i + 5] == s[i..i + 7][..5];
      ContainsAt(s, "clust", i);
    }
    assert DefaultPatterns()[1].words[1] == "clust";
  }

  datatype QueryProcessor = QueryProcessor(queryPatterns: seq<Pattern>)
  {
    /**
     * `parse_query`: for each pattern in order that matches the query,
     * append the whole query to the list under the pattern's key.
     */
    method ParseQuery(context: QueryContext) returns (tokens: map<string, seq<string>>)
      ensures tokens == Tokens(queryPatterns, context.query)
      ensures forall k :: k in tokens <==> exists i :: 0 <= i < |queryPatterns| && queryPatterns[i].key == k && Matches(queryPatterns[i], context.query)
      ensures |tokens| <= |queryPatterns|
    {
      tokens := map[];
      for i := 0 to |queryPatterns|
        invariant tokens == Tokens(queryPatterns[..i], context.query)
      {
        assert queryPatterns[..i + 1][..i] == queryPatterns[..i];
        var p := queryPatterns[i];
        if Matches(p, context.query) {
          tokens := tokens[p.key := Entry(tokens, p.key) + [context.query]];
        }
      }
      assert queryPatterns[..|queryPatterns|] == queryPatterns;
      forall k
        ensures k in tokens <==> exists i :: 0 <= i < |queryPatterns| && queryPatterns[i].key == k && Matches(queryPatterns[i], context.query)
      {
        TokensMeaning(queryPatterns, context.query, k);
      }
      TokensKeyCount(queryPatterns, context.query);
    }

    /**
     * `extract_entities`: the whitespace-separated words of the query,
     * lower-cased and in order, keeping those longer than three characters.
     */
    function ExtractEntities(query: string): (r: seq<string>)
      ensures |r| <= |SplitWhitespace(query)|
      ensures forall e :: e in r ==> |e| > 3 && NoWhitespace(e) && forall i :: 0 <= i < |e| ==> !IsUpper(e[i])
    {
      LongWords(SplitWhitespace(query))
    }
  }

  /** `QueryProcessor::new` (and `Default`): the four keyword groups. */
  function NewProcessor(): (q: QueryProcessor)
    ensures q.queryPatterns == DefaultPatterns()
  {
    QueryProcessor(DefaultPatterns())
  }

  /** Lower-casing never introduces whitespace. */
  lemma LowerKeepsNoWhitespace(w: string)
    requires NoWhitespace(w)
    ensures NoWhitespace(Lower(w))
  {
    forall i | 0 <= i < |w|
      ensures !IsWhitespace(Lower(w)[i])
    {
      assert !IsWhitespace(w[i]);
    }
  }

  /** The lower-cased forms of the words, keeping those longer than three characters. */
  function LongWords(words: seq<string>): (r: seq<string>)
    requires forall w :: w in words ==> NoWhitespace(w)
    ensures |r| <= |words|
    ensures forall e :: e in r ==> |e| > 3 && NoWhitespace(e) && forall i :: 0 <= i < |e| ==> !IsUpper(e[i])
  {
    if |words| == 0 then []
    else
      var w := Lower(words[0]);
      LowerKeepsNoWhitespace(words[0]);
      (if |w| > 3 then [w] else []) + LongWords(words[1..])
  }

  /** An entity is the lower-case form of a word longer than three characters. */
  lemma {:induction false} LongWordsMembers(words: seq<string>, e: string)
    requires forall w :: w in words ==> NoWhitespace(w)
    ensures e in LongWords(words) <==> exists w :: w in words && |w| > 3 && Lower(w) == e
  {
    if |words| > 0 {
      LongWordsMembers(words[1..], e);
      if exists w :: w in words && |w| > 3 && Lower(w) == e {
        var w :| w in words && |w| > 3 && Lower(w) == e;
        if w != words[0] {
          assert w in words[1..];
        }
      }
    }
  }

  /** Words that are already lower-case and longer than three characters are kept as they are. */
  lemma {:induction false} LongWordsKeep(words: seq<string>)
    requires forall w :: w in words ==> |w| > 3 && NoWhitespace(w) && forall i :: 0 <= i < |w| ==> !IsUpper(w[i])
    ensures LongWords(words) == words
  {
    if |words| > 0 {
      LowerOfLower(words[0]);
      LongWordsKeep(words[1..]);
    }
  }

  /**
   * Joining lower-case words longer than three characters with single
   * spaces and extracting the entities gives the words back.
   */
  lemma ExtractJoin(q: QueryProcessor, words: seq<string>)
    requires forall w :: w in words ==> |w| > 3 && NoWhitespace(w) && forall i :: 0 <= i < |w| ==> !IsUpper(w[i])
    ensures q.ExtractEntities(Join(words, " ")) == words
  {
    SplitJoin(words);
    LongWordsKeep(words);
  }

  /** On the default processor every present key holds the query exactly once, and there are at most four keys. */
  lemma DefaultParse(context: QueryContext, tokens: map<string, seq<string>>)
    requires tokens == Tokens(DefaultPatterns(), context.query)
    ensures |tokens| <= 4
    ensures forall k :: k in tokens ==> tokens[k] == [context.query]
  {
    TokensKeyCount(DefaultPatterns(), context.query);
    forall k | k in tokens
      ensures tokens[k] == [context.query]
    {
      TokensMeaning(DefaultPatterns(), context.query, k);
      HitsOfDistinctKeys(DefaultPatterns(), k, context.query);
    }
  }
}
