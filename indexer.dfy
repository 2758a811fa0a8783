/**
 * The repository indexer: nodes grouped into buckets keyed by the display
 * string of their type, searchable by type and by name.
 */
module RepositoryIndexer {
  import opened Common
  import opened Text
  import opened CoreNode

  /** `Display for NodeType`: the lowercase variant name, or the text of a custom type. */
  function Display(t: NodeType): string
  {
    match t
    case Repository => "repository"
    case File => "file"
    case Function => "function"
    case Struct => "struct"
    case Module => "module"
    case Protocol => "protocol"
    case Model => "model"
    case Interface => "interface"
    case Custom(s) => s
  }

  predicate IsLowerWord(s: string)
  {
    |s| > 0 && forall i :: 0 <= i < |s| ==> 'a' <= s[i] <= 'z'
  }

  /** Each fixed variant displays as a non-empty lowercase word of its own. */
  lemma DisplayFixedVariants(a: NodeType, b: NodeType)
    requires !a.Custom? && !b.Custom?
    ensures IsLowerWord(Display(a))
    ensures Display(a) == Display(b) <==> a == b
  {
  }

  /** A custom type named like a fixed variant shares that variant's bucket. */
  lemma CustomSharesBucket(t: NodeType)
    requires !t.Custom?
    ensures Display(Custom(Display(t))) == Display(t) && Custom(Display(t)) != t
  {
  }

  /** The nodes of `bucket` whose name contains `term`, in bucket order. */
  function Filter(bucket: seq<Node>, term: string): (r: seq<Node>)
    ensures |r| <= |bucket|
    ensures forall i :: 0 <= i < |r| ==> r[i] in bucket && Contains(r[i].name, term)
  {
    if |bucket| == 0 then []
    else
      var rest := Filter(bucket[..|bucket| - 1], term);
      var n := bucket[|bucket| - 1];
      if Contains(n.name, term) then rest + [n] else rest
  }

  /** A node survives the filter exactly when the bucket holds it and its name contains the term. */
  lemma {:induction false} FilterMembers(bucket: seq<Node>, term: string, n: Node)
    ensures n in Filter(bucket, term) <==> n in bucket && Contains(n.name, term)
  {
    if |bucket| > 0 {
      FilterMembers(bucket[..|bucket| - 1], term, n);
      assert bucket == bucket[..|bucket| - 1] + [bucket[|bucket| - 1]];
    }
  }

  /** Every name contains the empty term, so filtering by it keeps the whole bucket. */
  lemma {:induction false} FilterEmptyTerm(bucket: seq<Node>)
    ensures Filter(bucket, "") == bucket
  {
    if |bucket| > 0 {
      FilterEmptyTerm(bucket[..|bucket| - 1]);
      ContainsEmpty(bucket[|bucket| - 1].name);
    }
  }

  /** The bucket stored under `key`, or none. */
  function Bucket(index: map<string, seq<Node>>, key: string): seq<Node>
  {
    if key in index then index[key] else []
  }

  /** The hits of the buckets under `keys`, bucket after bucket, each in bucket order. */
  function Found(index: map<string, seq<Node>>, keys: seq<string>, term: string): (r: seq<Node>)
    requires forall i :: 0 <= i < |keys| ==> keys[i] in index
  {
    if |keys| == 0 then []
    else Found(index, keys[..|keys| - 1], term) + Filter(index[keys[|keys| - 1]], term)
  }

  /** All indexed nodes whose name contains `term`, counted with multiplicity, over every bucket. */
  ghost function Matching(index: map<string, seq<Node>>, term: string): multiset<Node>
    decreases |index|
  {
    if index == map[] then multiset{}
    else
      var k :| k in index;
      multiset(Filter(index[k], term)) + Matching(index - {k}, term)
  }

  /** Every indexed node, counted with multiplicity. */
  ghost function Indexed(index: map<string, seq<Node>>): multiset<Node>
  {
    Matching(index, "")
  }

  /** `Matching` may take the buckets in any order: any bucket can be split off first. */
  lemma {:induction false} MatchingPick(index: map<string, seq<Node>>, term: string, key: string)
    requires key in index
    ensures Matching(index, term) == multiset(Filter(index[key], term)) + Matching(index - {key}, term)
    decreases |index|
  {
    var k :| k in index && Matching(index, term) == multiset(Filter(index[k], term)) + Matching(index - {k}, term);
    if k != key {
      var both := index - {k} - {key};
      assert index - {k} - {key} == index - {key} - {k};
      MatchingPick(index - {k}, term, key);
      MatchingPick(index - {key}, term, k);
    }
  }

  /** A node counts as matching exactly when some bucket holds it and its name contains the term. */
  lemma {:induction false} MatchingMembers(index: map<string, seq<Node>>, term: string, n: Node)
    ensures n in Matching(index, term) <==> Contains(n.name, term) && exists k :: k in index && n in index[k]
    decreases |index|
  {
    if index != map[] {
      var k :| k in index && Matching(index, term) == multiset(Filter(index[k], term)) + Matching(index - {k}, term);
      MatchingMembers(index - {k}, term, n);
      FilterMembers(index[k], term, n);
      if Contains(n.name, term) && exists j :: j in index && n in index[j] {
        var j :| j in index && n in index[j];
        if j != k {
          assert j in index - {k};
        }
      }
    }
  }

  /** Filtering a bucket with one more node at its end. */
  lemma FilterAppend(bucket: seq<Node>, n: Node, term: string)
    ensures Filter(bucket + [n], term) == Filter(bucket, term) + (if Contains(n.name, term) then [n] else [])
  {
    assert (bucket + [n])[..|bucket|] == bucket;
  }

  /** Splitting off the bucket under `key` of an index that holds `rest` beside it. */
  lemma SplitBucket(after: map<string, seq<Node>>, rest: map<string, seq<Node>>, key: string, term: string)
    requires key in after && rest == after - {key}
    ensures Matching(after, term) == multiset(Filter(after[key], term)) + Matching(rest, term)
  {
    MatchingPick(after, term, key);
  }

  /** Appending a node to one bucket adds exactly that node to the index, if its name matches the term. */
  lemma AppendToBucket(index: map<string, seq<Node>>, key: string, n: Node, term: string)
    ensures Matching(index[key := Bucket(index, key) + [n]], term)
         == Matching(index, term) + (if Contains(n.name, term) then multiset{n} else multiset{})
  {
    var bucket := Bucket(index, key);
    var after := index[key := bucket + [n]];
    var rest := index - {key};
    var extra := if Contains(n.name, term) then multiset{n} else multiset{};
    assert Matching(after, term) == multiset(Filter(bucket, term)) + extra + Matching(rest, term) by {
      assert after - {key} == rest;
      SplitBucket(after, rest, key, term);
      FilterAppend(bucket, n, term);
    }
    assert Matching(index, term) == multiset(Filter(bucket, term)) + Matching(rest, term) by {
      if key in index {
        SplitBucket(index, rest, key, term);
      } else {
        assert rest == index;
      }
    }
  }

  /** Every node sits in the bucket of its own type. */
  ghost predicate Typed(index: map<string, seq<Node>>)
  {
    forall k, i :: k in index && 0 <= i < |index[k]| ==> Display(index[k][i].nodeType) == k
  }

  /** Appending a node to the bucket of its own type keeps every node in the bucket of its type. */
  lemma AppendKeepsTyped(index: map<string, seq<Node>>, n: Node)
    requires Typed(index)
    ensures Typed(index[Display(n.nodeType) := Bucket(index, Display(n.nodeType)) + [n]])
  {
  }

  /** `Found` reads only the buckets under `keys`, so a map that agrees on them gives the same hits. */
  lemma {:induction false} FoundAgrees(index: map<string, seq<Node>>, sub: map<string, seq<Node>>, keys: seq<string>, term: string)
    requires forall k :: k in sub ==> k in index && index[k] == sub[k]
    requires forall i :: 0 <= i < |keys| ==> keys[i] in sub
    ensures Found(index, keys, term) == Found(sub, keys, term)
  {
    if |keys| > 0 {
      FoundAgrees(index, sub, keys[..|keys| - 1], term);
    }
  }

  /** Without the bucket of the last key, the other keys take the remaining buckets once each. */
  lemma DropLastKey(index: map<string, seq<Node>>, keys: seq<string>, rest: map<string, seq<Node>>, front: seq<string>)
    requires |keys| > 0 && Distinct(keys) && forall k :: k in index <==> k in keys
    requires rest == index - {keys[|keys| - 1]} && front == keys[..|keys| - 1]
    ensures Distinct(front) && forall x :: x in rest <==> x in front
  {
    assert keys == front + [keys[|keys| - 1]];
    forall x | x in front
      ensures x != keys[|keys| - 1]
    {
      var i :| 0 <= i < |front| && front[i] == x;
      assert keys[i] == x;
    }
  }

  /** Taking every bucket once, in any order, finds exactly the matching nodes. */
  lemma {:induction false} FoundMatching(index: map<string, seq<Node>>, keys: seq<string>, term: string)
    requires Distinct(keys) && forall k :: k in index <==> k in keys
    ensures multiset(Found(index, keys, term)) == Matching(index, term)
    decreases |keys|
  {
    if |keys| == 0 {
      assert index == map[];
    } else {
      var k := keys[|keys| - 1];
      var front := keys[..|keys| - 1];
      var rest := index - {k};
      DropLastKey(index, keys, rest, front);
      FoundMatching(rest, front, term);
      FoundAgrees(index, rest, front, term);
      MatchingPick(index, term, k);
    }
  }

  class Indexer {
    var index: map<string, seq<Node>>

    /** Every node sits in the bucket of its own type. */
    ghost predicate Valid()
      reads this
    {
      Typed(index)
    }

    /** `Indexer::new` (and `Default`): no buckets. */
    constructor ()
      ensures index == map[] && Indexed(index) == multiset{} && Valid()
    {
      index := map[];
    }

    /**
     * `index_node`: append the node to the bucket keyed by its type's display
     * string, creating the bucket if needed; every other bucket is untouched.
     */
    method IndexNode(n: Node)
      modifies this`index
      ensures index == old(index)[Display(n.nodeType) := Bucket(old(index), Display(n.nodeType)) + [n]]
      ensures Indexed(index) == Indexed(old(index)) + multiset{n}
      ensures forall k :: k in old(index) && k != Display(n.nodeType) ==> k in index && index[k] == old(index)[k]
      ensures old(Valid()) ==> Valid()
    {
      var key := Display(n.nodeType);
      AppendToBucket(index, key, n, "");
      ContainsEmpty(n.name);
      if Typed(index) {
        AppendKeepsTyped(index, n);
      }
      index := index[key := Bucket(index, key) + [n]];
    }

    /** `search_by_type`: the bucket for the key in insertion order, or nothing for an unknown key. */
    method SearchByType(key: string) returns (r: seq<Node>)
      ensures key in index ==> r == index[key]
      ensures key !in index ==> r == []
      ensures forall n :: n in r ==> n in Indexed(index)
      ensures Valid() ==> forall n :: n in r ==> Display(n.nodeType) == key
    {
      r := if key in index then index[key] else [];
      if key in index {
        forall n | n in r
          ensures n in Indexed(index)
        {
          ContainsEmpty(n.name);
          MatchingMembers(index, "", n);
        }
      }
    }

    /**
     * `search_by_name`: every indexed node whose name contains the term,
     * bucket by bucket in the map's unspecified order, each bucket in
     * insertion order.
     */
    method SearchByName(term: string) returns (r: seq<Node>, ghost keys: seq<string>)
      ensures Distinct(keys) && (set k | k in keys) == index.Keys
      ensures r == Found(index, keys, term)
      ensures multiset(r) == Matching(index, term)
      ensures forall n :: n in r <==> Contains(n.name, term) && exists k :: k in index && n in index[k]
      ensures term == "" ==> multiset(r) == Indexed(index)
    {
      var order := Collect(index.Keys);
      keys := order;
      r := [];
      for i := 0 to |order|
        invariant r == Found(index, order[..i], term)
      {
        assert order[..i + 1][..i] == order[..i];
        r := r + Filter(index[order[i]], term);
      }
      assert order[..|order|] == order;
      FoundMatching(index, order, term);
      forall n
        ensures n in r <==> Contains(n.name, term) && exists k :: k in index && n in index[k]
      {
        MatchingMembers(index, term, n);
      }
    }
  }
}
