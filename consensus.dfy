/**
 * The consensus validator: counts how often each node occurs across all
 * paths and accepts when the most frequent node accounts for at least the
 * threshold share of all occurrences.
 */
module ConsensusValidation {
  import opened Common

  /** All paths one after another. */
  function Flatten(paths: seq<seq<string>>): (xs: seq<string>)
  {
    if |paths| == 0 then [] else Flatten(paths[..|paths| - 1]) + paths[|paths| - 1]
  }

  /** The largest multiplicity in `m` of any element of `ys`, or 0 when `ys` is empty. */
  function MaxOver(m: multiset<string>, ys: seq<string>): (r: nat)
    ensures forall i :: 0 <= i < |ys| ==> m[ys[i]] <= r
    ensures |ys| > 0 ==> exists i :: 0 <= i < |ys| && m[ys[i]] == r
    ensures |ys| == 0 ==> r == 0
  {
    if |ys| == 0 then 0
    else
      var rest := MaxOver(m, ys[..|ys| - 1]);
      var last := m[ys[|ys| - 1]];
      if last > rest then last else rest
  }

  /** The count of the most frequent node, or 0 when there is none. */
  function MaxCount(xs: seq<string>): nat
  {
    MaxOver(multiset(xs), xs)
  }

  /**
   * What `validate_paths` decides: at least one path, at least one node in
   * all of them (0 / 0 is NaN in the source, and NaN meets no threshold),
   * and a most-frequent-node share of at least the threshold.
   */
  predicate Agreement(paths: seq<seq<string>>, threshold: real)
  {
    var xs := Flatten(paths);
    |paths| > 0 && |xs| > 0 && MaxCount(xs) as real / |xs| as real >= threshold
  }

  /** The largest count is the one value that bounds every count and is reached by some element. */
  lemma MaxCountUnique(xs: seq<string>, best: nat)
    requires forall x :: x in multiset(xs) ==> multiset(xs)[x] <= best
    requires |xs| > 0 ==> exists x :: x in multiset(xs) && multiset(xs)[x] == best
    requires |xs| == 0 ==> best == 0
    ensures MaxCount(xs) == best
  {
    var m := multiset(xs);
    if |xs| > 0 {
      var x :| x in m && m[x] == best;
      var i :| 0 <= i < |xs| && xs[i] == x;
      var j :| 0 <= j < |xs| && m[xs[j]] == MaxCount(xs);
      assert xs[j] in m;
    }
  }

  /** The largest count depends only on the multiset of nodes. */
  lemma MaxCountOfMultiset(xs: seq<string>, ys: seq<string>)
    requires multiset(xs) == multiset(ys)
    ensures MaxCount(xs) == MaxCount(ys)
  {
    var m := multiset(ys);
    assert |xs| == |m| == |ys|;
    forall x | x in m
      ensures m[x] <= MaxCount(xs)
    {
      var i :| 0 <= i < |xs| && xs[i] == x;
    }
    if |ys| > 0 {
      var i :| 0 <= i < |xs| && multiset(xs)[xs[i]] == MaxCount(xs);
      assert xs[i] in m;
    }
    MaxCountUnique(ys, MaxCount(xs));
  }

  /** Reordering the paths, or the nodes inside them, does not change the decision. */
  lemma ReorderingKeepsDecision(p: seq<seq<string>>, q: seq<seq<string>>, threshold: real)
    requires |p| > 0 <==> |q| > 0
    requires multiset(Flatten(p)) == multiset(Flatten(q))
    ensures Agreement(p, threshold) == Agreement(q, threshold)
  {
    MaxCountOfMultiset(Flatten(p), Flatten(q));
    assert |Flatten(p)| == |multiset(Flatten(p))| == |Flatten(q)|;
  }

  /** With at least one node, the most frequent node occurs at least once and at most once per node. */
  lemma MaxCountBounds(xs: seq<string>)
    requires |xs| > 0
    ensures 1 <= MaxCount(xs) <= |xs|
  {
    var m := multiset(xs);
    assert m[xs[0]] >= 1;
    var i :| 0 <= i < |xs| && m[xs[i]] == MaxCount(xs);
    assert m[xs[i]] <= |m| == |xs|;
  }

  /** A positive count out of at most as many nodes is a share in (0, 1]. */
  lemma ShareOfTotal(count: nat, total: nat)
    requires 1 <= count <= total
    ensures 0.0 < count as real / total as real <= 1.0
  {
    var share := count as real / total as real;
    assert share * total as real == count as real;
  }

  /** All of the nodes is a share of 1. */
  lemma WholeShare(total: nat)
    requires total >= 1
    ensures total as real / total as real == 1.0
  {
  }

  /** The share of the most frequent node lies in (0, 1], so a threshold above 1 is never met. */
  lemma ShareBounds(paths: seq<seq<string>>, threshold: real)
    requires |Flatten(paths)| > 0
    ensures 0.0 < MaxCount(Flatten(paths)) as real / |Flatten(paths)| as real <= 1.0
    ensures threshold > 1.0 ==> !Agreement(paths, threshold)
  {
    MaxCountBounds(Flatten(paths));
    ShareOfTotal(MaxCount(Flatten(paths)), |Flatten(paths)|);
  }

  /** A sequence made of one node only holds that node once per position. */
  lemma {:induction false} AllSame(xs: seq<string>, x: string)
    requires forall i :: 0 <= i < |xs| ==> xs[i] == x
    ensures multiset(xs)[x] == |xs|
  {
    if |xs| > 0 {
      AllSame(xs[1..], x);
      assert xs == [xs[0]] + xs[1..];
    }
  }

  /** When every path names the same single node, any threshold up to 1 is met. */
  lemma UnanimousAgrees(paths: seq<seq<string>>, x: string, threshold: real)
    requires |Flatten(paths)| > 0
    requires forall i :: 0 <= i < |Flatten(paths)| ==> Flatten(paths)[i] == x
    requires threshold <= 1.0
    ensures Agreement(paths, threshold)
  {
    var xs := Flatten(paths);
    assert |paths| > 0;
    AllSame(xs, x);
    MaxCountBounds(xs);
    assert multiset(xs)[xs[0]] <= MaxCount(xs);
    WholeShare(|xs|);
  }

  /** Paths that hold no node at all never agree, whatever the threshold. */
  lemma {:induction false} EmptyPathsNeverAgree(paths: seq<seq<string>>, threshold: real)
    requires forall i :: 0 <= i < |paths| ==> paths[i] == []
    ensures Flatten(paths) == [] && !Agreement(paths, threshold)
  {
    if |paths| > 0 {
      EmptyPathsNeverAgree(paths[..|paths| - 1], threshold);
    }
  }

  /** The occurrences counted so far, kept in a map from node to count. */
  ghost predicate Counts(counts: map<string, nat>, seen: seq<string>)
  {
    forall x :: (x in counts <==> x in multiset(seen)) && (x in counts ==> counts[x] == multiset(seen)[x])
  }

  /** One more occurrence of `node`. */
  lemma CountStep(counts: map<string, nat>, seen: seq<string>, node: string)
    requires Counts(counts, seen)
    ensures Counts(counts[node := (if node in counts then counts[node] else 0) + 1], seen + [node])
  {
    assert multiset(seen + [node]) == multiset(seen) + multiset{node};
  }

  datatype ConsensusValidator = ConsensusValidator(threshold: real)
  {
    /**
     * `validate_paths`: false for no paths; otherwise count every node over
     * all paths, take the largest count and accept when that count divided
     * by the number of nodes reaches the threshold.
     */
    method ValidatePaths(paths: seq<seq<string>>) returns (ok: bool)
      ensures ok == Agreement(paths, threshold)
    {
      if |paths| == 0 {
        return false;
      }
      var counts, total := CountNodes(paths);
      var best := LargestCount(counts);
      MaxCountUnique(Flatten(paths), best);
      if total == 0 {
        // 0 / 0 is NaN, which is not >= any threshold.
        ok := false;
      } else {
        ok := best as real / total as real >= threshold;
      }
    }
  }

  /** The two counting loops of `validate_paths`: a count per node and the number of nodes. */
  method CountNodes(paths: seq<seq<string>>) returns (counts: map<string, nat>, total: nat)
    ensures Counts(counts, Flatten(paths)) && total == |Flatten(paths)|
  {
    counts := map[];
    total := 0;
    for i := 0 to |paths|
      invariant Counts(counts, Flatten(paths[..i])) && total == |Flatten(paths[..i])|
    {
      assert paths[..i + 1][..i] == paths[..i];
      counts, total := CountPath(counts, total, Flatten(paths[..i]), paths[i]);
    }
    assert paths[..|paths|] == paths;
  }

  /** The inner loop: count the nodes of one path on top of those seen before. */
  method CountPath(counts0: map<string, nat>, total0: nat, ghost seen: seq<string>, path: seq<string>)
    returns (counts: map<string, nat>, total: nat)
    requires Counts(counts0, seen) && total0 == |seen|
    ensures Counts(counts, seen + path) && total == |seen + path|
  {
    counts, total := counts0, total0;
    for j := 0 to |path|
      invariant Counts(counts, seen + path[..j]) && total == |seen| + j
    {
      CountStep(counts, seen + path[..j], path[j]);
      assert seen + path[..j + 1] == seen + path[..j] + [path[j]];
      counts := counts[path[j] := (if path[j] in counts then counts[path[j]] else 0) + 1];
      total := total + 1;
    }
    assert path[..|path|] == path;
  }

  /** `counts.values().max().unwrap_or(0)`, walking the map in its unspecified order. */
  method LargestCount(counts: map<string, nat>) returns (best: nat)
    ensures forall x :: x in counts ==> counts[x] <= best
    ensures counts != map[] ==> exists x :: x in counts && counts[x] == best
    ensures counts == map[] ==> best == 0
  {
    var keys := Collect(counts.Keys);
    best := 0;
    for i := 0 to |keys|
      invariant forall j :: 0 <= j < i ==> counts[keys[j]] <= best
      invariant i > 0 ==> exists j :: 0 <= j < i && counts[keys[j]] == best
      invariant i == 0 ==> best == 0
    {
      if counts[keys[i]] > best || i == 0 {
        best := counts[keys[i]];
      }
    }
    forall x | x in counts
      ensures counts[x] <= best
    {
      assert x in (set k | k in keys);
    }
    if counts != map[] {
      var x :| x in counts;
      assert x in (set k | k in keys);
    }
  }

  /** `ConsensusValidator::default`: a threshold of 0.66. */
  function Default(): (v: ConsensusValidator)
    ensures v.threshold == 0.66
  {
    ConsensusValidator(0.66)
  }
}
