/**
 * Clusters: named groups of node ids with a member count and a cohesion
 * score. The member count always equals the number of distinct members.
 */
module CoreCluster {
  import opened Common
  import opened CoreNode

  datatype ClusterType = Functional | Architectural | Semantic | Temporal | Custom(text: string)

  datatype Centroid = Centroid(x: real, y: real, z: real)

  /** `iter().sum()` over the distances. */
  function Sum(xs: seq<real>): real
  {
    if |xs| == 0 then 0.0 else Sum(xs[..|xs| - 1]) + xs[|xs| - 1]
  }

  /** Every distance `compute_cohesion` records is 1.0. */
  predicate Ones(xs: seq<real>)
  {
    forall k :: 0 <= k < |xs| ==> xs[k] == 1.0
  }

  /**
   * The score `compute_cohesion` settles on: 1.0 when at least two members
   * are keys of the node map, 0.0 otherwise (an empty cluster included).
   */
  function Cohesion(members: set<string>, known: set<string>): real
  {
    if |members * known| >= 2 then 1.0 else 0.0
  }

  lemma {:induction false} SumOnes(xs: seq<real>)
    requires Ones(xs)
    ensures Sum(xs) == |xs| as real
  {
    if |xs| > 0 {
      SumOnes(xs[..|xs| - 1]);
    }
  }

  /** The mean of n distances that sum to n is 1. */
  lemma MeanOfEqual(total: real, n: nat)
    requires n > 0 && total == n as real
    ensures total / n as real == 1.0
  {
  }

  /** A set has at least two elements exactly when it holds two different ones. */
  lemma TwoElements(t: set<string>)
    ensures |t| >= 2 <==> exists a, b :: a in t && b in t && a != b
  {
    if |t| >= 2 {
      var a :| a in t;
      var rest := t - {a};
      assert |rest| == |t| - 1;
      var b :| b in rest;
      assert a in t && b in t && a != b;
    }
    if exists a, b :: a in t && b in t && a != b {
      var a, b :| a in t && b in t && a != b;
      var rest := t - {a};
      assert b in rest;
      assert |rest| == |t| - 1;
    }
  }

  /** The cohesion score is 1.0 exactly when two different members are keys of the node map, and 0.0 otherwise. */
  lemma CohesionMeaning(members: set<string>, known: set<string>)
    ensures Cohesion(members, known) == 1.0 <==>
      exists a, b :: a in members && a in known && b in members && b in known && a != b
    ensures Cohesion(members, known) == 0.0 || Cohesion(members, known) == 1.0
    ensures members == {} ==> Cohesion(members, known) == 0.0
  {
    var t := members * known;
    TwoElements(t);
    if exists a, b :: a in members && a in known && b in members && b in known && a != b {
      var a, b :| a in members && a in known && b in members && b in known && a != b;
      assert a in t && b in t;
    }
    if |t| >= 2 {
      var a, b :| a in t && b in t && a != b;
      assert a in members && a in known && b in members && b in known;
    }
  }

  /**
   * Among distinct ids, some pair at positions a < b both known exactly
   * when at least two of the ids are known.
   */
  lemma PairsCount(ids: seq<string>, known: set<string>)
    requires Distinct(ids)
    ensures PairBefore(ids, known, |ids|, |ids|) <==> |(set x | x in ids) * known| >= 2
  {
    var t := (set x | x in ids) * known;
    TwoElements(t);
    if PairBefore(ids, known, |ids|, |ids|) {
      var a, b :| KnownPair(ids, known, a, b) && (a < |ids| || (a == |ids| && b < |ids|));
      assert ids[a] in t && ids[b] in t && ids[a] != ids[b];
    }
    if |t| >= 2 {
      var x, y :| x in t && y in t && x != y;
      var a :| 0 <= a < |ids| && ids[a] == x;
      var b :| 0 <= b < |ids| && ids[b] == y;
      if a < b {
        assert KnownPair(ids, known, a, b);
      } else {
        assert KnownPair(ids, known, b, a);
      }
    }
  }

  /** Positions a < b of two ids that are both keys of the node map. */
  predicate KnownPair(ids: seq<string>, known: set<string>, a: int, b: int)
  {
    0 <= a < b < |ids| && ids[a] in known && ids[b] in known
  }

  /** Some known pair comes before position (i, j) in the order the nested loops visit pairs. */
  ghost predicate PairBefore(ids: seq<string>, known: set<string>, i: int, j: int)
  {
    exists a, b :: KnownPair(ids, known, a, b) && (a < i || (a == i && b < j))
  }

  /** Opening row i of the nested loops adds no visited pair. */
  lemma RowStart(ids: seq<string>, known: set<string>, i: int)
    ensures PairBefore(ids, known, i, i + 1) == PairBefore(ids, known, i, i)
  {
  }

  /** One step of the inner loop visits the pair (i, j). */
  lemma PairStep(ids: seq<string>, known: set<string>, i: int, j: int)
    ensures PairBefore(ids, known, i, j + 1) <==> PairBefore(ids, known, i, j) || KnownPair(ids, known, i, j)
  {
    if PairBefore(ids, known, i, j + 1) {
      var a, b :| KnownPair(ids, known, a, b) && (a < i || (a == i && b < j + 1));
      if !(a < i || (a == i && b < j)) {
        assert a == i && b == j;
      }
    }
    if KnownPair(ids, known, i, j) {
      assert KnownPair(ids, known, i, j) && i == i && j < j + 1;
    }
  }

  /** Closing row i of the nested loops: every pair (i, _) has been visited. */
  lemma RowEnd(ids: seq<string>, known: set<string>, i: int)
    ensures PairBefore(ids, known, i, |ids|) == PairBefore(ids, known, i + 1, i + 1)
  {
    if PairBefore(ids, known, i + 1, i + 1) {
      var a, b :| KnownPair(ids, known, a, b) && (a < i + 1 || (a == i + 1 && b < i + 1));
      assert a < i || (a == i && b < |ids|);
    }
  }

  /**
   * The inner loop of `compute_cohesion` for row i: a distance of 1.0 for
   * every later member j such that members i and j are both keys of the map.
   */
  method RowDistances(ids: seq<string>, i: nat, nodes: map<string, Node>, distances: seq<real>)
    returns (distances': seq<real>)
    requires i < |ids| && Ones(distances)
    ensures Ones(distances') && |distances| <= |distances'|
    ensures |distances'| > 0 <==> |distances| > 0 || exists j :: i < j < |ids| && KnownPair(ids, nodes.Keys, i, j)
    ensures (|distances| > 0 <==> PairBefore(ids, nodes.Keys, i, i)) ==>
              (|distances'| > 0 <==> PairBefore(ids, nodes.Keys, i + 1, i + 1))
  {
    distances' := distances;
    RowStart(ids, nodes.Keys, i);
    for j := i + 1 to |ids|
      invariant Ones(distances') && |distances| <= |distances'|
      invariant |distances'| > 0 <==> |distances| > 0 || exists k :: i < k < j && KnownPair(ids, nodes.Keys, i, k)
      invariant (|distances| > 0 <==> PairBefore(ids, nodes.Keys, i, i)) ==>
                  (|distances'| > 0 <==> PairBefore(ids, nodes.Keys, i, j))
    {
      PairStep(ids, nodes.Keys, i, j);
      if exists k :: i < k < j + 1 && KnownPair(ids, nodes.Keys, i, k) {
        var k :| i < k < j + 1 && KnownPair(ids, nodes.Keys, i, k);
        assert k < j || k == j;
      }
      if ids[i] in nodes && ids[j] in nodes {
        assert KnownPair(ids, nodes.Keys, i, j);
        distances' := distances' + [1.0];
      }
    }
    RowEnd(ids, nodes.Keys, i);
  }

  class Cluster {
    const id: string
    const name: string
    const clusterType: ClusterType
    const centroid: Centroid
    var nodeIds: set<string>
    var cohesionScore: real
    var memberCount: nat

    /** The member count is the number of distinct members. */
    ghost predicate Valid()
      reads this
    {
      memberCount == |nodeIds|
    }

    /** `Cluster::new` (the id, a fresh uuid in the source, is passed in): no members, cohesion 0, centroid at the origin. */
    constructor (id: string, name: string, clusterType: ClusterType)
      ensures this.id == id && this.name == name && this.clusterType == clusterType
      ensures nodeIds == {} && memberCount == 0 && cohesionScore == 0.0
      ensures centroid == Centroid(0.0, 0.0, 0.0)
      ensures Valid()
    {
      this.id := id;
      this.name := name;
      this.clusterType := clusterType;
      centroid := Centroid(0.0, 0.0, 0.0);
      nodeIds := {};
      cohesionScore := 0.0;
      memberCount := 0;
    }

    /** `add_node`: insert the id and recount; nothing else changes. */
    method AddNode(nodeId: string)
      modifies this`nodeIds, this`memberCount
      ensures nodeIds == old(nodeIds) + {nodeId}
      ensures Valid()
      ensures nodeId in old(nodeIds) ==> nodeIds == old(nodeIds)
      ensures old(Valid()) ==> memberCount == old(memberCount) + (if nodeId in old(nodeIds) then 0 else 1)
    {
      nodeIds := nodeIds + {nodeId};
      memberCount := |nodeIds|;
    }

    /** `remove_node`: remove the id and recount; an absent id changes no member. */
    method RemoveNode(nodeId: string)
      modifies this`nodeIds, this`memberCount
      ensures nodeIds == old(nodeIds) - {nodeId}
      ensures nodeId !in old(nodeIds) ==> nodeIds == old(nodeIds)
      ensures Valid()
    {
      nodeIds := nodeIds - {nodeId};
      memberCount := |nodeIds|;
    }

    /**
     * `compute_cohesion`: 0.0 for an empty cluster; otherwise record a
     * distance of 1.0 for every pair of members that are both keys of the
     * node map, and take the mean (0.0 when there is no such pair).
     */
    method ComputeCohesion(nodes: map<string, Node>)
      modifies this`cohesionScore
      ensures cohesionScore == Cohesion(nodeIds, nodes.Keys)
    {
      if nodeIds == {} {
        cohesionScore := 0.0;
        return;
      }
      var ids := Collect(nodeIds);
      var distances: seq<real> := [];
      for i := 0 to |ids|
        invariant Ones(distances)
        invariant |distances| > 0 <==> PairBefore(ids, nodes.Keys, i, i)
      {
        distances := RowDistances(ids, i, nodes, distances);
      }
      PairsCount(ids, nodes.Keys);
      if |distances| == 0 {
        cohesionScore := 0.0;
      } else {
        SumOnes(distances);
        MeanOfEqual(Sum(distances), |distances|);
        cohesionScore := Sum(distances) / |distances| as real;
      }
    }
  }

  /** Adding a member twice leaves the same cluster as adding it once. */
  method AddNodeIdempotent(c: Cluster, nodeId: string)
    modifies c
    ensures c.nodeIds == old(c.nodeIds) + {nodeId} && c.Valid()
    ensures c.cohesionScore == old(c.cohesionScore)
  {
    c.AddNode(nodeId);
    ghost var once := c.nodeIds;
    c.AddNode(nodeId);
    assert c.nodeIds == once;
  }
}
