/** The cluster navigator: picks the clusters whose name occurs in the query, and records visited clusters. */
module EngineClusterNavigator {
  import opened Common
  import opened Text
  import opened CoreCluster

  /** The ids of the clusters under `keys`, in that order, whose name occurs in the query. */
  function MatchingIds(clusters: map<string, Cluster>, keys: seq<string>, query: string): (ids: seq<string>)
    requires forall k :: k in keys ==> k in clusters
    ensures |ids| <= |keys|
  {
    if |keys| == 0 then []
    else
      var before := MatchingIds(clusters, keys[..|keys| - 1], query);
      var c := clusters[keys[|keys| - 1]];
      if Contains(query, c.name) then before + [c.id] else before
  }

  /** An id is picked exactly when some listed cluster has it and its name occurs in the query. */
  lemma {:induction false} MatchingIdsMembers(clusters: map<string, Cluster>, keys: seq<string>, query: string, x: string)
    requires forall k :: k in keys ==> k in clusters
    ensures x in MatchingIds(clusters, keys, query) <==>
      exists k :: k in keys && clusters[k].id == x && Contains(query, clusters[k].name)
  {
    if |keys| > 0 {
      var last := keys[|keys| - 1];
      MatchingIdsMembers(clusters, keys[..|keys| - 1], query, x);
      assert keys == keys[..|keys| - 1] + [last];
      if exists k :: k in keys && clusters[k].id == x && Contains(query, clusters[k].name) {
        var k :| k in keys && clusters[k].id == x && Contains(query, clusters[k].name);
        if k != last {
          assert k in keys[..|keys| - 1];
        }
      }
    }
  }

  /** A cluster with an empty name occurs in every query, so it is always picked. */
  lemma EmptyNameAlwaysMatches(clusters: map<string, Cluster>, keys: seq<string>, query: string, k: string)
    requires forall j :: j in keys ==> j in clusters
    requires k in keys && clusters[k].name == ""
    ensures clusters[k].id in MatchingIds(clusters, keys, query)
  {
    ContainsEmpty(query);
    MatchingIdsMembers(clusters, keys, query, clusters[k].id);
  }

  class ClusterNavigator {
    var visitedClusters: seq<string>

    /** `ClusterNavigator::new` (and `Default`): nothing visited. */
    constructor ()
      ensures visitedClusters == []
    {
      visitedClusters := [];
    }

    /**
     * `navigate`: walk the cluster map in its unspecified order and collect
     * the id of every cluster whose name occurs in the query. It always
     * succeeds and changes neither the navigator nor the clusters.
     */
    method Navigate(context: QueryContext, clusters: map<string, Cluster>)
      returns (r: Result<seq<string>>, ghost keys: seq<string>)
      ensures Distinct(keys) && (set k | k in keys) == clusters.Keys
      ensures r == Ok(MatchingIds(clusters, keys, context.query))
      ensures forall x :: x in r.value <==>
        exists k :: k in clusters && clusters[k].id == x && Contains(context.query, clusters[k].name)
    {
      var order := Collect(clusters.Keys);
      keys := order;
      var clusterPath: seq<string> := [];
      for i := 0 to |order|
        invariant clusterPath == MatchingIds(clusters, order[..i], context.query)
      {
        var cluster := clusters[order[i]];
        assert order[..i + 1][..i] == order[..i];
        if Contains(context.query, cluster.name) {
          clusterPath := clusterPath + [cluster.id];
        }
      }
      assert order[..|order|] == order;
      r := Ok(clusterPath);
      forall x
        ensures x in r.value <==>
          exists k :: k in clusters && clusters[k].id == x && Contains(context.query, clusters[k].name)
      {
        MatchingIdsMembers(clusters, keys, context.query, x);
      }
    }

    /** `mark_visited`: append the id, keeping earlier visits and allowing repeats. */
    method MarkVisited(clusterId: string)
      modifies this`visitedClusters
      ensures visitedClusters == old(visitedClusters) + [clusterId]
    {
      visitedClusters := visitedClusters + [clusterId];
    }
  }
}
