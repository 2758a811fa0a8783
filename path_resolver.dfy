/**
 * The path resolver: a breadth-first walk down `parent_id` links, seeded by
 * the nodes whose name occurs in the query and cut off below `max_depth`.
 * There is no visited set: a node is emitted once for every route to it.
 */
module EnginePathResolver {
  import opened Common
  import opened Text
  import opened CoreNode

  import opened PathWalk

  function Links(nodes: seq<Node>): (links: seq<Link>)
    reads set n | n in nodes
    ensures |links| == |nodes|
    ensures forall i :: 0 <= i < |nodes| ==> links[i] == Link(nodes[i].id, nodes[i].name, nodes[i].parentId)
  {
    seq(|nodes|, i reads set n | n in nodes requires 0 <= i < |nodes| => Link(nodes[i].id, nodes[i].name, nodes[i].parentId))
  }

  /** The queue before the walk: every start node's id at depth 0, in input order. */
  method StartQueue(query: string, links: seq<Link>) returns (queue: seq<(string, nat)>)
    ensures queue == Tag(StartIds(query, links), 0)
  {
    queue := [];
    for i := 0 to |links|
      invariant queue == Tag(StartIds(query, links[..i]), 0)
    {
      assert links[..i + 1][..i] == links[..i];
      if Contains(query, links[i].name) {
        queue := queue + [(links[i].id, 0)];
      }
    }
    assert links[..|links|] == links;
  }

  /** The inner loop of the walk: enqueue every node whose parent is `id`, in input order, at `depth`. */
  method EnqueueChildren(links: seq<Link>, id: string, depth: nat, queue: seq<(string, nat)>)
    returns (queue': seq<(string, nat)>)
    ensures queue' == queue + Tag(ChildIds(links, id), depth)
  {
    queue' := queue;
    for j := 0 to |links|
      invariant queue' == queue + Tag(ChildIds(links[..j], id), depth)
    {
      assert links[..j + 1][..j] == links[..j];
      if links[j].parent == Some(id) {
        queue' := queue' + [(links[j].id, depth)];
      }
    }
    assert links[..|links|] == links;
  }

  datatype PathResolver = PathResolver(maxDepth: nat)
  {
    /**
     * `resolve`: enqueue the start nodes at depth 0; then repeatedly dequeue,
     * stop at the first entry deeper than `maxDepth`, emit its id and enqueue
     * every node whose parent it is, one level deeper. It always succeeds.
     */
    method Resolve(context: QueryContext, nodes: seq<Node>) returns (r: Result<seq<string>>)
      ensures r == Ok(Ids(Resolution(context.query, Links(nodes), maxDepth)))
    {
      var links := Links(nodes);
      var queue := StartQueue(context.query, links);
      var path: seq<string> := [];
      ghost var start := StartIds(context.query, links);
      ghost var d: nat, k: nat, next: seq<string> := 0, 0, [];
      StartState(start, links, queue);
      ghost var cut := false;
      while queue != []
        invariant d <= maxDepth && WalkState(start, links, d, k, next, queue, path)
        decreases maxDepth - d, |Level(start, links, d)| - k
      {
        ghost var queue0, path0 := queue, path;
        var id, depth := queue[0].0, queue[0].1;
        queue := queue[1..];
        if depth > maxDepth {
          // Levels 0 to maxDepth are all out: the path is complete.
          ghost var _, _, _ := Step(start, links, maxDepth, d, k, next, queue0, path0, queue, path);
          cut := true;
          break;
        }
        path := path + [id];
        queue := EnqueueChildren(links, id, depth + 1, queue);
        d, k, next := Step(start, links, maxDepth, d, k, next, queue0, path0, queue, path);
      }
      if !cut {
        Exhausted(start, links, d, k, next, path, maxDepth);
      }
      r := Ok(path);
    }
  }

  /** `PathResolver::new`: the walk stops below depth 32. */
  function NewResolver(): (p: PathResolver)
    ensures p.maxDepth == 32
  {
    PathResolver(32)
  }

  /** Every id `resolve` emits is the id of one of the input nodes. */
  lemma ResolvedIdsAreNodeIds(query: string, nodes: seq<Node>, maxDepth: nat)
    ensures forall x :: x in Ids(Resolution(query, Links(nodes), maxDepth)) ==>
      exists i :: 0 <= i < |nodes| && nodes[i].id == x
  {
    var links := Links(nodes);
    ResolvedIdsAreLinkIds(query, links, maxDepth);
    forall x | x in Ids(Resolution(query, links, maxDepth))
      ensures exists i :: 0 <= i < |nodes| && nodes[i].id == x
    {
      var l :| l in links && l.id == x;
      var i :| 0 <= i < |links| && links[i] == l;
      assert nodes[i].id == x;
    }
  }
}
