/**
 * The breadth-first walk the path resolver performs, as values: the levels
 * of ids reachable from the start ids through parent links, and the shape of
 * the queue and the path after every turn of the loop.
 */
module PathWalk {
  import opened Common
  import opened Text

  /** The three fields of a node the walk reads. */
  datatype Link = Link(id: string, name: string, parent: Option<string>)

  /** Ids of the start nodes: the nodes whose name occurs in the query, in input order. */
  function StartIds(query: string, links: seq<Link>): seq<string>
  {
    if |links| == 0 then []
    else
      var last := links[|links| - 1];
      StartIds(query, links[..|links| - 1]) + (if Contains(query, last.name) then [last.id] else [])
  }

  /** Ids of the nodes whose parent is `id`, in input order. */
  function ChildIds(links: seq<Link>, id: string): seq<string>
  {
    if |links| == 0 then []
    else
      var last := links[|links| - 1];
      ChildIds(links[..|links| - 1], id) + (if last.parent == Some(id) then [last.id] else [])
  }

  /** The children of every id in `ids`, grouped by parent in the order of `ids`. */
  function ChildrenOf(links: seq<Link>, ids: seq<string>): seq<string>
  {
    if |ids| == 0 then []
    else ChildrenOf(links, ids[..|ids| - 1]) + ChildIds(links, ids[|ids| - 1])
  }

  /** The ids the walk reaches at depth `d` from the start ids, in the order it dequeues them. */
  function Level(start: seq<string>, links: seq<Link>, d: nat): seq<string>
  {
    if d == 0 then start else ChildrenOf(links, Level(start, links, d - 1))
  }

  /** Pairs every id with a depth. */
  function Tag(ids: seq<string>, d: nat): (t: seq<(string, nat)>)
    ensures |t| == |ids|
    ensures forall i :: 0 <= i < |ids| ==> t[i] == (ids[i], d)
  {
    seq(|ids|, i requires 0 <= i < |ids| => (ids[i], d))
  }

  /** Drops the depths. */
  function Ids(t: seq<(string, nat)>): (ids: seq<string>)
    ensures |ids| == |t|
    ensures forall i :: 0 <= i < |t| ==> ids[i] == t[i].0
  {
    seq(|t|, i requires 0 <= i < |t| => t[i].0)
  }

  /** Levels 0 to n - 1, each id with its depth. */
  function Walk(start: seq<string>, links: seq<Link>, n: nat): seq<(string, nat)>
  {
    if n == 0 then [] else Walk(start, links, n - 1) + Tag(Level(start, links, n - 1), n - 1)
  }

  /** What `resolve` emits when the walk stops below `maxDepth`: every level from 0 to `maxDepth`, each id with its depth. */
  function Resolution(query: string, links: seq<Link>, maxDepth: nat): seq<(string, nat)>
  {
    Walk(StartIds(query, links), links, maxDepth + 1)
  }

  lemma TagAppend(a: seq<string>, b: seq<string>, d: nat)
    ensures Tag(a + b, d) == Tag(a, d) + Tag(b, d)
  {
  }

  lemma IdsTag(ids: seq<string>, d: nat)
    ensures Ids(Tag(ids, d)) == ids
  {
  }

  lemma IdsAppend(a: seq<(string, nat)>, b: seq<(string, nat)>)
    ensures Ids(a + b) == Ids(a) + Ids(b)
  {
  }

  lemma IdsWalkStep(start: seq<string>, links: seq<Link>, n: nat)
    ensures Ids(Walk(start, links, n + 1)) == Ids(Walk(start, links, n)) + Level(start, links, n)
  {
    IdsAppend(Walk(start, links, n), Tag(Level(start, links, n), n));
    IdsTag(Level(start, links, n), n);
  }

  lemma ChildrenOfEmpty(links: seq<Link>)
    ensures ChildrenOf(links, []) == []
  {
  }

  /** Once a level is empty, every deeper level is empty. */
  lemma {:induction false} EmptyLevelStaysEmpty(start: seq<string>, links: seq<Link>, d: nat, e: nat)
    requires Level(start, links, d) == [] && d <= e
    ensures Level(start, links, e) == []
    decreases e - d
  {
    if d < e {
      EmptyLevelStaysEmpty(start, links, d, e - 1);
    }
  }

  /** Past an empty level the walk gains nothing. */
  lemma {:induction false} WalkStopsAtEmptyLevel(start: seq<string>, links: seq<Link>, d: nat, n: nat)
    requires Level(start, links, d) == [] && d <= n
    ensures Walk(start, links, n) == Walk(start, links, d)
    decreases n - d
  {
    if d < n {
      WalkStopsAtEmptyLevel(start, links, d, n - 1);
      EmptyLevelStaysEmpty(start, links, d, n - 1);
      assert Tag(Level(start, links, n - 1), n - 1) == [];
    }
  }

  /** Taking one more id of a level adds that id's children at the end. */
  lemma ChildrenOfStep(links: seq<Link>, ids: seq<string>, k: nat)
    requires k < |ids|
    ensures ChildrenOf(links, ids[..k + 1]) == ChildrenOf(links, ids[..k]) + ChildIds(links, ids[k])
  {
    assert ids[..k + 1][..k] == ids[..k];
  }

  lemma PrefixStep(s: seq<string>, k: nat)
    requires k < |s|
    ensures s[..k + 1] == s[..k] + [s[k]]
  {
  }

  /** Dequeuing from the queue shape the walk keeps yields the next id of the current level. */
  lemma PopFront(level: seq<string>, k: nat, d: nat, next: seq<string>)
    requires k < |level|
    ensures (Tag(level[k..], d) + Tag(next, d + 1))[0] == (level[k], d)
    ensures (Tag(level[k..], d) + Tag(next, d + 1))[1..] == Tag(level[k + 1..], d) + Tag(next, d + 1)
  {
    assert Tag(level[k..], d)[1..] == Tag(level[k + 1..], d);
  }

  /**
   * Where the walk stands: the queue holds the ids of level d from index k on
   * (at depth d), then the children of the first k ids of level d (at depth
   * d + 1); the path holds levels 0 to d - 1 and the first k ids of level d.
   */
  ghost predicate WalkState(
    start: seq<string>, links: seq<Link>, d: nat, k: nat, next: seq<string>,
    queue: seq<(string, nat)>, path: seq<string>)
  {
    && k <= |Level(start, links, d)|
    && next == ChildrenOf(links, Level(start, links, d)[..k])
    && queue == Tag(Level(start, links, d)[k..], d) + Tag(next, d + 1)
    && path == Ids(Walk(start, links, d)) + Level(start, links, d)[..k]
  }

  lemma StartState(start: seq<string>, links: seq<Link>, queue: seq<(string, nat)>)
    requires queue == Tag(start, 0)
    ensures WalkState(start, links, 0, 0, [], queue, [])
  {
    assert Level(start, links, 0)[0..] == Level(start, links, 0);
  }

  /** When level d is used up, the queue holds exactly level d + 1. */
  lemma NextLevel(
    start: seq<string>, links: seq<Link>, d: nat, next: seq<string>,
    queue: seq<(string, nat)>, path: seq<string>)
    requires WalkState(start, links, d, |Level(start, links, d)|, next, queue, path)
    ensures WalkState(start, links, d + 1, 0, [], queue, path)
  {
    var level := Level(start, links, d);
    IdsWalkStep(start, links, d);
    assert level[..|level|] == level;
    assert Tag(level[|level|..], d) == [];
    assert Level(start, links, d + 1)[0..] == Level(start, links, d + 1);
  }

  /**
   * A non-empty queue always has a next id: in level d, or, once level d is
   * used up, at the head of level d + 1.
   */
  lemma NextPosition(
    start: seq<string>, links: seq<Link>, d: nat, k: nat, next: seq<string>,
    queue: seq<(string, nat)>, path: seq<string>)
    returns (d': nat, k': nat, next': seq<string>)
    requires WalkState(start, links, d, k, next, queue, path) && queue != []
    ensures WalkState(start, links, d', k', next', queue, path)
    ensures k' < |Level(start, links, d')|
    ensures (d' == d && k' == k) || (d' == d + 1 && k' == 0)
  {
    if k == |Level(start, links, d)| {
      NextLevel(start, links, d, next, queue, path);
      d', k', next' := d + 1, 0, [];
      assert queue == Tag(Level(start, links, d')[0..], d') + Tag([], d' + 1);
    } else {
      d', k', next' := d, k, next;
    }
  }

  /** The head of the queue is the next id of level d, at depth d. */
  lemma Head(
    start: seq<string>, links: seq<Link>, d: nat, k: nat, next: seq<string>,
    queue: seq<(string, nat)>, path: seq<string>)
    requires WalkState(start, links, d, k, next, queue, path)
    requires k < |Level(start, links, d)|
    ensures queue != [] && queue[0] == (Level(start, links, d)[k], d)
  {
    PopFront(Level(start, links, d), k, d, next);
  }

  /** The queue after dequeuing id k of a level and enqueuing its children. */
  lemma QueueStep(
    level: seq<string>, k: nat, d: nat, next: seq<string>, kids: seq<string>,
    queue: seq<(string, nat)>, queue': seq<(string, nat)>)
    requires k < |level| && queue == Tag(level[k..], d) + Tag(next, d + 1)
    requires queue' == queue[1..] + Tag(kids, d + 1)
    ensures queue' == Tag(level[k + 1..], d) + Tag(next + kids, d + 1)
  {
    PopFront(level, k, d, next);
    TagAppend(next, kids, d + 1);
  }

  /** The path after emitting id k of a level. */
  lemma PathStep(walked: seq<string>, level: seq<string>, k: nat, path: seq<string>, path': seq<string>)
    requires k < |level| && path == walked + level[..k]
    requires path' == path + [level[k]]
    ensures path' == walked + level[..k + 1]
  {
    PrefixStep(level, k);
  }

  /** Dequeuing the next id of level d, emitting it and enqueuing its children one level deeper. */
  lemma Emit(
    start: seq<string>, links: seq<Link>, d: nat, k: nat, next: seq<string>,
    queue: seq<(string, nat)>, path: seq<string>, queue': seq<(string, nat)>, path': seq<string>)
    requires WalkState(start, links, d, k, next, queue, path)
    requires k < |Level(start, links, d)| && queue != [] && queue[0] == (Level(start, links, d)[k], d)
    requires queue' == queue[1..] + Tag(ChildIds(links, queue[0].0), d + 1)
    requires path' == path + [queue[0].0]
    ensures WalkState(start, links, d, k + 1, next + ChildIds(links, queue[0].0), queue', path')
  {
    var level := Level(start, links, d);
    ChildrenOfStep(links, level, k);
    QueueStep(level, k, d, next, ChildIds(links, level[k]), queue, queue');
    PathStep(Ids(Walk(start, links, d)), level, k, path, path');
  }

  /** At the first entry deeper than maxDepth, the path holds levels 0 to maxDepth. */
  lemma CutOff(start: seq<string>, links: seq<Link>, d: nat, path: seq<string>, maxDepth: nat)
    requires d == maxDepth + 1
    requires path == Ids(Walk(start, links, d)) + Level(start, links, d)[..0]
    ensures path == Ids(Walk(start, links, maxDepth + 1))
  {
    assert Level(start, links, d)[..0] == [];
  }

  /** The walk's shape at the start of level maxDepth + 1: the path holds levels 0 to maxDepth. */
  lemma CutOffState(
    start: seq<string>, links: seq<Link>, d: nat, k: nat, next: seq<string>,
    queue: seq<(string, nat)>, path: seq<string>, maxDepth: nat)
    requires WalkState(start, links, d, k, next, queue, path) && d == maxDepth + 1 && k == 0
    ensures path == Ids(Walk(start, links, maxDepth + 1))
  {
    CutOff(start, links, d, path, maxDepth);
  }

  /** An empty queue means the walk reached an empty level: the path holds every level. */
  lemma Exhausted(
    start: seq<string>, links: seq<Link>, d: nat, k: nat, next: seq<string>,
    path: seq<string>, maxDepth: nat)
    requires WalkState(start, links, d, k, next, [], path) && d <= maxDepth
    ensures path == Ids(Walk(start, links, maxDepth + 1))
  {
    var level := Level(start, links, d);
    assert k == |level| && next == [] by {
      assert |Tag(level[k..], d)| + |Tag(next, d + 1)| == 0;
    }
    assert level[..k] == level;
    assert path == Ids(Walk(start, links, d + 1)) by {
      IdsWalkStep(start, links, d);
    }
    assert Level(start, links, d + 1) == [];
    WalkStopsAtEmptyLevel(start, links, d + 1, maxDepth + 1);
  }

  /**
   * The ghost side of one turn of the walk's loop. The head of a non-empty
   * queue is the next id of the current level, or the first id of the next
   * level. If it lies deeper than maxDepth the path is complete; otherwise
   * emitting it and enqueuing its children one level deeper (giving `queue'`
   * and `path'`) keeps the walk's shape, one position further on.
   */
  lemma Step(
    start: seq<string>, links: seq<Link>, maxDepth: nat, d: nat, k: nat, next: seq<string>,
    queue: seq<(string, nat)>, path: seq<string>, queue': seq<(string, nat)>, path': seq<string>)
    returns (d': nat, k': nat, next': seq<string>)
    requires WalkState(start, links, d, k, next, queue, path) && queue != [] && d <= maxDepth
    requires queue[0].1 <= maxDepth ==>
      queue' == queue[1..] + Tag(ChildIds(links, queue[0].0), queue[0].1 + 1) && path' == path + [queue[0].0]
    ensures queue[0].1 > maxDepth ==> path == Ids(Walk(start, links, maxDepth + 1))
    ensures queue[0].1 <= maxDepth ==> WalkState(start, links, d', k', next', queue', path') && d' <= maxDepth
    ensures (d' == d && k' == k + 1) || (d' == d + 1 && k' == 1)
  {
    var pk, pnext;
    d', pk, pnext := NextPosition(start, links, d, k, next, queue, path);
    k', next' := pk + 1, pnext + ChildIds(links, queue[0].0);
    Head(start, links, d', pk, pnext, queue, path);
    if d' > maxDepth {
      CutOffState(start, links, d', pk, pnext, queue, path, maxDepth);
    } else {
      Emit(start, links, d', pk, pnext, queue, path, queue', path');
    }
  }

  // Properties of the walk's result.

  /** The start ids are exactly the ids of the links whose name occurs in the query. */
  lemma {:induction false} StartIdsMembers(query: string, links: seq<Link>)
    ensures forall x :: x in StartIds(query, links) <==> exists l :: l in links && l.id == x && Contains(query, l.name)
    decreases |links|
  {
    if |links| > 0 {
      var init, last := links[..|links| - 1], links[|links| - 1];
      StartIdsMembers(query, init);
      assert links == init + [last];
    }
  }

  /** The child ids of `p` are exactly the ids of the links whose parent is `p`. */
  lemma {:induction false} ChildIdsMembers(links: seq<Link>, p: string)
    ensures forall x :: x in ChildIds(links, p) <==> exists l :: l in links && l.id == x && l.parent == Some(p)
    decreases |links|
  {
    if |links| > 0 {
      var init, last := links[..|links| - 1], links[|links| - 1];
      ChildIdsMembers(init, p);
      assert links == init + [last];
    }
  }

  /** The children of a list of ids are the children of its members. */
  lemma {:induction false} ChildrenOfMembers(links: seq<Link>, ids: seq<string>)
    ensures forall x :: x in ChildrenOf(links, ids) <==> exists p :: p in ids && x in ChildIds(links, p)
    decreases |ids|
  {
    if |ids| > 0 {
      var init, last := ids[..|ids| - 1], ids[|ids| - 1];
      ChildrenOfMembers(links, init);
      assert ids == init + [last];
      forall x
        ensures x in ChildrenOf(links, ids) <==> exists p :: p in ids && x in ChildIds(links, p)
      {
        if x in ChildrenOf(links, ids) {
          if x in ChildrenOf(links, init) {
            var p :| p in init && x in ChildIds(links, p);
            assert p in ids;
          } else {
            assert last in ids;
          }
        }
        if exists p :: p in ids && x in ChildIds(links, p) {
          var p :| p in ids && x in ChildIds(links, p);
          if p != last {
            assert p in init;
          }
        }
      }
    }
  }

  lemma TagMembers(ids: seq<string>, e: nat, x: string, d: nat)
    ensures (x, d) in Tag(ids, e) <==> d == e && x in ids
  {
    if x in ids && d == e {
      var i :| 0 <= i < |ids| && ids[i] == x;
      assert Tag(ids, e)[i] == (x, d);
    }
  }

  /** An id occurs at depth d in the first n levels exactly when d < n and it belongs to level d. */
  lemma {:induction false} WalkMembers(start: seq<string>, links: seq<Link>, n: nat, x: string, d: nat)
    ensures (x, d) in Walk(start, links, n) <==> d < n && x in Level(start, links, d)
  {
    if n > 0 {
      WalkLastLevel(start, links, n - 1, x, d);
      WalkMembers(start, links, n - 1, x, d);
    }
  }

  /** One more level adds exactly the pairs of that level's ids with its depth. */
  lemma WalkLastLevel(start: seq<string>, links: seq<Link>, e: nat, x: string, d: nat)
    ensures (x, d) in Walk(start, links, e + 1) <==> (x, d) in Walk(start, links, e) || (d == e && x in Level(start, links, e))
  {
    var w, t := Walk(start, links, e), Tag(Level(start, links, e), e);
    assert Walk(start, links, e + 1) == w + t;
    assert (x, d) in w + t <==> (x, d) in w || (x, d) in t;
    TagMembers(Level(start, links, e), e, x, d);
  }

  /** The depths along the first n levels never decrease and stay below n. */
  lemma {:induction false} WalkDepthsSorted(start: seq<string>, links: seq<Link>, n: nat)
    ensures forall i, j :: 0 <= i <= j < |Walk(start, links, n)| ==> Walk(start, links, n)[i].1 <= Walk(start, links, n)[j].1
    ensures forall i :: 0 <= i < |Walk(start, links, n)| ==> Walk(start, links, n)[i].1 < n
  {
    if n > 0 {
      WalkDepthsSorted(start, links, n - 1);
    }
  }

  /** The walk over fewer levels is a prefix of the walk over more. */
  lemma {:induction false} WalkPrefix(start: seq<string>, links: seq<Link>, m: nat, n: nat)
    requires m <= n
    ensures |Walk(start, links, m)| <= |Walk(start, links, n)|
    ensures Walk(start, links, n)[..|Walk(start, links, m)|] == Walk(start, links, m)
    decreases n - m
  {
    if m < n {
      WalkPrefix(start, links, m, n - 1);
      var w := Walk(start, links, n - 1);
      assert Walk(start, links, n)[..|w|] == w;
    }
  }

  /** An id at depth d is emitted exactly when d is at most maxDepth and the id lies on level d. */
  lemma ResolutionMembers(query: string, links: seq<Link>, maxDepth: nat, x: string, d: nat)
    ensures (x, d) in Resolution(query, links, maxDepth) <==> d <= maxDepth && x in Level(StartIds(query, links), links, d)
  {
    WalkMembers(StartIds(query, links), links, maxDepth + 1, x, d);
  }

  /** Every emitted id is the id of some input link. */
  lemma ResolvedIdsAreLinkIds(query: string, links: seq<Link>, maxDepth: nat)
    ensures forall x :: x in Ids(Resolution(query, links, maxDepth)) ==> exists l :: l in links && l.id == x
  {
    var r := Resolution(query, links, maxDepth);
    forall x | x in Ids(r)
      ensures exists l :: l in links && l.id == x
    {
      var i :| 0 <= i < |r| && Ids(r)[i] == x;
      assert r[i] == (x, r[i].1);
      var l := EmittedLink(query, links, maxDepth, x, r[i].1);
    }
  }

  /** The link behind an id emitted at depth d. */
  lemma EmittedLink(query: string, links: seq<Link>, maxDepth: nat, x: string, d: nat) returns (l: Link)
    requires (x, d) in Resolution(query, links, maxDepth)
    ensures l in links && l.id == x
  {
    var start := StartIds(query, links);
    ResolutionMembers(query, links, maxDepth, x, d);
    if d == 0 {
      StartIdsMembers(query, links);
      l :| l in links && l.id == x && Contains(query, l.name);
    } else {
      var p;
      p, l := LevelParent(start, links, d, x);
    }
  }

  /** Depths along the result never decrease, and none exceeds maxDepth. */
  lemma ResolutionDepths(query: string, links: seq<Link>, maxDepth: nat)
    ensures forall i, j :: 0 <= i <= j < |Resolution(query, links, maxDepth)| ==>
      Resolution(query, links, maxDepth)[i].1 <= Resolution(query, links, maxDepth)[j].1
    ensures forall i :: 0 <= i < |Resolution(query, links, maxDepth)| ==> Resolution(query, links, maxDepth)[i].1 <= maxDepth
  {
    WalkDepthsSorted(StartIds(query, links), links, maxDepth + 1);
  }

  /** The result opens with the start ids, in input order, all at depth 0. */
  lemma ResolutionStartsWithStartIds(query: string, links: seq<Link>, maxDepth: nat)
    ensures |StartIds(query, links)| <= |Resolution(query, links, maxDepth)|
    ensures Resolution(query, links, maxDepth)[..|StartIds(query, links)|] == Tag(StartIds(query, links), 0)
  {
    var start := StartIds(query, links);
    WalkPrefix(start, links, 1, maxDepth + 1);
    assert Walk(start, links, 1) == Tag(start, 0);
  }

  /** The result is empty exactly when no link's name occurs in the query. */
  lemma ResolutionEmpty(query: string, links: seq<Link>, maxDepth: nat)
    ensures Resolution(query, links, maxDepth) == [] <==> forall l :: l in links ==> !Contains(query, l.name)
  {
    var start := StartIds(query, links);
    StartIdsMembers(query, links);
    if start == [] {
      WalkStopsAtEmptyLevel(start, links, 0, maxDepth + 1);
      forall l | l in links
        ensures !Contains(query, l.name)
      {
        assert l.id !in start;
      }
    } else {
      ResolutionStartsWithStartIds(query, links, maxDepth);
      assert start[0] in start;
      var l :| l in links && l.id == start[0] && Contains(query, l.name);
    }
  }

  /** A link with an empty name is always a start node: it is emitted at depth 0. */
  lemma EmptyNameIsEmitted(query: string, links: seq<Link>, maxDepth: nat, l: Link)
    requires l in links && l.name == ""
    ensures (l.id, 0) in Resolution(query, links, maxDepth)
  {
    ContainsEmpty(query);
    StartIdsMembers(query, links);
    ResolutionMembers(query, links, maxDepth, l.id, 0);
  }

  /** Every id on level d > 0 is the id of a link whose parent lies on level d - 1. */
  lemma LevelParent(start: seq<string>, links: seq<Link>, d: nat, x: string) returns (p: string, l: Link)
    requires d > 0 && x in Level(start, links, d)
    ensures p in Level(start, links, d - 1) && l in links && l.id == x && l.parent == Some(p)
  {
    var above := Level(start, links, d - 1);
    ChildrenOfMembers(links, above);
    p :| p in above && x in ChildIds(links, p);
    ChildIdsMembers(links, p);
    l :| l in links && l.id == x && l.parent == Some(p);
  }

  /**
   * An id emitted at depth e + 1 belongs to a link whose parent is an id
   * emitted at depth e.
   */
  lemma ResolutionParent(query: string, links: seq<Link>, maxDepth: nat, x: string, e: nat)
    returns (p: string, l: Link)
    requires (x, e + 1) in Resolution(query, links, maxDepth)
    ensures (p, e) in Resolution(query, links, maxDepth)
    ensures l in links && l.id == x && l.parent == Some(p)
  {
    ResolutionMembers(query, links, maxDepth, x, e + 1);
    p, l := LevelParent(StartIds(query, links), links, e + 1, x);
    ResolutionMembers(query, links, maxDepth, p, e);
  }

  /** Two links: a at the root and b below a. */
  function TwoLinks(): seq<Link>
  {
    [Link("a", "a", None), Link("b", "b", Some("a"))]
  }

  /** The query "ab" names both nodes, so the walk starts from a and b. */
  lemma TwoLinksStart()
    ensures StartIds("ab", TwoLinks()) == ["a", "b"]
  {
    var links := TwoLinks();
    ContainsAt("ab", "a", 0);
    ContainsAt("ab", "b", 1);
    assert links[..1][..0] == [];
  }

  /** b is the one child of a, and b has none. */
  lemma TwoLinksChildren()
    ensures ChildIds(TwoLinks(), "a") == ["b"]
    ensures ChildIds(TwoLinks(), "b") == []
  {
    assert TwoLinks()[..1][..0] == [];
  }

  /** The levels of the walk over `TwoLinks` for the query "ab": a and b, then b again, then nothing. */
  lemma TwoLinksLevels()
    ensures StartIds("ab", TwoLinks()) == ["a", "b"]
    ensures Level(["a", "b"], TwoLinks(), 1) == ["b"]
    ensures Level(["a", "b"], TwoLinks(), 2) == []
  {
    TwoLinksStart();
    TwoLinksChildren();
    var links := TwoLinks();
    assert ["a", "b"][..1] == ["a"] && ["a"][..0] == [];
    assert ChildrenOf(links, ["a"]) == ["b"];
    assert Level(["a", "b"], links, 1) == ["b"];
    assert ["b"][..0] == [];
  }

  /**
   * There is no visited set: with nodes a and b, b a child of a, and a query
   * naming both, b is emitted twice, once as a start node and once as a's child.
   */
  lemma RepeatedRoute(maxDepth: nat)
    requires maxDepth >= 1
    ensures Ids(Resolution("ab", TwoLinks(), maxDepth)) == ["a", "b", "b"]
  {
    TwoLinksLevels();
    ResolutionOfTwoLevels("ab", TwoLinks(), maxDepth, ["a", "b"]);
    TwoLinksWalk();
  }

  /** When the start ids have no grandchildren, any depth of at least 1 gives the first two levels. */
  lemma ResolutionOfTwoLevels(query: string, links: seq<Link>, maxDepth: nat, start: seq<string>)
    requires maxDepth >= 1 && StartIds(query, links) == start && Level(start, links, 2) == []
    ensures Resolution(query, links, maxDepth) == Walk(start, links, 2)
  {
    WalkStopsAtEmptyLevel(start, links, 2, maxDepth + 1);
  }

  /** The first two levels from a and b emit a, b and then b again. */
  lemma TwoLinksWalk()
    ensures Ids(Walk(["a", "b"], TwoLinks(), 2)) == ["a", "b", "b"]
  {
    var links := TwoLinks();
    var start := ["a", "b"];
    assert Level(start, links, 1) == ["b"] by {
      TwoLinksLevels();
    }
    assert Ids(Walk(start, links, 1)) == ["a", "b"] by {
      IdsWalkStep(start, links, 0);
    }
    IdsWalkStep(start, links, 1);
  }
}
