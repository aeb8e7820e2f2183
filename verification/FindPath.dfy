/** Shortest path between two symbols: a breadth-first search whose queue
    carries whole paths and which marks a node visited only when dequeued. */
module FindPath {
  import opened Wrappers
  import opened CodeGraph
  import opened Reach

  /** One element of a path; the first has no edge. */
  datatype PathStep = PathStep(node: Node, edge: Option<Edge>)

  /** `b` continues a path after `a` along an allowed edge of the graph. */
  ghost predicate Follows(g: Graph, kinds: set<EdgeKind>, a: PathStep, b: PathStep) {
    && b.edge.Some?
    && b.edge.value in g.edges && KindAllowed(kinds, b.edge.value.kind)
    && b.edge.value.source == a.node.id && b.edge.value.target == b.node.id
    && b.node.id in g.nodes && g.nodes[b.node.id] == b.node
  }

  /** The start alone, or a shorter path continued by one step. */
  ghost predicate PathFrom(g: Graph, kinds: set<EdgeKind>, fromId: Id, p: seq<PathStep>)
    decreases |p|
  {
    && |p| > 0
    && if |p| == 1 then fromId in g.nodes && p[0] == PathStep(g.nodes[fromId], None)
       else PathFrom(g, kinds, fromId, p[..|p| - 1]) && Follows(g, kinds, p[|p| - 2], p[|p| - 1])
  }

  ghost predicate IsPath(g: Graph, kinds: set<EdgeKind>, fromId: Id, toId: Id, p: seq<PathStep>) {
    PathFrom(g, kinds, fromId, p) && p[|p| - 1].node.id == toId
  }

  ghost predicate Hop(g: Graph, kinds: set<EdgeKind>, a: Id, b: Id) {
    b in g.nodes && exists e :: e in g.edges && e.source == a && e.target == b && KindAllowed(kinds, e.kind)
  }

  ghost function Hops(g: Graph, kinds: set<EdgeKind>): (Id, Id) -> bool {
    (a, b) => Hop(g, kinds, a, b)
  }

  lemma {:induction false} PathIsWalk(g: Graph, kinds: set<EdgeKind>, fromId: Id, toId: Id, p: seq<PathStep>)
    requires IsPath(g, kinds, fromId, toId, p)
    ensures |p| > 0 && ReachIn(Hops(g, kinds), fromId, toId, |p| - 1)
    decreases |p|
  {
    if |p| > 1 {
      var q := p[..|p| - 1];
      var mid := q[|q| - 1].node.id;
      PathIsWalk(g, kinds, fromId, mid, q);
      assert Hops(g, kinds)(mid, toId);
      ReachExtend(Hops(g, kinds), fromId, mid, toId, |p| - 2);
    }
  }

  lemma {:induction false} PathEnds(g: Graph, kinds: set<EdgeKind>, fromId: Id, toId: Id, p: seq<PathStep>)
    requires IsPath(g, kinds, fromId, toId, p)
    ensures fromId in g.nodes && toId in g.nodes
    decreases |p|
  {
    if |p| > 1 {
      PathEnds(g, kinds, fromId, p[|p| - 2].node.id, p[..|p| - 1]);
    }
  }

  lemma PathExtend(g: Graph, kinds: set<EdgeKind>, fromId: Id, midId: Id, p: seq<PathStep>, s: PathStep)
    requires IsPath(g, kinds, fromId, midId, p) && Follows(g, kinds, p[|p| - 1], s)
    ensures IsPath(g, kinds, fromId, s.node.id, p + [s])
  {
    assert (p + [s])[..|p|] == p;
  }

  datatype QueueItem = QueueItem(nodeId: Id, path: seq<PathStep>)

  /** The ghost queue of `Reach.Frontier` that goes with the real one. */
  ghost predicate Mirrors(g: Graph, kinds: set<EdgeKind>, fromId: Id, queue: seq<QueueItem>, dist: seq<(Id, nat)>) {
    && |queue| == |dist|
    && forall i {:trigger queue[i]} {:trigger dist[i]} :: 0 <= i < |queue| ==>
         && queue[i].nodeId in g.nodes
         && IsPath(g, kinds, fromId, queue[i].nodeId, queue[i].path)
         && dist[i] == (queue[i].nodeId, |queue[i].path| - 1)
  }

  lemma MirrorsPush(
    g: Graph, kinds: set<EdgeKind>, fromId: Id, queue: seq<QueueItem>, dist: seq<(Id, nat)>,
    midId: Id, path: seq<PathStep>, s: PathStep)
    requires Mirrors(g, kinds, fromId, queue, dist)
    requires IsPath(g, kinds, fromId, midId, path) && Follows(g, kinds, path[|path| - 1], s)
    ensures Mirrors(g, kinds, fromId, queue + [QueueItem(s.node.id, path + [s])], dist + [(s.node.id, |path|)])
  {
    PathExtend(g, kinds, fromId, midId, path, s);
  }

  lemma NothingFound(g: Graph, kinds: set<EdgeKind>, fromId: Id)
    ensures Mirrors(g, kinds, fromId, [], [])
  {
  }

  /** What one visit finds. */
  ghost predicate Found(
    g: Graph, kinds: set<EdgeKind>, fromId: Id, item: QueueItem, visited: set<Id>,
    found: seq<QueueItem>, extra: seq<(Id, nat)>)
  {
    && Mirrors(g, kinds, fromId, found, extra)
    && (forall j :: 0 <= j < |extra| ==> extra[j].1 == |item.path| && Hop(g, kinds, item.nodeId, extra[j].0))
    && (forall w :: Hop(g, kinds, item.nodeId, w) && w !in visited ==> Queued(extra, w, |item.path|))
  }

  /** What one dequeued node adds to the queue: a longer path for every
      allowed edge to an unvisited node. */
  method Discover(g: Graph, kinds: set<EdgeKind>, ghost fromId: Id, item: QueueItem, visited: set<Id>)
      returns (found: seq<QueueItem>, ghost dist: seq<(Id, nat)>)
    requires IsPath(g, kinds, fromId, item.nodeId, item.path)
    requires item.nodeId in visited
    ensures Found(g, kinds, fromId, item, visited, found, dist)
  {
    hide PathFrom, Queued, Mirrors;
    var outgoing := GetOutgoingEdges(g, item.nodeId, kinds);
    NothingFound(g, kinds, fromId);
    var nextNodes := NodesByIds(g, set e | e in outgoing && e.target !in visited :: e.target);
    found, dist := [], [];
    for i := 0 to |outgoing|
      invariant Mirrors(g, kinds, fromId, found, dist)
      invariant forall j :: 0 <= j < |dist| ==> dist[j].1 == |item.path| && Hop(g, kinds, item.nodeId, dist[j].0)
      invariant forall j :: 0 <= j < i && outgoing[j].target !in visited && outgoing[j].target in g.nodes ==>
                  Queued(dist, outgoing[j].target, |item.path|)
    {
      var edge := outgoing[i];
      if edge.target !in visited && edge.target in nextNodes {
        var s := PathStep(nextNodes[edge.target], Some(edge));
        MirrorsPush(g, kinds, fromId, found, dist, item.nodeId, item.path, s);
        QueuedPush(dist, edge.target, |item.path|);
        found := found + [QueueItem(edge.target, item.path + [s])];
        dist := dist + [(edge.target, |item.path|)];
      }
    }
  }

  /** What the search loop keeps. */
  ghost predicate Searching(
    g: Graph, kinds: set<EdgeKind>, fromId: Id, toId: Id, level: map<Id, nat>,
    queue: seq<QueueItem>, dist: seq<(Id, nat)>)
  {
    && Mirrors(g, kinds, fromId, queue, dist)
    && Frontier(Hops(g, kinds), fromId, Unlimited, level, dist)
    && level.Keys <= g.nodes.Keys && toId !in level
  }

  lemma SearchInit(g: Graph, kinds: set<EdgeKind>, fromId: Id, toId: Id)
    requires fromId in g.nodes
    ensures Searching(
      g, kinds, fromId, toId, map[], [QueueItem(fromId, [PathStep(g.nodes[fromId], None)])], [(fromId, 0)])
  {
    FrontierInit(Hops(g, kinds), fromId, Unlimited);
  }

  lemma HeadOk(
    g: Graph, kinds: set<EdgeKind>, fromId: Id, toId: Id, level: map<Id, nat>,
    queue: seq<QueueItem>, dist: seq<(Id, nat)>)
    requires Searching(g, kinds, fromId, toId, level, queue, dist) && |queue| > 0
    ensures |dist| > 0 && dist[0] == (queue[0].nodeId, |queue[0].path| - 1) && queue[0].nodeId in g.nodes
    ensures IsPath(g, kinds, fromId, queue[0].nodeId, queue[0].path)
  {
  }

  lemma MirrorsRest(
    g: Graph, kinds: set<EdgeKind>, fromId: Id, queue: seq<QueueItem>, dist: seq<(Id, nat)>,
    found: seq<QueueItem>, extra: seq<(Id, nat)>)
    requires Mirrors(g, kinds, fromId, queue, dist) && Mirrors(g, kinds, fromId, found, extra) && |queue| > 0
    ensures Mirrors(g, kinds, fromId, queue[1..] + found, dist[1..] + extra)
  {
    hide IsPath;
    forall i | 0 <= i < |queue| - 1 + |found|
      ensures (queue[1..] + found)[i] == if i < |queue| - 1 then queue[i + 1] else found[i - (|queue| - 1)]
      ensures (dist[1..] + extra)[i] == if i < |queue| - 1 then dist[i + 1] else extra[i - (|queue| - 1)]
    {
    }
  }

  lemma SearchSkip(
    g: Graph, kinds: set<EdgeKind>, fromId: Id, toId: Id, level: map<Id, nat>,
    queue: seq<QueueItem>, dist: seq<(Id, nat)>)
    requires Searching(g, kinds, fromId, toId, level, queue, dist)
    requires |queue| > 0 && queue[0].nodeId in level
    ensures Searching(g, kinds, fromId, toId, level, queue[1..], dist[1..])
  {
    HeadOk(g, kinds, fromId, toId, level, queue, dist);
    NothingFound(g, kinds, fromId);
    MirrorsRest(g, kinds, fromId, queue, dist, [], []);
    assert queue[1..] + [] == queue[1..] && dist[1..] + [] == dist[1..];
    hide Mirrors, Frontier, IsPath;
    FrontierSkip(Hops(g, kinds), fromId, Unlimited, level, dist);
  }

  lemma SearchVisit(
    g: Graph, kinds: set<EdgeKind>, fromId: Id, toId: Id, level: map<Id, nat>,
    queue: seq<QueueItem>, dist: seq<(Id, nat)>, found: seq<QueueItem>, extra: seq<(Id, nat)>)
    requires Searching(g, kinds, fromId, toId, level, queue, dist)
    requires |queue| > 0 && queue[0].nodeId !in level && queue[0].nodeId != toId
    requires Found(g, kinds, fromId, queue[0], level.Keys + {queue[0].nodeId}, found, extra)
    ensures Searching(
      g, kinds, fromId, toId, level[queue[0].nodeId := |queue[0].path| - 1], queue[1..] + found, dist[1..] + extra)
  {
    HeadOk(g, kinds, fromId, toId, level, queue, dist);
    hide Mirrors, Frontier, IsPath, Hop, Queued;
    MirrorsRest(g, kinds, fromId, queue, dist, found, extra);
    assert Successors(Hops(g, kinds), Unlimited, level, dist[0].0, dist[0].1, extra);
    hide Successors;
    FrontierVisit(Hops(g, kinds), fromId, Unlimited, level, dist, extra);
  }

  /** `findPath`: a path with the fewest hops, or `None` when there is none. */
  method FindPath(g: Graph, fromId: Id, toId: Id, kinds: set<EdgeKind>) returns (r: Option<seq<PathStep>>)
    ensures r.Some? ==> IsPath(g, kinds, fromId, toId, r.value)
    ensures r.Some? ==> forall q :: IsPath(g, kinds, fromId, toId, q) ==> |r.value| <= |q|
    ensures r.None? <==> !exists q :: IsPath(g, kinds, fromId, toId, q)
  {
    hide Searching, Found, IsPath;
    if fromId !in g.nodes || toId !in g.nodes {
      forall q | IsPath(g, kinds, fromId, toId, q) ensures false {
        PathEnds(g, kinds, fromId, toId, q);
      }
      return None;
    }
    var visited: set<Id> := {};
    var queue := [QueueItem(fromId, [PathStep(g.nodes[fromId], None)])];
    ghost var level: map<Id, nat> := map[];
    ghost var dist: seq<(Id, nat)> := [(fromId, 0)];
    SearchInit(g, kinds, fromId, toId);

    while |queue| > 0
      invariant Searching(g, kinds, fromId, toId, level, queue, dist)
      invariant visited == level.Keys
      decreases g.nodes.Keys - visited, |queue|
    {
      var item := queue[0];
      HeadOk(g, kinds, fromId, toId, level, queue, dist);
      if item.nodeId == toId {
        HeadIsShortest(g, kinds, fromId, toId, level, queue, dist);
        return Some(item.path);
      }
      if item.nodeId in visited {
        SearchSkip(g, kinds, fromId, toId, level, queue, dist);
        queue, dist := queue[1..], dist[1..];
        continue;
      }
      visited := visited + {item.nodeId};
      var found, extra := Discover(g, kinds, fromId, item, visited);
      SearchVisit(g, kinds, fromId, toId, level, queue, dist, found, extra);
      queue, dist := queue[1..] + found, dist[1..] + extra;
      level := level[item.nodeId := |item.path| - 1];
    }
    HeadIsShortest(g, kinds, fromId, toId, level, queue, dist);
    return None;
  }

  /** While the target is unvisited, every path to it is at least as long as
      the one at the head of the queue; an empty queue rules all paths out. */
  lemma HeadIsShortest(
    g: Graph, kinds: set<EdgeKind>, fromId: Id, toId: Id, level: map<Id, nat>,
    queue: seq<QueueItem>, dist: seq<(Id, nat)>)
    requires Searching(g, kinds, fromId, toId, level, queue, dist)
    ensures forall q :: IsPath(g, kinds, fromId, toId, q) ==> |queue| > 0 && |queue[0].path| <= |q|
  {
    hide IsPath, Frontier;
    forall q | IsPath(g, kinds, fromId, toId, q)
      ensures |queue| > 0 && |queue[0].path| <= |q|
    {
      PathIsWalk(g, kinds, fromId, toId, q);
      FrontierReach(Hops(g, kinds), fromId, Unlimited, level, dist, toId, |q| - 1);
    }
  }
}
