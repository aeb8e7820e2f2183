/** `traverseBFS`: breadth-first exploration with a depth limit, kind filters
    that bridge edges bypass, and a budget on the number of nodes. */
module Traversal {
  import opened Wrappers
  import opened CodeGraph
  import opened Reach

  datatype Direction = Outgoing | Incoming | Both

  datatype Options = Options(
    maxDepth: Bound, edgeKinds: set<EdgeKind>, nodeKinds: set<NodeKind>,
    direction: Direction, limit: int, includeStart: bool)

  datatype Subgraph = Subgraph(nodes: map<Id, Node>, edges: seq<Edge>, roots: seq<Id>)

  function OtherEnd(e: Edge, id: Id): Id {
    if e.source == id then e.target else e.source
  }

  predicate Adjacent(opts: Options, e: Edge, id: Id) {
    && KindAllowed(opts.edgeKinds, e.kind)
    && match opts.direction
       case Outgoing => e.source == id
       case Incoming => e.target == id
       case Both => e.source == id || e.target == id
  }

  /** The node-kind filter, which never drops the target of a bridge edge. */
  predicate NodeAllowed(opts: Options, n: Node, e: Edge) {
    opts.nodeKinds == {} || n.kind in opts.nodeKinds || e.kind in BRIDGE_EDGE_KINDS
  }

  /** Edge `e` leads from `u` to `v` in one admissible step. */
  ghost predicate StepVia(g: Graph, opts: Options, u: Id, e: Edge, v: Id) {
    e in g.edges && Adjacent(opts, e, u) && v == OtherEnd(e, u) && v in g.nodes && NodeAllowed(opts, g.nodes[v], e)
  }

  ghost function Steps(g: Graph, opts: Options): (Id, Id) -> bool {
    (u, v) => exists e :: StepVia(g, opts, u, e, v)
  }

  method GetAdjacentEdges(g: Graph, id: Id, opts: Options) returns (es: seq<Edge>)
    ensures forall e :: e in es <==> e in g.edges && Adjacent(opts, e, id)
  {
    match opts.direction
    case Outgoing => es := GetOutgoingEdges(g, id, opts.edgeKinds);
    case Incoming => es := GetIncomingEdges(g, id, opts.edgeKinds);
    case Both =>
      var outgoing := GetOutgoingEdges(g, id, opts.edgeKinds);
      var incoming := GetIncomingEdges(g, id, opts.edgeKinds);
      es := outgoing + incoming;
  }

  /** Structure first, then calls, then everything else. */
  function Priority(e: Edge): nat {
    if e.kind == Contains then 0 else if e.kind == Calls then 1 else 2
  }

  method WithPriority(es: seq<Edge>, p: nat) returns (r: seq<Edge>)
    ensures forall e :: multiset(r)[e] == if Priority(e) == p then multiset(es)[e] else 0
    ensures forall i :: 0 <= i < |r| ==> Priority(r[i]) == p
  {
    r := [];
    for i := 0 to |es|
      invariant forall e :: multiset(r)[e] == if Priority(e) == p then multiset(es[..i])[e] else 0
      invariant forall j :: 0 <= j < |r| ==> Priority(r[j]) == p
    {
      assert es[..i + 1] == es[..i] + [es[i]];
      if Priority(es[i]) == p {
        r := r + [es[i]];
      }
    }
    assert es[..|es|] == es;
  }

  ghost predicate Sorted(es: seq<Edge>) {
    forall i, j :: 0 <= i < j < |es| ==> Priority(es[i]) <= Priority(es[j])
  }

  lemma SortedAppend(a: seq<Edge>, b: seq<Edge>, p: nat)
    requires Sorted(a) && Sorted(b)
    requires (forall i :: 0 <= i < |a| ==> Priority(a[i]) <= p) && (forall i :: 0 <= i < |b| ==> Priority(b[i]) == p)
    ensures Sorted(a + b) && forall i :: 0 <= i < |a + b| ==> Priority((a + b)[i]) <= p
  {
  }

  /** A stable sort on three priorities is three stable selections. */
  method SortByPriority(es: seq<Edge>) returns (sorted: seq<Edge>)
    ensures multiset(sorted) == multiset(es) && Sorted(sorted)
    ensures forall e :: e in sorted <==> e in es
  {
    var first := WithPriority(es, 0);
    var second := WithPriority(es, 1);
    var third := WithPriority(es, 2);
    sorted := first + second + third;
    SortedAppend(first, second, 1);
    SortedAppend(first + second, third, 2);
    SameMembers(es, first, second, third);
  }

  lemma SameMembers(es: seq<Edge>, a: seq<Edge>, b: seq<Edge>, c: seq<Edge>)
    requires forall e :: multiset(a)[e] == if Priority(e) == 0 then multiset(es)[e] else 0
    requires forall e :: multiset(b)[e] == if Priority(e) == 1 then multiset(es)[e] else 0
    requires forall e :: multiset(c)[e] == if Priority(e) == 2 then multiset(es)[e] else 0
    ensures multiset(a + b + c) == multiset(es)
    ensures forall e :: e in a + b + c <==> e in es
  {
    forall e
      ensures multiset(a + b + c)[e] == multiset(es)[e]
      ensures e in a + b + c <==> e in es
    {
      assert multiset(a + b + c)[e] == multiset(a)[e] + multiset(b)[e] + multiset(c)[e];
      assert e in es <==> multiset(es)[e] > 0;
      assert e in a + b + c <==> multiset(a + b + c)[e] > 0;
    }
  }

  datatype QueueItem = QueueItem(node: Node, edge: Option<Edge>, depth: nat)

  /** Edge `e` brings in `v` at depth `d` from a visited node one level up. */
  ghost predicate Hangs(g: Graph, opts: Options, level: map<Id, nat>, e: Edge, v: Id, d: nat) {
    exists u :: u in level && level[u] + 1 == d && StepVia(g, opts, u, e, v)
  }

  lemma HangsGrow(g: Graph, opts: Options, level: map<Id, nat>, e: Edge, v: Id, d: nat, w: Id, k: nat)
    requires Hangs(g, opts, level, e, v, d) && w !in level
    ensures Hangs(g, opts, level[w := k], e, v, d)
  {
    var u :| u in level && level[u] + 1 == d && StepVia(g, opts, u, e, v);
    assert u in level[w := k];
  }

  /** `edges` is a tree over the nodes of `order`, listed level by level: the
      i-th edge brings in the (i+1)-th node from one a single level up. */
  ghost predicate Tree(
    g: Graph, opts: Options, startId: Id, order: seq<Id>, level: map<Id, nat>, edges: seq<Edge>)
  {
    && (forall v :: v in order <==> v in level)
    && (forall i, j :: 0 <= i < j < |order| ==> order[i] != order[j] && level[order[i]] <= level[order[j]])
    && (if order == [] then edges == [] else order[0] == startId && level[startId] == 0 && |edges| == |order| - 1)
    && (forall i :: 0 <= i < |edges| ==> Hangs(g, opts, level, edges[i], order[i + 1], level[order[i + 1]]))
  }

  lemma TreeGrow(
    g: Graph, opts: Options, startId: Id, order: seq<Id>, level: map<Id, nat>, edges: seq<Edge>,
    v: Id, e: Edge, d: nat)
    requires Tree(g, opts, startId, order, level, edges) && order != []
    requires v !in level && Hangs(g, opts, level, e, v, d)
    requires forall u :: u in level ==> level[u] <= d
    ensures Tree(g, opts, startId, order + [v], level[v := d], edges + [e])
  {
    var order', level', edges' := order + [v], level[v := d], edges + [e];
    forall i | 0 <= i < |edges'|
      ensures Hangs(g, opts, level', edges'[i], order'[i + 1], level'[order'[i + 1]])
    {
      if i < |edges| {
        HangsGrow(g, opts, level, edges[i], order[i + 1], level[order[i + 1]], v, d);
      } else {
        HangsGrow(g, opts, level, e, v, d, v, d);
      }
    }
  }

  /** The queue and its ghost distances agree; before the first visit the
      queue is the start alone. */
  ghost predicate Consistent(
    g: Graph, opts: Options, startId: Id, level: map<Id, nat>, queue: seq<QueueItem>, dist: seq<(Id, nat)>)
  {
    && |queue| == |dist|
    && (level == map[] ==> startId in g.nodes && queue == [QueueItem(g.nodes[startId], None, 0)])
    && forall i :: 0 <= i < |queue| ==> ItemOk(g, opts, level, queue[i], dist[i])
  }

  ghost predicate ItemOk(g: Graph, opts: Options, level: map<Id, nat>, item: QueueItem, d: (Id, nat)) {
    && item.node.id in g.nodes && g.nodes[item.node.id] == item.node
    && d == (item.node.id, item.depth)
    && (level != map[] ==> item.edge.Some? && Hangs(g, opts, level, item.edge.value, item.node.id, item.depth))
  }

  ghost predicate Listed(dist: seq<(Id, nat)>, v: Id) {
    exists i :: 0 <= i < |dist| && dist[i].0 == v
  }

  /** `nodes` holds the visited and the queued, the start only if asked for. */
  ghost predicate Collected(
    g: Graph, opts: Options, startId: Id, level: map<Id, nat>, dist: seq<(Id, nat)>, nodes: map<Id, Node>)
  {
    && (forall v :: v in nodes ==> v in g.nodes && nodes[v] == g.nodes[v])
    && (forall v :: v in nodes <==> (v in level || Listed(dist, v)) && (opts.includeStart || v != startId))
  }

  lemma CollectedSkip(
    g: Graph, opts: Options, startId: Id, level: map<Id, nat>, dist: seq<(Id, nat)>, nodes: map<Id, Node>)
    requires Collected(g, opts, startId, level, dist, nodes)
    requires |dist| > 0 && dist[0].0 in level
    ensures Collected(g, opts, startId, level, dist[1..], nodes)
  {
    forall v | Listed(dist, v) && v !in level
      ensures Listed(dist[1..], v)
    {
      var i :| 0 <= i < |dist| && dist[i].0 == v;
      assert dist[1..][i - 1] == dist[i];
    }
  }

  lemma CollectedVisit(
    g: Graph, opts: Options, startId: Id, level: map<Id, nat>, dist: seq<(Id, nat)>, extra: seq<(Id, nat)>,
    nodes: map<Id, Node>, nodes': map<Id, Node>)
    requires Collected(g, opts, startId, level, dist, nodes) && |dist| > 0
    requires Grown(g, nodes, nodes', extra)
    requires !Listed(extra, startId)
    ensures Collected(g, opts, startId, level[dist[0].0 := dist[0].1], dist[1..] + extra, nodes')
  {
    var next := dist[1..] + extra;
    forall v
      ensures Listed(next, v) || v == dist[0].0 <==> Listed(dist, v) || Listed(extra, v)
    {
      if Listed(dist, v) {
        var i :| 0 <= i < |dist| && dist[i].0 == v;
        assert i > 0 ==> next[i - 1] == dist[i];
      }
      if Listed(extra, v) {
        var i :| 0 <= i < |extra| && extra[i].0 == v;
        assert next[|dist| - 1 + i] == extra[i];
      }
      if Listed(next, v) {
        var i :| 0 <= i < |next| && next[i].0 == v;
        assert if i < |dist| - 1 then next[i] == dist[i + 1] else next[i] == extra[i - (|dist| - 1)];
      }
    }
  }

  lemma ConsistentVisit(
    g: Graph, opts: Options, startId: Id, level: map<Id, nat>, queue: seq<QueueItem>, dist: seq<(Id, nat)>,
    found: seq<QueueItem>, extra: seq<(Id, nat)>)
    requires Consistent(g, opts, startId, level, queue, dist) && |queue| > 0 && queue[0].node.id !in level
    requires |found| == |extra|
    requires forall i :: 0 <= i < |found| ==> Found(g, opts, queue[0], found[i], extra[i])
    ensures Consistent(g, opts, startId, level[dist[0].0 := dist[0].1], queue[1..] + found, dist[1..] + extra)
  {
    var head := queue[0];
    assert ItemOk(g, opts, level, queue[0], dist[0]);
    var level', queue', dist' := level[head.node.id := head.depth], queue[1..] + found, dist[1..] + extra;
    assert head.node.id in level';
    forall i | 0 <= i < |queue'|
      ensures ItemOk(g, opts, level', queue'[i], dist'[i])
    {
      if i < |queue| - 1 {
        var item := queue[i + 1];
        assert queue'[i] == item && dist'[i] == dist[i + 1] && ItemOk(g, opts, level, item, dist[i + 1]);
        HangsGrow(g, opts, level, item.edge.value, item.node.id, item.depth, head.node.id, head.depth);
      } else {
        var j := i - (|queue| - 1);
        assert queue'[i] == found[j] && dist'[i] == extra[j] && Found(g, opts, head, found[j], extra[j]);
      }
    }
  }

  /** A discovery made from `item`. */
  ghost predicate Found(g: Graph, opts: Options, item: QueueItem, next: QueueItem, d: (Id, nat)) {
    && next.node.id in g.nodes && g.nodes[next.node.id] == next.node
    && next.depth == item.depth + 1 && d == (next.node.id, next.depth)
    && next.edge.Some? && StepVia(g, opts, item.node.id, next.edge.value, next.node.id)
  }

  /** Nothing admissible along `e` is missed. */
  ghost predicate Handled(
    g: Graph, opts: Options, item: QueueItem, visited: set<Id>, e: Edge, extra: seq<(Id, nat)>)
  {
    var v := OtherEnd(e, item.node.id);
    v !in visited && v in g.nodes && NodeAllowed(opts, g.nodes[v], e) ==> Queued(extra, v, item.depth + 1)
  }

  ghost predicate AllFound(
    g: Graph, opts: Options, item: QueueItem, visited: set<Id>, found: seq<QueueItem>, extra: seq<(Id, nat)>)
  {
    |found| == |extra| &&
    forall i :: 0 <= i < |found| ==> Found(g, opts, item, found[i], extra[i]) && extra[i].0 !in visited
  }

  /** Below the depth limit every unvisited successor is found, at the limit
      none is looked for. */
  ghost predicate Complete(g: Graph, opts: Options, visited: set<Id>, item: QueueItem, extra: seq<(Id, nat)>) {
    if opts.maxDepth.Above(item.depth) then
      forall w :: Steps(g, opts)(item.node.id, w) && w !in visited ==> Queued(extra, w, item.depth + 1)
    else extra == []
  }

  ghost predicate Rows(g: Graph, nodes: map<Id, Node>) {
    forall v :: v in nodes ==> v in g.nodes && nodes[v] == g.nodes[v]
  }

  lemma FoundPush(
    g: Graph, opts: Options, item: QueueItem, visited: set<Id>, found: seq<QueueItem>, extra: seq<(Id, nat)>,
    e: Edge, v: Id)
    requires AllFound(g, opts, item, visited, found, extra)
    requires v !in visited && StepVia(g, opts, item.node.id, e, v)
    ensures AllFound(g, opts, item, visited,
      found + [QueueItem(g.nodes[v], Some(e), item.depth + 1)], extra + [(v, item.depth + 1)])
    ensures forall f :: Handled(g, opts, item, visited, f, extra) ==>
      Handled(g, opts, item, visited, f, extra + [(v, item.depth + 1)])
    ensures Handled(g, opts, item, visited, e, extra + [(v, item.depth + 1)])
    ensures forall w :: Listed(extra + [(v, item.depth + 1)], w) <==> Listed(extra, w) || w == v
  {
    QueuedPush(extra, v, item.depth + 1);
    ListedPush(extra, v, item.depth + 1);
  }

  /** `nodes` is `before` plus what `extra` lists, all of them rows. */
  ghost predicate Grown(g: Graph, before: map<Id, Node>, nodes: map<Id, Node>, extra: seq<(Id, nat)>) {
    Rows(g, nodes) && forall v :: v in nodes <==> v in before || Listed(extra, v)
  }

  /** One adjacent edge: skip it, or take its far end. */
  method Consider(
    g: Graph, opts: Options, item: QueueItem, visited: set<Id>, e: Edge, neighbors: map<Id, Node>,
    found: seq<QueueItem>, nodes: map<Id, Node>, ghost extra: seq<(Id, nat)>, ghost before: map<Id, Node>)
    returns (found': seq<QueueItem>, nodes': map<Id, Node>, ghost extra': seq<(Id, nat)>)
    requires e in g.edges && Adjacent(opts, e, item.node.id)
    requires Rows(g, neighbors)
    requires OtherEnd(e, item.node.id) in g.nodes && OtherEnd(e, item.node.id) !in visited ==>
      OtherEnd(e, item.node.id) in neighbors
    requires AllFound(g, opts, item, visited, found, extra) && Grown(g, before, nodes, extra)
    ensures AllFound(g, opts, item, visited, found', extra') && Grown(g, before, nodes', extra')
    ensures found' == found || (|found'| == |found| + 1 && found <= found' && found'[|found|].edge == Some(e))
    ensures forall f :: Handled(g, opts, item, visited, f, extra) ==> Handled(g, opts, item, visited, f, extra')
    ensures Handled(g, opts, item, visited, e, extra')
  {
    hide AllFound, Queued, Listed;
    found', nodes', extra' := found, nodes, extra;
    var nextId := OtherEnd(e, item.node.id);
    if nextId !in visited && nextId in neighbors && NodeAllowed(opts, neighbors[nextId], e) {
      nodes' := nodes[nextId := neighbors[nextId]];
      FoundPush(g, opts, item, visited, found, extra, e, nextId);
      found' := found + [QueueItem(neighbors[nextId], Some(e), item.depth + 1)];
      extra' := extra + [(nextId, item.depth + 1)];
    }
  }

  /** Items found through edges in priority order, none beyond `p`. */
  ghost predicate Ascending(found: seq<QueueItem>, p: nat) {
    && (forall i :: 0 <= i < |found| ==> found[i].edge.Some? && Priority(found[i].edge.value) <= p)
    && (forall i, j :: 0 <= i < j < |found| ==>
          Priority(found[i].edge.value) <= Priority(found[j].edge.value))
  }

  lemma AscendingPush(before: seq<QueueItem>, found: seq<QueueItem>, p: nat, e: Edge)
    requires Ascending(before, p) && p <= Priority(e)
    requires found == before || (|found| == |before| + 1 && before <= found && found[|before|].edge == Some(e))
    ensures Ascending(found, Priority(e))
  {
  }

  lemma AscendingMost(found: seq<QueueItem>, p: nat)
    requires Ascending(found, p) && p <= 2
    ensures Ascending(found, 2)
  {
  }

  lemma NoneAscending()
    ensures Ascending([], 0) && Ascending([], 2)
  {
  }

  /** The neighbours a dequeued node adds to the result and to the queue. */
  method Discover(g: Graph, opts: Options, item: QueueItem, visited: set<Id>, nodes: map<Id, Node>)
      returns (found: seq<QueueItem>, nodes': map<Id, Node>, ghost extra: seq<(Id, nat)>)
    requires item.node.id in visited && Rows(g, nodes)
    ensures AllFound(g, opts, item, visited, found, extra)
    ensures Complete(g, opts, visited, item, extra)
    ensures Grown(g, nodes, nodes', extra)
    ensures Ascending(found, 2)
  {
    hide Found, Queued, Handled, NodeAllowed, Adjacent, Ascending;
    NoneAscending();
    found, extra, nodes' := [], [], nodes;
    if !opts.maxDepth.Above(item.depth) {
      return;
    }
    var unsorted := GetAdjacentEdges(g, item.node.id, opts);
    var adjacent := SortByPriority(unsorted);
    var neighbors := NodesByIds(g,
      set e | e in adjacent && OtherEnd(e, item.node.id) !in visited :: OtherEnd(e, item.node.id));
    for i := 0 to |adjacent|
      invariant AllFound(g, opts, item, visited, found, extra)
      invariant Grown(g, nodes, nodes', extra)
      invariant forall j :: 0 <= j < i ==> Handled(g, opts, item, visited, adjacent[j], extra)
      invariant Ascending(found, if i == 0 then 0 else Priority(adjacent[i - 1]))
    {
      ghost var before := found;
      found, nodes', extra :=
        Consider(g, opts, item, visited, adjacent[i], neighbors, found, nodes', extra, nodes);
      AscendingPush(before, found, if i == 0 then 0 else Priority(adjacent[i - 1]), adjacent[i]);
    }
    AscendingMost(found, if |adjacent| == 0 then 0 else Priority(adjacent[|adjacent| - 1]));
    AllHandled(g, opts, item, visited, adjacent, extra);
  }

  lemma AllHandled(
    g: Graph, opts: Options, item: QueueItem, visited: set<Id>, adjacent: seq<Edge>, extra: seq<(Id, nat)>)
    requires opts.maxDepth.Above(item.depth)
    requires forall e :: e in g.edges && Adjacent(opts, e, item.node.id) ==> e in adjacent
    requires forall e :: e in adjacent ==> Handled(g, opts, item, visited, e, extra)
    ensures Complete(g, opts, visited, item, extra)
  {
    forall w | Steps(g, opts)(item.node.id, w) && w !in visited ensures Queued(extra, w, item.depth + 1) {
      var e :| StepVia(g, opts, item.node.id, e, w);
      assert Handled(g, opts, item, visited, e, extra);
    }
  }

  lemma ListedPush(dist: seq<(Id, nat)>, v: Id, d: nat)
    ensures forall w :: Listed(dist + [(v, d)], w) <==> Listed(dist, w) || w == v
  {
    var next := dist + [(v, d)];
    assert next[|dist|] == (v, d);
    forall w | Listed(dist, w) ensures Listed(next, w) {
      var i :| 0 <= i < |dist| && dist[i].0 == w;
      assert next[i] == dist[i];
    }
  }

  // ---- who comes first -------------------------------------------------------------------

  /** The node an edge was followed from, and its priority. */
  datatype Mark = Mark(parent: Id, rank: nat)

  function MarkOf(e: Edge, v: Id): Mark {
    Mark(OtherEnd(e, v), Priority(e))
  }

  function QueueMarks(queue: seq<QueueItem>): seq<Mark> {
    seq(|queue|, i requires 0 <= i < |queue| =>
      if queue[i].edge.Some? then MarkOf(queue[i].edge.value, queue[i].node.id) else Mark("", 0))
  }

  function TreeMarks(edges: seq<Edge>, order: seq<Id>): seq<Mark>
    requires |edges| < |order|
  {
    seq(|edges|, i requires 0 <= i < |edges| => MarkOf(edges[i], order[i + 1]))
  }

  /** `p` was visited before `q`, or they are the same and `tie` holds. */
  ghost predicate Precedes(order: seq<Id>, p: Id, q: Id, tie: bool) {
    forall a, b :: 0 <= a < |order| && 0 <= b < |order| && order[a] == p && order[b] == q ==> a < b || (a == b && tie)
  }

  /** Parents in the order of their visits, and for each its edges by priority. */
  ghost predicate InTurn(order: seq<Id>, marks: seq<Mark>) {
    && (forall m :: m in marks ==> m.parent in order)
    && (forall i, j :: 0 <= i < j < |marks| ==>
          Precedes(order, marks[i].parent, marks[j].parent, marks[i].rank <= marks[j].rank))
  }

  /** The tree and the queue behind it are in turn. */
  ghost predicate Lined(order: seq<Id>, edges: seq<Edge>, queue: seq<QueueItem>) {
    order != [] ==> |order| == |edges| + 1 && InTurn(order, TreeMarks(edges, order) + QueueMarks(queue))
  }

  lemma InTurnFewer(order: seq<Id>, a: seq<Mark>, m: Mark, b: seq<Mark>)
    requires InTurn(order, a + [m] + b)
    ensures InTurn(order, a + b)
  {
    var all, r := a + [m] + b, a + b;
    forall i | 0 <= i < |r| ensures r[i] == all[if i < |a| then i else i + 1] {
    }
    forall x | x in r ensures x.parent in order {
      assert x in all;
    }
  }

  lemma LinedSkip(order: seq<Id>, edges: seq<Edge>, queue: seq<QueueItem>)
    requires Lined(order, edges, queue) && |queue| > 0
    ensures Lined(order, edges, queue[1..])
  {
    if order != [] {
      var marks := QueueMarks(queue);
      assert QueueMarks(queue[1..]) == marks[1..];
      assert TreeMarks(edges, order) + marks == TreeMarks(edges, order) + [marks[0]] + marks[1..];
      InTurnFewer(order, TreeMarks(edges, order), marks[0], marks[1..]);
    }
  }

  /** Marks of the node visited last come after all others. */
  lemma InTurnMore(order: seq<Id>, marks: seq<Mark>, v: Id, more: seq<Mark>)
    requires InTurn(order, marks) && v !in order
    requires forall i :: 0 <= i < |more| ==> more[i].parent == v
    requires forall i, j :: 0 <= i < j < |more| ==> more[i].rank <= more[j].rank
    requires forall i, j :: 0 <= i < j < |order| ==> order[i] != order[j]
    ensures InTurn(order + [v], marks + more)
  {
    var order', all := order + [v], marks + more;
    forall i | 0 <= i < |all|
      ensures i < |marks| ==> all[i] == marks[i] && all[i].parent in order
      ensures i >= |marks| ==> all[i] == more[i - |marks|] && all[i].parent == v
    {
      assert i < |marks| ==> marks[i] in marks;
    }
    assert forall a :: 0 <= a < |order'| ==> (order'[a] == v <==> a == |order|);
    forall m | m in all ensures m.parent in order' {
      var i :| 0 <= i < |all| && all[i] == m;
    }
  }

  lemma LinedVisit(
    g: Graph, opts: Options, order: seq<Id>, edges: seq<Edge>, queue: seq<QueueItem>, visited: set<Id>,
    found: seq<QueueItem>, extra: seq<(Id, nat)>)
    requires Lined(order, edges, queue) && |queue| > 0 && queue[0].node.id !in order
    requires if order == [] then edges == [] && queue[0].edge.None? && |queue| == 1 else queue[0].edge.Some?
    requires forall i, j :: 0 <= i < j < |order| ==> order[i] != order[j]
    requires queue[0].node.id in visited && AllFound(g, opts, queue[0], visited, found, extra) && Ascending(found, 2)
    ensures Lined(order + [queue[0].node.id], EdgesAfter(edges, queue[0]), queue[1..] + found)
  {
    var v := queue[0].node.id;
    FoundMarks(g, opts, queue[0], visited, found, extra);
    MarksVisit(order, edges, queue, found);
    hide InTurn, QueueMarks, TreeMarks, AllFound, Ascending;
    if order == [] {
      NothingMarked();
      InTurnMore([], [], v, QueueMarks(found));
    } else {
      InTurnMore(order, TreeMarks(edges, order) + QueueMarks(queue), v, QueueMarks(found));
    }
  }

  lemma NothingMarked()
    ensures InTurn([], [])
  {
  }

  /** A visit moves the head of the queue into the tree and appends what is found. */
  lemma MarksVisit(order: seq<Id>, edges: seq<Edge>, queue: seq<QueueItem>, found: seq<QueueItem>)
    requires |queue| > 0
    requires if order == [] then edges == [] && queue[0].edge.None? && |queue| == 1
             else queue[0].edge.Some? && |order| == |edges| + 1
    ensures var order', edges', queue' := order + [queue[0].node.id], EdgesAfter(edges, queue[0]), queue[1..] + found;
      && |order'| == |edges'| + 1
      && TreeMarks(edges', order') + QueueMarks(queue') ==
         (if order == [] then [] else TreeMarks(edges, order) + QueueMarks(queue)) + QueueMarks(found)
  {
    QueueMarksVisit(queue, found);
    hide QueueMarks;
    if order != [] {
      TreeMarksVisit(order, edges, queue[0].edge.value, queue[0].node.id);
      assert TreeMarks(edges, order) + [QueueMarks(queue)[0]] + QueueMarks(queue)[1..] ==
             TreeMarks(edges, order) + QueueMarks(queue);
    }
  }

  lemma QueueMarksVisit(queue: seq<QueueItem>, found: seq<QueueItem>)
    requires |queue| > 0
    ensures QueueMarks(queue[1..] + found) == QueueMarks(queue)[1..] + QueueMarks(found)
    ensures |QueueMarks(queue)| == |queue|
    ensures queue[0].edge.Some? ==> QueueMarks(queue)[0] == MarkOf(queue[0].edge.value, queue[0].node.id)
  {
    hide MarkOf;
  }

  lemma TreeMarksVisit(order: seq<Id>, edges: seq<Edge>, e: Edge, v: Id)
    requires |order| == |edges| + 1
    ensures TreeMarks(edges + [e], order + [v]) == TreeMarks(edges, order) + [MarkOf(e, v)]
  {
    hide MarkOf;
  }

  /** What was found from a node is marked with it, by priority. */
  lemma FoundMarks(
    g: Graph, opts: Options, item: QueueItem, visited: set<Id>, found: seq<QueueItem>, extra: seq<(Id, nat)>)
    requires item.node.id in visited && AllFound(g, opts, item, visited, found, extra) && Ascending(found, 2)
    ensures forall i :: 0 <= i < |found| ==> QueueMarks(found)[i].parent == item.node.id
    ensures forall i, j :: 0 <= i < j < |found| ==> QueueMarks(found)[i].rank <= QueueMarks(found)[j].rank
  {
    forall i | 0 <= i < |found| ensures QueueMarks(found)[i].parent == item.node.id {
      assert Found(g, opts, item, found[i], extra[i]);
    }
  }

  /** Structure comes before calls, and calls before everything else. */
  predicate KindsInTurn(a: EdgeKind, b: EdgeKind) {
    (b == Contains ==> a == Contains) && (b == Calls ==> a == Contains || a == Calls)
  }

  /** Nodes are visited in the order of the visits to those they hang from, and among
      those that hang from one node, structure before calls before the rest. */
  ghost predicate VisitedInTurn(order: seq<Id>, edges: seq<Edge>)
    requires order != [] ==> |edges| < |order|
  {
    order != [] ==>
      && (forall i :: 0 <= i < |edges| ==> OtherEnd(edges[i], order[i + 1]) in order)
      && (forall i, j :: 0 <= i < j < |edges| ==>
            Precedes(order, OtherEnd(edges[i], order[i + 1]), OtherEnd(edges[j], order[j + 1]),
                     KindsInTurn(edges[i].kind, edges[j].kind)))
  }

  lemma LinedMeans(order: seq<Id>, edges: seq<Edge>, queue: seq<QueueItem>)
    requires Lined(order, edges, queue)
    ensures order != [] ==> |edges| < |order|
    ensures VisitedInTurn(order, edges)
  {
    hide Precedes;
    if order != [] {
      var all := TreeMarks(edges, order) + QueueMarks(queue);
      forall i | 0 <= i < |edges|
        ensures all[i] == MarkOf(edges[i], order[i + 1]) && all[i] in all
      {
      }
      forall i, j | 0 <= i < j < |edges|
        ensures Precedes(order, OtherEnd(edges[i], order[i + 1]), OtherEnd(edges[j], order[j + 1]),
                         KindsInTurn(edges[i].kind, edges[j].kind))
      {
        TieMeans(order, all[i].parent, all[j].parent, edges[i], edges[j]);
      }
    }
  }

  lemma TieMeans(order: seq<Id>, p: Id, q: Id, e: Edge, f: Edge)
    requires Precedes(order, p, q, Priority(e) <= Priority(f))
    ensures Precedes(order, p, q, KindsInTurn(e.kind, f.kind))
  {
  }

  /** Everything that holds between two dequeues. */
  ghost predicate Searching(
    g: Graph, opts: Options, startId: Id, order: seq<Id>, level: map<Id, nat>,
    queue: seq<QueueItem>, dist: seq<(Id, nat)>, nodes: map<Id, Node>, edges: seq<Edge>)
  {
    && Frontier(Steps(g, opts), startId, opts.maxDepth, level, dist)
    && Consistent(g, opts, startId, level, queue, dist)
    && Collected(g, opts, startId, level, dist, nodes)
    && Tree(g, opts, startId, order, level, edges)
    && Lined(order, edges, queue)
  }

  lemma SearchSkip(
    g: Graph, opts: Options, startId: Id, order: seq<Id>, level: map<Id, nat>,
    queue: seq<QueueItem>, dist: seq<(Id, nat)>, nodes: map<Id, Node>, edges: seq<Edge>)
    requires Searching(g, opts, startId, order, level, queue, dist, nodes, edges)
    requires |queue| > 0 && queue[0].node.id in level
    ensures Searching(g, opts, startId, order, level, queue[1..], dist[1..], nodes, edges)
  {
    assert ItemOk(g, opts, level, queue[0], dist[0]);
    FrontierSkip(Steps(g, opts), startId, opts.maxDepth, level, dist);
    CollectedSkip(g, opts, startId, level, dist, nodes);
    LinedSkip(order, edges, queue);
  }

  /** What a visit to the head of the queue does to the edge list. */
  function EdgesAfter(edges: seq<Edge>, item: QueueItem): seq<Edge> {
    if item.edge.Some? then edges + [item.edge.value] else edges
  }

  lemma TreeVisit(
    g: Graph, opts: Options, startId: Id, order: seq<Id>, level: map<Id, nat>,
    queue: seq<QueueItem>, dist: seq<(Id, nat)>, edges: seq<Edge>)
    requires Consistent(g, opts, startId, level, queue, dist) && Fifo(level, dist)
    requires Tree(g, opts, startId, order, level, edges)
    requires |queue| > 0 && queue[0].node.id !in level
    ensures Tree(g, opts, startId, order + [queue[0].node.id], level[queue[0].node.id := queue[0].depth],
                 EdgesAfter(edges, queue[0]))
  {
    var item := queue[0];
    assert ItemOk(g, opts, level, item, dist[0]);
    if level == map[] {
      assert forall v :: v !in order;
      assert order == [];
    } else {
      assert order != [];
      TreeGrow(g, opts, startId, order, level, edges, item.node.id, item.edge.value, item.depth);
    }
  }

  /** The head of the queue as the search sees it. */
  lemma HeadOk(
    g: Graph, opts: Options, startId: Id, order: seq<Id>, level: map<Id, nat>,
    queue: seq<QueueItem>, dist: seq<(Id, nat)>, nodes: map<Id, Node>, edges: seq<Edge>)
    requires Searching(g, opts, startId, order, level, queue, dist, nodes, edges)
    requires |queue| > 0
    ensures Rows(g, nodes)
    ensures |dist| == |queue| && dist[0] == (queue[0].node.id, queue[0].depth)
    ensures queue[0].node.id in g.nodes
    ensures startId in level || startId == queue[0].node.id
  {
    assert ItemOk(g, opts, level, queue[0], dist[0]);
    if level != map[] {
      assert order != [];
      assert order[0] in level;
    }
  }

  /** What `Discover` promises, seen from the distances alone. */
  lemma FoundSuccessors(
    g: Graph, opts: Options, level: map<Id, nat>, item: QueueItem, found: seq<QueueItem>, extra: seq<(Id, nat)>)
    requires AllFound(g, opts, item, level.Keys + {item.node.id}, found, extra)
    requires Complete(g, opts, level.Keys + {item.node.id}, item, extra)
    ensures Successors(Steps(g, opts), opts.maxDepth, level, item.node.id, item.depth, extra)
    ensures forall v :: v in level || v == item.node.id ==> !Listed(extra, v)
  {
    forall i | 0 <= i < |extra|
      ensures extra[i].1 == item.depth + 1 && Steps(g, opts)(item.node.id, extra[i].0)
    {
      assert Found(g, opts, item, found[i], extra[i]);
    }
  }

  lemma SearchVisit(
    g: Graph, opts: Options, startId: Id, order: seq<Id>, level: map<Id, nat>,
    queue: seq<QueueItem>, dist: seq<(Id, nat)>, nodes: map<Id, Node>, edges: seq<Edge>,
    found: seq<QueueItem>, extra: seq<(Id, nat)>, nodes': map<Id, Node>)
    requires Searching(g, opts, startId, order, level, queue, dist, nodes, edges)
    requires |queue| > 0 && queue[0].node.id !in level
    requires AllFound(g, opts, queue[0], level.Keys + {queue[0].node.id}, found, extra)
    requires Complete(g, opts, level.Keys + {queue[0].node.id}, queue[0], extra)
    requires Grown(g, nodes, nodes', extra) && Ascending(found, 2)
    ensures Searching(g, opts, startId, order + [queue[0].node.id], level[queue[0].node.id := queue[0].depth],
                      queue[1..] + found, dist[1..] + extra, nodes', EdgesAfter(edges, queue[0]))
  {
    hide Consistent, Collected, Tree, Successors, Complete, SoundLevels, SoundQueue, Fifo, Exhaustive, Lined, Ascending;
    HeadOk(g, opts, startId, order, level, queue, dist, nodes, edges);
    FoundSuccessors(g, opts, level, queue[0], found, extra);
    FrontierVisit(Steps(g, opts), startId, opts.maxDepth, level, dist, extra);
    ConsistentVisit(g, opts, startId, level, queue, dist, found, extra);
    CollectedVisit(g, opts, startId, level, dist, extra, nodes, nodes');
    TreeVisit(g, opts, startId, order, level, queue, dist, edges);
    BeforeVisit(g, opts, startId, order, level, queue, dist, edges);
    LinedVisit(g, opts, order, edges, queue, level.Keys + {queue[0].node.id}, found, extra);
  }

  /** How the head of the queue came there. */
  lemma BeforeVisit(
    g: Graph, opts: Options, startId: Id, order: seq<Id>, level: map<Id, nat>,
    queue: seq<QueueItem>, dist: seq<(Id, nat)>, edges: seq<Edge>)
    requires Consistent(g, opts, startId, level, queue, dist) && Tree(g, opts, startId, order, level, edges)
    requires |queue| > 0 && queue[0].node.id !in level
    ensures queue[0].node.id !in order
    ensures if order == [] then edges == [] && queue[0].edge.None? && |queue| == 1 else queue[0].edge.Some?
    ensures forall i, j :: 0 <= i < j < |order| ==> order[i] != order[j]
  {
    assert ItemOk(g, opts, level, queue[0], dist[0]);
    if order != [] {
      assert order[0] in level;
    } else {
      assert forall v :: v !in level;
      assert level == map[];
    }
  }

  lemma SearchInit(g: Graph, opts: Options, startId: Id)
    requires startId in g.nodes
    ensures Searching(g, opts, startId, [], map[], [QueueItem(g.nodes[startId], None, 0)], [(startId, 0)],
      if opts.includeStart then map[startId := g.nodes[startId]] else map[], [])
  {
    FrontierInit(Steps(g, opts), startId, opts.maxDepth);
    ListedPush([], startId, 0);
    assert [] + [(startId, 0 as nat)] == [(startId, 0)];
  }

  lemma CollectedSound(
    g: Graph, opts: Options, startId: Id, level: map<Id, nat>, dist: seq<(Id, nat)>, nodes: map<Id, Node>)
    requires SoundLevels(Steps(g, opts), startId, opts.maxDepth, level)
    requires SoundQueue(Steps(g, opts), startId, opts.maxDepth, dist)
    requires Collected(g, opts, startId, level, dist, nodes)
    ensures forall v :: v in nodes ==> ReachesWithin(Steps(g, opts), startId, v, opts.maxDepth)
  {
    forall v | v in nodes ensures ReachesWithin(Steps(g, opts), startId, v, opts.maxDepth) {
      if v !in level {
        var i :| 0 <= i < |dist| && dist[i].0 == v;
      }
    }
  }

  lemma CollectedAll(
    g: Graph, opts: Options, startId: Id, order: seq<Id>, level: map<Id, nat>, nodes: map<Id, Node>, edges: seq<Edge>)
    requires Frontier(Steps(g, opts), startId, opts.maxDepth, level, [])
    requires Collected(g, opts, startId, level, [], nodes) && Tree(g, opts, startId, order, level, edges)
    ensures forall v :: v in nodes <==>
      ReachesWithin(Steps(g, opts), startId, v, opts.maxDepth) && (opts.includeStart || v != startId)
    ensures forall v :: v in order <==> v == startId || v in nodes
  {
    hide SoundLevels, SoundQueue, Fifo, Exhaustive, ReachesWithin;
    FrontierDone(Steps(g, opts), startId, opts.maxDepth, level);
    assert startId in level;
  }

  /** Whatever was visited above the limit has all its neighbours in the answer, and
      whatever is in the answer was visited or is such a neighbour. */
  ghost predicate NeighboursHeld(
    g: Graph, opts: Options, startId: Id, order: seq<Id>, level: map<Id, nat>, nodes: map<Id, Node>)
  {
    && (forall v :: v in order <==> v in level)
    && (forall v, w :: v in level && opts.maxDepth.Above(level[v]) && Steps(g, opts)(v, w) ==>
          w in nodes || (w == startId && !opts.includeStart))
    && (forall w :: w in nodes && w != startId && w !in level ==>
          exists v :: v in level && opts.maxDepth.Above(level[v]) && Steps(g, opts)(v, w))
  }

  lemma Neighbours(
    g: Graph, opts: Options, startId: Id, order: seq<Id>, level: map<Id, nat>, queue: seq<QueueItem>,
    dist: seq<(Id, nat)>, nodes: map<Id, Node>)
    requires Exhaustive(Steps(g, opts), opts.maxDepth, level, dist)
    requires SoundQueue(Steps(g, opts), startId, opts.maxDepth, dist)
    requires Collected(g, opts, startId, level, dist, nodes) && Consistent(g, opts, startId, level, queue, dist)
    requires forall v :: v in order <==> v in level
    ensures NeighboursHeld(g, opts, startId, order, level, nodes)
  {
    hide SoundQueue, Exhaustive, Collected, Consistent, Steps;
    forall v, w | v in level && opts.maxDepth.Above(level[v]) && Steps(g, opts)(v, w)
      ensures w in nodes || (w == startId && !opts.includeStart)
    {
      NeighbourIn(g, opts, startId, level, dist, nodes, v, w);
    }
    forall w | w in nodes && w != startId && w !in level
      ensures exists v :: v in level && opts.maxDepth.Above(level[v]) && Steps(g, opts)(v, w)
    {
      var v := NeighbourOf(g, opts, startId, level, queue, dist, nodes, w);
    }
  }

  lemma NeighbourIn(
    g: Graph, opts: Options, startId: Id, level: map<Id, nat>, dist: seq<(Id, nat)>, nodes: map<Id, Node>, v: Id,
    w: Id)
    requires Exhaustive(Steps(g, opts), opts.maxDepth, level, dist)
    requires Collected(g, opts, startId, level, dist, nodes)
    requires v in level && opts.maxDepth.Above(level[v]) && Steps(g, opts)(v, w)
    ensures w in nodes || (w == startId && !opts.includeStart)
  {
    assert Covered(level, dist, w, level[v] + 1);
  }

  lemma NeighbourOf(
    g: Graph, opts: Options, startId: Id, level: map<Id, nat>, queue: seq<QueueItem>, dist: seq<(Id, nat)>,
    nodes: map<Id, Node>, w: Id) returns (u: Id)
    requires SoundQueue(Steps(g, opts), startId, opts.maxDepth, dist)
    requires Collected(g, opts, startId, level, dist, nodes) && Consistent(g, opts, startId, level, queue, dist)
    requires w in nodes && w != startId && w !in level
    ensures u in level && opts.maxDepth.Above(level[u]) && Steps(g, opts)(u, w)
  {
    hide ReachIn, Steps, Hangs;
    var i :| 0 <= i < |dist| && dist[i].0 == w;
    assert ItemOk(g, opts, level, queue[i], dist[i]);
    u := HangsFrom(g, opts, level, queue[i].edge.value, w, queue[i].depth);
  }

  lemma HangsFrom(g: Graph, opts: Options, level: map<Id, nat>, e: Edge, v: Id, d: nat) returns (u: Id)
    requires Hangs(g, opts, level, e, v, d) && opts.maxDepth.Admits(d)
    ensures u in level && opts.maxDepth.Above(level[u]) && Steps(g, opts)(u, v)
  {
    u :| u in level && level[u] + 1 == d && StepVia(g, opts, u, e, v);
  }

  lemma TreeOrder(
    g: Graph, opts: Options, startId: Id, order: seq<Id>, level: map<Id, nat>, edges: seq<Edge>)
    requires Tree(g, opts, startId, order, level, edges)
    ensures forall v :: v in order <==> v in level
  {
  }

  /** What the search knows when it stops, by budget or by exhaustion. */
  lemma SearchDone(
    g: Graph, opts: Options, startId: Id, order: seq<Id>, level: map<Id, nat>,
    queue: seq<QueueItem>, dist: seq<(Id, nat)>, nodes: map<Id, Node>, edges: seq<Edge>)
    requires Searching(g, opts, startId, order, level, queue, dist, nodes, edges)
    ensures Tree(g, opts, startId, order, level, edges)
    ensures forall v :: v in nodes ==>
      v in g.nodes && nodes[v] == g.nodes[v] && ReachesWithin(Steps(g, opts), startId, v, opts.maxDepth)
    ensures forall v :: v in level ==> ReachIn(Steps(g, opts), startId, v, level[v])
    ensures forall v, k: nat :: v in level && ReachIn(Steps(g, opts), startId, v, k) ==> level[v] <= k
    ensures queue == [] ==> forall v :: v in nodes <==>
      ReachesWithin(Steps(g, opts), startId, v, opts.maxDepth) && (opts.includeStart || v != startId)
    ensures queue == [] ==> forall v :: v in order <==> v == startId || v in nodes
    ensures NeighboursHeld(g, opts, startId, order, level, nodes)
    ensures (order != [] ==> |edges| < |order|) && VisitedInTurn(order, edges)
  {
    LinedMeans(order, edges, queue);
    TreeOrder(g, opts, startId, order, level, edges);
    Neighbours(g, opts, startId, order, level, queue, dist, nodes);
    hide Fifo, Exhaustive, Covered, ReachesWithin, Lined, NeighboursHeld;
    LevelsMinimal(Steps(g, opts), startId, opts.maxDepth, level, dist);
    CollectedSound(g, opts, startId, level, dist, nodes);
    if queue == [] {
      CollectedAll(g, opts, startId, order, level, nodes, edges);
    }
  }

  /** The loop of `traverseBFS`: it stops when the queue is empty or the
      node budget is used up. */
  method Explore(g: Graph, startId: Id, opts: Options)
      returns (nodes: map<Id, Node>, edges: seq<Edge>, queue: seq<QueueItem>,
               ghost order: seq<Id>, ghost level: map<Id, nat>, ghost dist: seq<(Id, nat)>)
    requires startId in g.nodes
    ensures Searching(g, opts, startId, order, level, queue, dist, nodes, edges)
    ensures queue == [] || |nodes| >= opts.limit
  {
    hide *;
    var visited: set<Id> := {};
    queue := [QueueItem(g.nodes[startId], None, 0)];
    nodes := if opts.includeStart then map[startId := g.nodes[startId]] else map[];
    edges, order, level, dist := [], [], map[], [(startId, 0)];
    SearchInit(g, opts, startId);

    while |queue| > 0 && |nodes| < opts.limit
      invariant Searching(g, opts, startId, order, level, queue, dist, nodes, edges)
      invariant visited == level.Keys <= g.nodes.Keys
      decreases g.nodes.Keys - visited, |queue|
    {
      var item := queue[0];
      HeadOk(g, opts, startId, order, level, queue, dist, nodes, edges);
      if item.node.id in visited {
        SearchSkip(g, opts, startId, order, level, queue, dist, nodes, edges);
        queue, dist := queue[1..], dist[1..];
        continue;
      }
      visited := visited + {item.node.id};
      var found, nodes', extra := Discover(g, opts, item, visited, nodes);
      SearchVisit(g, opts, startId, order, level, queue, dist, nodes, edges, found, extra, nodes');
      edges := EdgesAfter(edges, item);
      queue, dist, nodes := queue[1..] + found, dist[1..] + extra, nodes';
      order, level := order + [item.node.id], level[item.node.id := item.depth];
    }
  }

  /** `traverseBFS`. Unless the node budget cuts it short, the result is
      exactly the nodes within `maxDepth` admissible steps of the start, and
      the edges are a spanning tree in which every node hangs at its distance
      from the start. */
  method TraverseBFS(g: Graph, startId: Id, opts: Options)
      returns (r: Subgraph, ghost order: seq<Id>, ghost level: map<Id, nat>)
    ensures startId !in g.nodes ==> r == Subgraph(map[], [], [])
    ensures startId in g.nodes ==> r.roots == [startId]
    ensures forall v :: v in r.nodes ==>
      v in g.nodes && r.nodes[v] == g.nodes[v] && ReachesWithin(Steps(g, opts), startId, v, opts.maxDepth)
    ensures startId in g.nodes && |r.nodes| < opts.limit ==>
      forall v :: v in r.nodes <==>
        ReachesWithin(Steps(g, opts), startId, v, opts.maxDepth) && (opts.includeStart || v != startId)
    ensures Tree(g, opts, startId, order, level, r.edges)
    ensures startId in g.nodes && |r.nodes| < opts.limit ==>
      forall v :: v in order <==> v == startId || v in r.nodes
    ensures forall v :: v in level ==> ReachIn(Steps(g, opts), startId, v, level[v])
    ensures forall v, k: nat :: v in level && ReachIn(Steps(g, opts), startId, v, k) ==> level[v] <= k
    ensures NeighboursHeld(g, opts, startId, order, level, r.nodes)
    ensures (order != [] ==> |r.edges| < |order|) && VisitedInTurn(order, r.edges)
  {
    if startId !in g.nodes {
      NothingVisited(g, opts, startId);
      return Subgraph(map[], [], []), [], map[];
    }
    hide Searching, Tree, ReachesWithin, ReachIn, NeighboursHeld, VisitedInTurn;
    var nodes, edges, queue;
    ghost var dist;
    nodes, edges, queue, order, level, dist := Explore(g, startId, opts);
    SearchDone(g, opts, startId, order, level, queue, dist, nodes, edges);
    r := Subgraph(nodes, edges, [startId]);
  }

  lemma NothingVisited(g: Graph, opts: Options, startId: Id)
    ensures NeighboursHeld(g, opts, startId, [], map[], map[]) && VisitedInTurn([], [])
  {
  }
}
