/** `getCallers` and `getCallees`: depth-first searches over the call-like
    edges that share one visited set, one run against and one along them. */
module CallGraph {
  import opened Wrappers
  import opened CodeGraph
  import opened Reach

  const CALL_KINDS: set<EdgeKind> :=
    {Calls, References, Imports, Instantiates, CrossLang, Produces, Consumes, Invokes}

  datatype Side = Callers | Callees

  /** A symbol found, with the edge it was found through. */
  datatype Found = Found(node: Node, edge: Edge)

  function Near(side: Side, e: Edge): Id {
    if side == Callers then e.target else e.source
  }

  function Far(side: Side, e: Edge): Id {
    if side == Callers then e.source else e.target
  }

  ghost predicate CallVia(g: Graph, side: Side, a: Id, e: Edge, b: Id) {
    e in g.edges && e.kind in CALL_KINDS && Near(side, e) == a && Far(side, e) == b && b in g.nodes
  }

  ghost function Steps(g: Graph, side: Side): (Id, Id) -> bool {
    (a, b) => exists e :: CallVia(g, side, a, e, b)
  }

  method Adjacency(g: Graph, side: Side, id: Id) returns (es: seq<Edge>)
    ensures IsAdjacency(g, side, id, es)
  {
    if side == Callers {
      es := GetIncomingEdges(g, id, CALL_KINDS);
    } else {
      es := GetOutgoingEdges(g, id, CALL_KINDS);
    }
    assert forall e :: multiset(es)[e] > 0 <==> e in es;
  }

  ghost predicate IsAdjacency(g: Graph, side: Side, id: Id, es: seq<Edge>) {
    && (forall e :: e in es <==> e in g.edges && e.kind in CALL_KINDS && Near(side, e) == id)
    && (forall e :: multiset(es)[e] == if e in es then g.edges[e] else 0)
  }

  /** The entry is a real call edge out of a symbol `k - 1` calls from the
      root, for some `k` within the depth limit. */
  ghost predicate Sound(g: Graph, side: Side, root: Id, bound: Bound, x: Found) {
    exists k: nat ::
      && bound.Above(k)
      && ReachIn(Steps(g, side), root, Near(side, x.edge), k)
      && CallVia(g, side, Near(side, x.edge), x.edge, x.node.id)
      && g.nodes[x.node.id] == x.node
  }

  ghost predicate AllSound(g: Graph, side: Side, root: Id, bound: Bound, result: seq<Found>) {
    forall i :: 0 <= i < |result| ==> Sound(g, side, root, bound, result[i])
  }

  lemma SoundPush(g: Graph, side: Side, root: Id, bound: Bound, result: seq<Found>, e: Edge, depth: nat)
    requires AllSound(g, side, root, bound, result) && bound.Above(depth)
    requires ReachIn(Steps(g, side), root, Near(side, e), depth)
    requires e in g.edges && e.kind in CALL_KINDS && Far(side, e) in g.nodes
    ensures AllSound(g, side, root, bound, result + [Found(g.nodes[Far(side, e)], e)])
    ensures ReachIn(Steps(g, side), root, Far(side, e), depth + 1)
  {
    hide ReachIn;
    assert CallVia(g, side, Near(side, e), e, Far(side, e)) && Steps(g, side)(Near(side, e), Far(side, e));
    ReachExtend(Steps(g, side), root, Near(side, e), Far(side, e), depth);
    assert Sound(g, side, root, bound, Found(g.nodes[Far(side, e)], e));
  }

  /** The depth limit is at least the number of symbols. */
  ghost predicate Roomy(g: Graph, root: Id, bound: Bound) {
    forall d: nat :: d < |g.nodes.Keys + {root}| ==> bound.Above(d)
  }

  ghost predicate Lists(result: seq<Found>, v: Id) {
    exists i :: 0 <= i < |result| && result[i].node.id == v
  }

  /** Each symbol of `s` other than the root is listed exactly once. */
  ghost predicate Listing(result: seq<Found>, s: set<Id>, root: Id) {
    && (forall i, j :: 0 <= i < j < |result| ==> result[i].node.id != result[j].node.id)
    && (forall v :: Lists(result, v) <==> v in s && v != root)
  }

  lemma ListingPush(result: seq<Found>, s: set<Id>, root: Id, x: Found)
    requires Listing(result, s, root) && x.node.id !in s && x.node.id != root
    ensures Listing(result + [x], s + {x.node.id}, root)
  {
    var next := result + [x];
    assert !Lists(result, x.node.id);
    forall v ensures Lists(next, v) <==> Lists(result, v) || v == x.node.id {
      assert next[|result|] == x;
      if Lists(result, v) {
        var i :| 0 <= i < |result| && result[i].node.id == v;
        assert next[i] == result[i];
      }
    }
    forall i | 0 <= i < |result| ensures next[i].node.id != x.node.id {
      assert Lists(result, result[i].node.id);
    }
  }

  /** What edge `e` contributes at the last level: its far end, when that
      symbol exists and is not yet visited. */
  ghost function DirectOne(g: Graph, side: Side, visited: set<Id>, e: Edge): seq<Found> {
    if Far(side, e) in g.nodes && Far(side, e) !in visited then [Found(g.nodes[Far(side, e)], e)] else []
  }

  /** What the first `n` edges contribute at the last level. */
  ghost function Direct(g: Graph, side: Side, visited: set<Id>, es: seq<Edge>, n: nat): seq<Found>
    requires n <= |es|
  {
    if n == 0 then [] else Direct(g, side, visited, es, n - 1) + DirectOne(g, side, visited, es[n - 1])
  }

  /** `x` is the row at the far end of its edge, and not visited. */
  ghost predicate Fresh(g: Graph, side: Side, visited: set<Id>, x: Found) {
    x.node.id == Far(side, x.edge) && x.node.id in g.nodes && g.nodes[x.node.id] == x.node && x.node.id !in visited
  }

  lemma DirectOneCounts(g: Graph, side: Side, visited: set<Id>, e: Edge, x: Found)
    ensures multiset(DirectOne(g, side, visited, e))[x] == if Fresh(g, side, visited, x) && x.edge == e then 1 else 0
  {
  }

  lemma {:induction false} DirectCounts(g: Graph, side: Side, visited: set<Id>, es: seq<Edge>, n: nat, x: Found)
    requires n <= |es|
    ensures multiset(Direct(g, side, visited, es, n))[x] ==
      if Fresh(g, side, visited, x) then multiset(es[..n])[x.edge] else 0
  {
    hide Fresh, DirectOne;
    if n > 0 {
      DirectCounts(g, side, visited, es, n - 1, x);
      DirectOneCounts(g, side, visited, es[n - 1], x);
      assert es[..n] == es[..n - 1] + [es[n - 1]];
    }
  }

  lemma DirectNext(g: Graph, side: Side, visited: set<Id>, es: seq<Edge>, n: nat, before: seq<Found>)
    ensures before + Direct(g, side, visited, es, 0) == before
    ensures n < |es| ==>
      (before + Direct(g, side, visited, es, n + 1) ==
       before + Direct(g, side, visited, es, n) + DirectOne(g, side, visited, es[n]))
  {
  }

  /** The far ends of the first `n` edges that exist. */
  ghost function FarEnds(g: Graph, side: Side, es: seq<Edge>, n: nat): set<Id> {
    set i | 0 <= i < n && i < |es| && Far(side, es[i]) in g.nodes :: Far(side, es[i])
  }

  lemma FarEndsNext(g: Graph, side: Side, es: seq<Edge>, n: nat)
    requires n < |es|
    ensures FarEnds(g, side, es, n + 1) ==
      FarEnds(g, side, es, n) + if Far(side, es[n]) in g.nodes then {Far(side, es[n])} else {}
  {
  }

  // ---- levels --------------------------------------------------------------------------

  /** Everything one call from `v` is listed. */
  ghost predicate Covered(g: Graph, side: Side, root: Id, result: seq<Found>, v: Id) {
    forall w :: Steps(g, side)(v, w) ==> w == root || Lists(result, w)
  }

  /** The entry was found from an expanded symbol, and is expanded itself unless
      that would be beyond the limit. */
  ghost predicate Placed(side: Side, bound: Bound, level: map<Id, nat>, x: Found) {
    Near(side, x.edge) in level && (x.node.id in level || !bound.Above(level[Near(side, x.edge)] + 1))
  }

  /** Some entry brought `v` in, one level below the symbol it was found from. */
  ghost predicate BroughtBy(side: Side, result: seq<Found>, level: map<Id, nat>, v: Id) {
    exists i :: 0 <= i < |result| && result[i].node.id == v && v in level && Near(side, result[i].edge) in level
                && level[v] == level[Near(side, result[i].edge)] + 1
  }

  /** The levels of the expanded symbols in the middle of the search. */
  ghost predicate Levels(side: Side, root: Id, bound: Bound, result: seq<Found>, level: map<Id, nat>) {
    && (level != map[] ==> root in level && level[root] == 0)
    && (forall v :: v in level ==> bound.Above(level[v]))
    && (forall v :: v in level && v != root ==> BroughtBy(side, result, level, v))
  }

  ghost function Uncovered(g: Graph, side: Side, root: Id, result: seq<Found>, visited: set<Id>): set<Id> {
    set v | v in visited && !Covered(g, side, root, result, v)
  }

  ghost function Unplaced(side: Side, bound: Bound, result: seq<Found>, level: map<Id, nat>): set<nat> {
    set i: nat | i < |result| && !Placed(side, bound, level, result[i])
  }

  /** The levels of an answer: the root at 0 if there is any depth at all; whatever
      has a level lies above the limit, was brought in by an entry from one level
      higher, and has everything one call away listed; and each entry was found from
      one of these, and is one itself unless the limit forbids it. */
  ghost predicate Labelling(
    g: Graph, side: Side, root: Id, bound: Bound, result: seq<Found>, level: map<Id, nat>)
  {
    && (bound.Above(0) ==> root in level && level[root] == 0)
    && (forall v :: v in level ==> bound.Above(level[v]) && Covered(g, side, root, result, v))
    && (forall v :: v in level && v != root ==> BroughtBy(side, result, level, v))
    && (forall i :: 0 <= i < |result| ==> Placed(side, bound, level, result[i]))
  }

  /** Everything one call from the root is listed, whatever the limit, if there is
      any depth at all. */
  lemma NearestListed(g: Graph, side: Side, root: Id, bound: Bound, result: seq<Found>, level: map<Id, nat>)
    requires Labelling(g, side, root, bound, result, level) && bound.Above(0)
    ensures forall w :: Steps(g, side)(root, w) ==> w == root || Lists(result, w)
  {
    assert Covered(g, side, root, result, root);
  }

  /** The symbol lies above the limit on some chain of calls. */
  ghost predicate LiesNearer(g: Graph, side: Side, root: Id, bound: Bound, v: Id) {
    exists k: nat :: bound.Above(k) && ReachIn(Steps(g, side), root, v, k)
  }

  /** The symbol is within the limit. */
  ghost predicate InRange(g: Graph, side: Side, root: Id, bound: Bound, v: Id) {
    v == root || exists k: nat :: bound.Above(k) && ReachIn(Steps(g, side), root, v, k + 1)
  }

  /** Everything within the limit is listed exactly when each symbol that was met at
      the limit, although it also lies nearer, has all its calls listed: a symbol is
      expanded where it is first met, not where it is nearest. */
  lemma CompleteIff(g: Graph, side: Side, root: Id, bound: Bound, result: seq<Found>, level: map<Id, nat>)
    requires Labelling(g, side, root, bound, result, level)
    ensures (forall v :: InRange(g, side, root, bound, v) ==> v == root || Lists(result, v)) <==>
      forall v :: Lists(result, v) && v !in level && LiesNearer(g, side, root, bound, v) ==>
        Covered(g, side, root, result, v)
  {
    hide Lists, ReachIn, Steps, Labelling, Covered;
    if forall v :: InRange(g, side, root, bound, v) ==> v == root || Lists(result, v) {
      forall v | LiesNearer(g, side, root, bound, v) ensures Covered(g, side, root, result, v) {
        NearerCovered(g, side, root, bound, result, v);
      }
    }
    if forall v :: Lists(result, v) && v !in level && LiesNearer(g, side, root, bound, v) ==>
        Covered(g, side, root, result, v)
    {
      forall v | InRange(g, side, root, bound, v) ensures v == root || Lists(result, v) {
        if v != root {
          var k: nat :| bound.Above(k) && ReachIn(Steps(g, side), root, v, k + 1);
          WalkListed(g, side, root, bound, result, level, v, k + 1);
        }
      }
    }
  }

  lemma NearerCovered(g: Graph, side: Side, root: Id, bound: Bound, result: seq<Found>, v: Id)
    requires LiesNearer(g, side, root, bound, v)
    requires forall w :: InRange(g, side, root, bound, w) ==> w == root || Lists(result, w)
    ensures Covered(g, side, root, result, v)
  {
    hide Lists, ReachIn;
    var k: nat :| bound.Above(k) && ReachIn(Steps(g, side), root, v, k);
    forall w | Steps(g, side)(v, w) ensures w == root || Lists(result, w) {
      ReachExtend(Steps(g, side), root, v, w, k);
      assert InRange(g, side, root, bound, w);
    }
  }

  lemma {:induction false} WalkListed(
    g: Graph, side: Side, root: Id, bound: Bound, result: seq<Found>, level: map<Id, nat>, v: Id, k: nat)
    requires Labelling(g, side, root, bound, result, level)
    requires ReachIn(Steps(g, side), root, v, k) && (k == 0 || bound.Above(k - 1))
    requires forall u :: Lists(result, u) && u !in level && LiesNearer(g, side, root, bound, u) ==>
      Covered(g, side, root, result, u)
    ensures v == root || Lists(result, v)
    decreases k
  {
    hide Lists, ReachIn, Steps;
    if k == 0 {
      ReachZero(Steps(g, side), root, v);
    } else {
      var m := ReachLast(Steps(g, side), root, v, k);
      WalkListed(g, side, root, bound, result, level, m, k - 1);
      assert LiesNearer(g, side, root, bound, m);
      assert Covered(g, side, root, result, m);
    }
  }

  lemma LevelsPush(
    g: Graph, side: Side, root: Id, bound: Bound, result: seq<Found>, visited: set<Id>, level: map<Id, nat>, x: Found)
    requires Levels(side, root, bound, result, level)
    ensures Levels(side, root, bound, result + [x], level)
    ensures Uncovered(g, side, root, result + [x], visited) <= Uncovered(g, side, root, result, visited)
    ensures Unplaced(side, bound, result + [x], level) <= Unplaced(side, bound, result, level) + {|result|}
    ensures Lists(result + [x], x.node.id) && forall v :: Lists(result, v) ==> Lists(result + [x], v)
  {
    hide Steps, Placed;
    var next := result + [x];
    assert next[|result|] == x && forall i :: 0 <= i < |result| ==> next[i] == result[i];
    forall v | Lists(result, v) ensures Lists(next, v) {
      var i :| 0 <= i < |result| && result[i].node.id == v;
      assert next[i].node.id == v;
    }
    forall v | v in level && v != root ensures BroughtBy(side, next, level, v) {
      var i :| 0 <= i < |result| && result[i].node.id == v && v in level && Near(side, result[i].edge) in level
        && level[v] == level[Near(side, result[i].edge)] + 1;
      assert next[i] == result[i];
    }
  }

  lemma LevelsVisit(
    g: Graph, side: Side, root: Id, bound: Bound, result: seq<Found>, visited: set<Id>, level: map<Id, nat>, id: Id,
    d: nat)
    requires Levels(side, root, bound, result, level) && level.Keys == visited && id !in visited && bound.Above(d)
    requires if level == map[] then id == root && d == 0
             else exists i :: 0 <= i < |result| && result[i].node.id == id && Near(side, result[i].edge) in level
                              && d == level[Near(side, result[i].edge)] + 1
    ensures Levels(side, root, bound, result, level[id := d])
    ensures Uncovered(g, side, root, result, visited + {id}) <= Uncovered(g, side, root, result, visited) + {id}
    ensures Unplaced(side, bound, result, level[id := d]) <= Unplaced(side, bound, result, level)
  {
    hide Covered;
    var level' := level[id := d];
    forall v | v in level' && v != root ensures BroughtBy(side, result, level', v) {
      if v == id {
        var i :| 0 <= i < |result| && result[i].node.id == id && Near(side, result[i].edge) in level
          && d == level[Near(side, result[i].edge)] + 1;
        assert level'[v] == level'[Near(side, result[i].edge)] + 1;
      } else {
        assert BroughtBy(side, result, level, v);
        var i :| 0 <= i < |result| && result[i].node.id == v && v in level && Near(side, result[i].edge) in level
          && level[v] == level[Near(side, result[i].edge)] + 1;
        assert level'[v] == level'[Near(side, result[i].edge)] + 1;
      }
    }
  }

  lemma LevelsListed(side: Side, root: Id, bound: Bound, result: seq<Found>, level: map<Id, nat>, v: Id)
    requires Levels(side, root, bound, result, level)
    ensures v in level ==> v == root || Lists(result, v)
  {
  }

  lemma ListsAt(result: seq<Found>, i: nat)
    requires i < |result|
    ensures Lists(result, result[i].node.id)
  {
  }

  lemma ListsMore(result: seq<Found>, more: seq<Found>)
    requires result <= more
    ensures forall v :: Lists(result, v) ==> Lists(more, v)
  {
    forall v | Lists(result, v) ensures Lists(more, v) {
      var i :| 0 <= i < |result| && result[i].node.id == v;
      assert more[i] == result[i];
    }
  }

  /** The last entry is placed once it is expanded or at the limit. */
  lemma LastPlaced(side: Side, bound: Bound, result: seq<Found>, level: map<Id, nat>, i: nat)
    requires i < |result| && Placed(side, bound, level, result[i])
    ensures i !in Unplaced(side, bound, result, level)
  {
  }

  lemma LevelsDone(
    g: Graph, side: Side, root: Id, bound: Bound, result: seq<Found>, visited: set<Id>, level: map<Id, nat>)
    requires Levels(side, root, bound, result, level) && level.Keys == visited
    requires bound.Above(0) ==> root in visited
    requires Uncovered(g, side, root, result, visited) == {} && Unplaced(side, bound, result, level) == {}
    ensures Labelling(g, side, root, bound, result, level)
  {
    hide Covered, Placed;
    forall v | v in level ensures Covered(g, side, root, result, v) {
      assert v !in Uncovered(g, side, root, result, visited);
    }
    forall i | 0 <= i < |result| ensures Placed(side, bound, level, result[i]) {
      assert i !in Unplaced(side, bound, result, level);
    }
  }

  lemma CoveredBy(g: Graph, side: Side, root: Id, id: Id, es: seq<Edge>, result: seq<Found>, visited: set<Id>)
    requires IsAdjacency(g, side, id, es)
    requires forall w :: w in FarEnds(g, side, es, |es|) ==> w == root || Lists(result, w)
    ensures id !in Uncovered(g, side, root, result, visited)
  {
    hide Lists;
    forall w | Steps(g, side)(id, w) ensures w == root || Lists(result, w) {
      var e :| CallVia(g, side, id, e, w);
      var i :| 0 <= i < |es| && es[i] == e;
      assert w in FarEnds(g, side, es, |es|);
    }
  }

  class CallSearch {
    const g: Graph
    const side: Side
    const root: Id
    const bound: Bound
    var visited: set<Id>
    var result: seq<Found>
    ghost var level: map<Id, nat>

    constructor (g: Graph, side: Side, root: Id, bound: Bound)
      ensures this.g == g && this.side == side && this.root == root && this.bound == bound
      ensures visited == {} && result == [] && level == map[]
    {
      this.g, this.side, this.root, this.bound := g, side, root, bound;
      visited, result, level := {}, [], map[];
    }

    ghost function Universe(): set<Id> { g.nodes.Keys + {root} }

    ghost predicate Valid() reads this {
      && visited <= Universe()
      && (visited != {} ==> root in visited)
      && level.Keys == visited && Levels(side, root, bound, result, level)
      && AllSound(g, side, root, bound, result)
    }

    /** The search only adds, and settles what it adds. */
    twostate predicate Settles() reads this {
      && old(result) <= result
      && (forall v :: v in old(level) ==> v in level && level[v] == old(level)[v])
      && Uncovered(g, side, root, result, visited) <= old(Uncovered(g, side, root, result, visited))
      && Unplaced(side, bound, result, level) <= old(Unplaced(side, bound, result, level))
    }

    /** The last entry leads here. */
    ghost predicate JustFound(id: Id, depth: nat) reads this {
      if visited == {} then id == root && depth == 0
      else
        && result != [] && result[|result| - 1].node.id == id && Near(side, result[|result| - 1].edge) in level
        && depth == level[Near(side, result[|result| - 1].edge)] + 1
    }

    /** The recursive search from one unvisited symbol. */
    method Visit(id: Id, depth: nat) returns (ghost es: seq<Edge>)
      requires Valid() && id in Universe() && id !in visited
      requires JustFound(id, depth)
      requires ReachIn(Steps(g, side), root, id, depth)
      requires Roomy(g, root, bound) ==> depth <= |visited| && Listing(result, visited + {id}, root)
      modifies this
      ensures Valid() && old(visited) <= visited && |old(visited)| <= |visited|
      ensures Settles() && (bound.Above(depth) ==> id in visited)
      ensures !bound.Above(depth) ==> visited == old(visited) && result == old(result)
      ensures bound.Above(depth) && !bound.Above(depth + 1) ==>
        IsAdjacency(g, side, id, es) && result == old(result) + Direct(g, side, old(visited) + {id}, es, |es|)
      ensures Roomy(g, root, bound) ==> Listing(result, visited, root)
      decreases Universe() - visited, 0
    {
      hide AllSound, Listing, Lists, ReachIn, Steps, Roomy, Direct, IsAdjacency, Levels, Uncovered, Unplaced;
      if Roomy(g, root, bound) {
        RoomyAbove(g, root, bound, visited, id, depth);
      }
      es := [];
      if !bound.Above(depth) || id in visited {
        return;
      }
      LevelsVisit(g, side, root, bound, result, visited, level, id, depth);
      visited := visited + {id};
      level := level[id := depth];
      es := Expand(id, depth);
      SubsetSize(old(visited), visited);
    }

    /** Follow every edge out of a symbol just marked visited. */
    method Expand(id: Id, depth: nat) returns (ghost es: seq<Edge>)
      requires Valid() && id in visited && bound.Above(depth)
      requires ReachIn(Steps(g, side), root, id, depth)
      requires Roomy(g, root, bound) ==> depth + 1 <= |visited| && Listing(result, visited, root)
      requires level[id] == depth
      modifies this
      ensures Valid() && old(visited) <= visited
      ensures Settles() && id !in Uncovered(g, side, root, result, visited)
      ensures IsAdjacency(g, side, id, es)
      ensures !bound.Above(depth + 1) ==>
        visited == old(visited) && result == old(result) + Direct(g, side, old(visited), es, |es|)
      ensures Roomy(g, root, bound) ==> Listing(result, visited, root)
      decreases Universe() - visited, 2
    {
      hide AllSound, Listing, Lists, ReachIn, Steps, Roomy, Direct, DirectOne, IsAdjacency, FarEnds, Levels, Uncovered,
        Unplaced;
      var edges := Adjacency(g, side, id);
      var nodes := NodesByIds(g, set e | e in edges :: Far(side, e));
      es := edges;
      Looked(g, side, id, es);
      DirectNext(g, side, visited, es, 0, result);
      for i := 0 to |edges|
        invariant Valid() && old(visited) <= visited
        invariant Roomy(g, root, bound) ==> depth + 1 <= |visited| && Listing(result, visited, root)
        invariant !bound.Above(depth + 1) ==>
          visited == old(visited) && result == old(result) + Direct(g, side, old(visited), es, i)
        invariant Settles() && forall w :: w in FarEnds(g, side, es, i) ==> w == root || Lists(result, w)
      {
        DirectNext(g, side, old(visited), es, i, old(result));
        FarEndsNext(g, side, es, i);
        ghost var before := result;
        Follow(id, depth, edges[i], nodes);
        ListsMore(before, result);
      }
      CoveredBy(g, side, root, id, es, result, visited);
    }

    /** One edge out of a visited symbol: list its far end, unless missing or
        visited, and search on from it. */
    method Follow(id: Id, depth: nat, e: Edge, nodes: map<Id, Node>)
      requires Valid() && id in visited && bound.Above(depth)
      requires ReachIn(Steps(g, side), root, id, depth)
      requires e in g.edges && e.kind in CALL_KINDS && Near(side, e) == id
      requires if Far(side, e) in g.nodes then Far(side, e) in nodes && nodes[Far(side, e)] == g.nodes[Far(side, e)]
               else Far(side, e) !in nodes
      requires Roomy(g, root, bound) ==> depth + 1 <= |visited| && Listing(result, visited, root)
      requires level[id] == depth
      modifies this
      ensures Valid() && old(visited) <= visited && |old(visited)| <= |visited|
      ensures Settles() && (Far(side, e) in g.nodes ==> Far(side, e) == root || Lists(result, Far(side, e)))
      ensures !bound.Above(depth + 1) ==>
        visited == old(visited) && result == old(result) + DirectOne(g, side, visited, e)
      ensures Roomy(g, root, bound) ==> Listing(result, visited, root)
      decreases Universe() - visited, 1
    {
      hide AllSound, Listing, Lists, ReachIn, Steps, Roomy, IsAdjacency, Direct, Levels, Uncovered, Unplaced;
      var far := Far(side, e);
      if far in nodes && far !in visited {
        var found := Found(nodes[far], e);
        SoundPush(g, side, root, bound, result, e, depth);
        if Roomy(g, root, bound) {
          ListingPush(result, visited, root, found);
        }
        LevelsPush(g, side, root, bound, result, visited, level, found);
        ghost var last := |result|;
        result := result + [found];
        ghost var beyond := Visit(far, depth + 1);
        assert result[last] == found;
        LastPlaced(side, bound, result, level, last);
        ListsAt(result, last);
      } else {
        LevelsListed(side, root, bound, result, level, far);
      }
    }
  }

  lemma Looked(g: Graph, side: Side, id: Id, es: seq<Edge>)
    requires IsAdjacency(g, side, id, es)
    ensures FarEnds(g, side, es, 0) == {}
    ensures forall i :: 0 <= i < |es| ==> es[i] in g.edges && es[i].kind in CALL_KINDS && Near(side, es[i]) == id
    ensures var nodes := NodesByIds(g, set e | e in es :: Far(side, e));
      forall i :: 0 <= i < |es| ==>
        if Far(side, es[i]) in g.nodes
        then Far(side, es[i]) in nodes && nodes[Far(side, es[i])] == g.nodes[Far(side, es[i])]
        else Far(side, es[i]) !in nodes
  {
  }

  lemma RoomyAbove(g: Graph, root: Id, bound: Bound, visited: set<Id>, id: Id, depth: nat)
    requires Roomy(g, root, bound)
    requires visited <= g.nodes.Keys + {root} && id in g.nodes.Keys + {root} && id !in visited
    requires depth <= |visited|
    ensures bound.Above(depth) && depth + 1 <= |visited + {id}|
  {
    SubsetSize(visited + {id}, g.nodes.Keys + {root});
  }

  /** How often a depth-1 answer for `id` holds `x`: once per edge row, when
      the edge joins `id` to another existing symbol. */
  ghost function Occurrences(g: Graph, side: Side, id: Id, x: Found): nat {
    if Fresh(g, side, {id}, x) && x.edge.kind in CALL_KINDS && Near(side, x.edge) == id then g.edges[x.edge] else 0
  }

  lemma DirectAnswer(g: Graph, side: Side, id: Id, visited: set<Id>, es: seq<Edge>, result: seq<Found>)
    requires visited == {id}
    requires IsAdjacency(g, side, id, es) && result == [] + Direct(g, side, visited, es, |es|)
    ensures forall x :: multiset(result)[x] == Occurrences(g, side, id, x)
  {
    forall x ensures multiset(result)[x] == Occurrences(g, side, id, x) {
      DirectCounts(g, side, {id}, es, |es|, x);
      assert es[..|es|] == es;
    }
  }

  lemma NothingYet(g: Graph, side: Side, root: Id, bound: Bound)
    ensures Levels(side, root, bound, [], map[])
    ensures Uncovered(g, side, root, [], {}) == {} && Unplaced(side, bound, [], map[]) == {}
  {
  }

  lemma NothingListed(root: Id)
    ensures Listing([], {} + {root}, root)
  {
  }

  /** When exactly the visited symbols are listed the visited set is closed. */
  lemma CoveredIsClosed(
    g: Graph, side: Side, root: Id, bound: Bound, result: seq<Found>, level: map<Id, nat>, visited: set<Id>)
    requires Labelling(g, side, root, bound, result, level) && level.Keys == visited
    requires Listing(result, visited, root) && root in visited
    ensures Closed(Steps(g, side), visited)
  {
    hide Steps, Lists;
    forall v, w | v in visited && Steps(g, side)(v, w) ensures w in visited {
      assert Covered(g, side, root, result, v);
    }
  }

  lemma ClosureAnswer(g: Graph, side: Side, id: Id, bound: Bound, result: seq<Found>, visited: set<Id>)
    requires forall i :: 0 <= i < |result| ==> Sound(g, side, id, bound, result[i])
    requires id in visited && Listing(result, visited, id) && Closed(Steps(g, side), visited)
    ensures forall v :: Lists(result, v) <==> v != id && Reaches(Steps(g, side), id, v)
  {
    forall v | Lists(result, v)
      ensures Reaches(Steps(g, side), id, v)
    {
      var i :| 0 <= i < |result| && result[i].node.id == v;
      var e := result[i].edge;
      var k: nat :| ReachIn(Steps(g, side), id, Near(side, e), k) && CallVia(g, side, Near(side, e), e, v);
      ReachExtend(Steps(g, side), id, Near(side, e), v, k);
    }
    forall v | Reaches(Steps(g, side), id, v)
      ensures v in visited
    {
      var k: nat :| ReachIn(Steps(g, side), id, v, k);
      ClosedReach(Steps(g, side), visited, id, v, k);
    }
  }

  /** `getCallers` (side `Callers`) and `getCallees` (side `Callees`). At any
      depth every entry is a real call edge in range, and whatever was expanded
      above the limit has everything one call away listed; at depth 1 the answer is
      every edge row to another symbol; with the limit at least the number of
      symbols it is the transitive closure, each symbol once. */
  method GetCalls(g: Graph, side: Side, id: Id, bound: Bound) returns (r: seq<Found>, ghost level: map<Id, nat>)
    ensures forall i :: 0 <= i < |r| ==> Sound(g, side, id, bound, r[i])
    ensures Labelling(g, side, id, bound, r, level)
    ensures bound == AtMost(1) ==> forall x :: multiset(r)[x] == Occurrences(g, side, id, x)
    ensures Roomy(g, id, bound) ==> forall i, j :: 0 <= i < j < |r| ==> r[i].node.id != r[j].node.id
    ensures Roomy(g, id, bound) ==> forall v :: Lists(r, v) <==> v != id && Reaches(Steps(g, side), id, v)
  {
    hide Direct, IsAdjacency, Occurrences, Reaches, ReachesWithin, Sound, Lists, Closed, ReachIn, Levels, Uncovered,
      Unplaced, Labelling;
    assert ReachIn(Steps(g, side), id, id, 0) by { ReachSelf(Steps(g, side), id); }
    assert Listing([], {} + {id}, id) by { NothingListed(id); }
    var search := new CallSearch(g, side, id, bound);
    NothingYet(g, side, id, bound);
    ghost var es := search.Visit(id, 0);
    r, level := search.result, search.level;
    LevelsDone(g, side, id, bound, r, search.visited, level);
    if bound == AtMost(1) {
      DirectAnswer(g, side, id, {} + {id}, es, r);
    }
    if Roomy(g, id, bound) {
      CoveredIsClosed(g, side, id, bound, r, level, search.visited);
      ClosureAnswer(g, side, id, bound, r, search.visited);
    }
  }

  /** Callers and callees are inverses of each other, edge row by edge row at
      depth 1 and as closures over any distance. */
  lemma CallersCalleesConverse(g: Graph, n: Id, m: Id)
    requires n in g.nodes && m in g.nodes
    ensures forall e ::
      Occurrences(g, Callers, n, Found(g.nodes[m], e)) == Occurrences(g, Callees, m, Found(g.nodes[n], e))
    ensures Reaches(Steps(g, Callers), n, m) <==> Reaches(Steps(g, Callees), m, n)
  {
    hide ReachIn;
    if Reaches(Steps(g, Callers), n, m) {
      var k: nat :| ReachIn(Steps(g, Callers), n, m, k);
      TurnAround(g, Callers, n, m, k);
    }
    if Reaches(Steps(g, Callees), m, n) {
      var k: nat :| ReachIn(Steps(g, Callees), m, n, k);
      TurnAround(g, Callees, m, n, k);
    }
  }

  function Other(side: Side): Side {
    if side == Callers then Callees else Callers
  }

  lemma {:induction false} TurnAround(g: Graph, side: Side, a: Id, b: Id, k: nat)
    requires a in g.nodes && ReachIn(Steps(g, side), a, b, k)
    ensures b in g.nodes && ReachIn(Steps(g, Other(side)), b, a, k)
    decreases k
  {
    hide ReachIn;
    if k == 0 {
      ReachZero(Steps(g, side), a, b);
      ReachSelf(Steps(g, Other(side)), b);
    } else {
      var m := ReachLast(Steps(g, side), a, b, k);
      TurnAround(g, side, a, m, k - 1);
      var e :| CallVia(g, side, m, e, b);
      assert CallVia(g, Other(side), b, e, m);
      ReachPrepend(Steps(g, Other(side)), b, m, a, k - 1);
    }
  }
}
