/** `getImpactRadius`: everything that could be affected by changing a symbol,
    found by a depth-first search that opens containers into their members
    without spending depth, and that reports what the depth limit left out. */
module Impact {
  import opened Wrappers
  import opened CodeGraph
  import opened Reach

  const CONTAINER_KINDS: set<NodeKind> := {Class, Interface, Struct, Trait, Protocol, Module, Enum}

  /** `s` depends on `v` through `e`. */
  ghost predicate DependsVia(g: Graph, v: Id, e: Edge, s: Id) {
    e in g.edges && e.kind != Contains && e.target == v && e.source == s
  }

  /** `c` is an existing member of the container `v` through `e`. */
  ghost predicate MemberVia(g: Graph, v: Id, e: Edge, c: Id) {
    && v in g.nodes && g.nodes[v].kind in CONTAINER_KINDS
    && e in g.edges && e.kind == Contains && e.source == v && e.target == c && c in g.nodes
  }

  ghost predicate Dependent(g: Graph, v: Id, s: Id) {
    s in g.nodes && exists e :: DependsVia(g, v, e, s)
  }

  ghost predicate Member(g: Graph, v: Id, c: Id) {
    exists e :: MemberVia(g, v, e, c)
  }

  ghost function DependentSteps(g: Graph): (Id, Id) -> bool {
    (v, s) => Dependent(g, v, s)
  }

  /** From a symbol to its dependents, and from a container to its members. */
  ghost function ImpactSteps(g: Graph): (Id, Id) -> bool {
    (v, w) => Dependent(g, v, w) || Member(g, v, w)
  }

  /** The same with the depth counted: only dependents cost a level, and
      nothing is expanded at the limit. */
  ghost predicate CountedStep(g: Graph, bound: Bound, a: (Id, nat), b: (Id, nat)) {
    bound.Above(a.1) && ((Dependent(g, a.0, b.0) && b.1 == a.1 + 1) || (Member(g, a.0, b.0) && b.1 == a.1))
  }

  ghost function CountedSteps(g: Graph, bound: Bound): ((Id, nat), (Id, nat)) -> bool {
    (a, b) => CountedStep(g, bound, a, b)
  }

  ghost predicate At(g: Graph, bound: Bound, focal: Id, v: Id, d: nat) {
    Reaches(CountedSteps(g, bound), (focal, 0), (v, d))
  }

  /** Reachable without expanding anything at the depth limit. */
  ghost predicate InRange(g: Graph, bound: Bound, focal: Id, v: Id) {
    exists d: nat :: At(g, bound, focal, v, d)
  }

  lemma AtFocal(g: Graph, bound: Bound, focal: Id)
    ensures At(g, bound, focal, focal, 0)
  {
    ReachSelf(CountedSteps(g, bound), (focal, 0 as nat));
  }

  /** One step along an edge, from what it is opened from to what it opens. */
  lemma AtVia(g: Graph, bound: Bound, focal: Id, v: Id, d: nat, e: Edge, w: Id)
    requires At(g, bound, focal, v, d) && bound.Above(d) && w in g.nodes
    requires if e.kind == Contains then MemberVia(g, v, e, w) else DependsVia(g, v, e, w)
    ensures At(g, bound, focal, w, LevelVia(e, d)) && Opener(e) == v && Opened(e) == w && e in g.edges
  {
    AtNext(g, bound, focal, v, d, w, LevelVia(e, d));
  }

  lemma AtNext(g: Graph, bound: Bound, focal: Id, v: Id, d: nat, w: Id, d': nat)
    requires At(g, bound, focal, v, d) && CountedStep(g, bound, (v, d), (w, d'))
    ensures At(g, bound, focal, w, d')
  {
    var k: nat :| ReachIn(CountedSteps(g, bound), (focal, 0), (v, d), k);
    ReachExtend(CountedSteps(g, bound), (focal, 0 as nat), (v, d), (w, d'), k);
  }

  lemma {:induction false} CountedIsImpact(g: Graph, bound: Bound, focal: Id, v: Id, d: nat, k: nat)
    requires ReachIn(CountedSteps(g, bound), (focal, 0), (v, d), k)
    ensures ReachIn(ImpactSteps(g), focal, v, k)
    decreases k
  {
    hide ReachIn;
    if k == 0 {
      ReachZero(CountedSteps(g, bound), (focal, 0 as nat), (v, d));
      ReachSelf(ImpactSteps(g), focal);
    } else {
      var m := ReachLast(CountedSteps(g, bound), (focal, 0 as nat), (v, d), k);
      CountedIsImpact(g, bound, focal, m.0, m.1, k - 1);
      ReachExtend(ImpactSteps(g), focal, m.0, v, k - 1);
    }
  }

  lemma InRangeIsReached(g: Graph, bound: Bound, focal: Id, v: Id)
    requires InRange(g, bound, focal, v)
    ensures Reaches(ImpactSteps(g), focal, v)
  {
    var d: nat :| At(g, bound, focal, v, d);
    var k: nat :| ReachIn(CountedSteps(g, bound), (focal, 0), (v, d), k);
    CountedIsImpact(g, bound, focal, v, d, k);
  }

  /** The depth limit is at least the number of symbols. */
  ghost predicate Roomy(g: Graph, bound: Bound) {
    forall d: nat :: d < |g.nodes| ==> bound.Above(d)
  }

  /** Some edge of the answer brought `v` in. */
  ghost predicate Brought(edges: seq<Edge>, v: Id) {
    exists e :: e in edges && (if e.kind == Contains then e.target == v else e.source == v)
  }

  ghost predicate Rows(g: Graph, bound: Bound, focal: Id, nodes: map<Id, Node>) {
    forall v :: v in nodes ==> v in g.nodes && nodes[v] == g.nodes[v] && InRange(g, bound, focal, v)
  }

  ghost predicate Connected(g: Graph, focal: Id, nodes: map<Id, Node>, edges: seq<Edge>) {
    && (forall v :: v in nodes ==> v == focal || Brought(edges, v))
    && (forall e :: e in edges ==> e in g.edges && e.source in nodes && e.target in nodes)
  }

  ghost predicate Witnessed(g: Graph, nodes: map<Id, Node>, s: Id) {
    exists v, e :: v in nodes && DependsVia(g, v, e, s)
  }

  /** Nothing in the answer or on the frontier is made up. */
  ghost predicate Evidence(
    g: Graph, bound: Bound, focal: Id, nodes: map<Id, Node>, edges: seq<Edge>, frontier: set<Id>)
  {
    && Rows(g, bound, focal, nodes)
    && Connected(g, focal, nodes, edges)
    && (forall s :: s in frontier ==> Witnessed(g, nodes, s))
  }

  lemma ConnectedInsert(g: Graph, focal: Id, nodes: map<Id, Node>, edges: seq<Edge>, e: Edge, node: Node)
    requires Connected(g, focal, nodes, edges) && e in g.edges
    requires if e.kind == Contains then e.source in nodes && e.target == node.id
             else e.target in nodes && e.source == node.id
    ensures Connected(g, focal, nodes[node.id := node], edges + [e])
  {
    assert e in edges + [e];
    forall v | Brought(edges, v) ensures Brought(edges + [e], v) {
      var f :| f in edges && (if f.kind == Contains then f.target == v else f.source == v);
      assert f in edges + [e];
    }
  }

  lemma EvidenceInsert(
    g: Graph, bound: Bound, focal: Id, nodes: map<Id, Node>, edges: seq<Edge>, frontier: set<Id>,
    e: Edge, node: Node, depth: nat)
    requires Evidence(g, bound, focal, nodes, edges, frontier) && e in g.edges
    requires node.id in g.nodes && g.nodes[node.id] == node && At(g, bound, focal, node.id, depth)
    requires if e.kind == Contains then e.source in nodes && e.target == node.id
             else e.target in nodes && e.source == node.id
    ensures Evidence(g, bound, focal, nodes[node.id := node], edges + [e], frontier)
  {
    hide Connected, At, DependsVia;
    ConnectedInsert(g, focal, nodes, edges, e, node);
    forall s | s in frontier ensures Witnessed(g, nodes[node.id := node], s) {
      var v, f :| v in nodes && DependsVia(g, v, f, s);
      assert v in nodes[node.id := node];
    }
  }

  // ---- levels --------------------------------------------------------------------------

  /** The symbol whose expansion adds this edge, and the one the edge brings in. */
  function Opener(e: Edge): Id {
    if e.kind == Contains then e.source else e.target
  }

  function Opened(e: Edge): Id {
    if e.kind == Contains then e.target else e.source
  }

  /** The depth of what an edge brings in: members cost none. */
  function LevelVia(e: Edge, d: nat): nat {
    if e.kind == Contains then d else d + 1
  }

  ghost predicate BringsTo(e: Edge, from: set<Id>, level: map<Id, nat>, v: Id) {
    Opened(e) == v && v in level && Opener(e) in from && Opener(e) in level && level[v] == LevelVia(e, level[Opener(e)])
  }

  /** Some edge of the answer brought `v` in, to its level, from a symbol of
      `from`. */
  ghost predicate BroughtFrom(edges: seq<Edge>, from: set<Id>, level: map<Id, nat>, v: Id) {
    exists e :: e in edges && BringsTo(e, from, level, v)
  }

  /** Everything one step from `v` is in the answer. */
  ghost predicate Expanded(g: Graph, held: set<Id>, v: Id) {
    forall w :: ImpactSteps(g)(v, w) ==> w in held
  }

  /** Every dependent of `v` is in the answer or on the frontier. */
  ghost predicate Recorded(g: Graph, held: set<Id>, frontier: set<Id>, v: Id) {
    forall s :: Dependent(g, v, s) ==> s in held || s in frontier
  }

  /** The levels in the middle of the search: those of visited symbols are below
      the limit, and each symbol was brought in by a visited one. */
  ghost predicate Levels(
    g: Graph, bound: Bound, focal: Id, edges: seq<Edge>, visited: set<Id>, level: map<Id, nat>)
  {
    && focal in level && level[focal] == 0 && (visited != {} ==> focal in visited)
    && (forall v :: v in visited ==> v in level && bound.Above(level[v]))
    && (forall v :: v in level ==> At(g, bound, focal, v, level[v]))
    && (forall v :: v in level && v != focal ==> BroughtFrom(edges, visited, level, v))
    && (Roomy(g, bound) ==> forall v :: v in level ==> bound.Above(level[v]))
  }

  /** The search is done with `v`: it was visited and everything next to it found,
      or it lies at the limit and what it leaves out was noted. */
  ghost predicate Finished(
    g: Graph, bound: Bound, visited: set<Id>, held: set<Id>, frontier: set<Id>, level: map<Id, nat>, v: Id)
  {
    if v in visited then Expanded(g, held, v)
    else v in level && !bound.Above(level[v]) && Recorded(g, held, frontier, v)
  }

  ghost function Unfinished(
    g: Graph, bound: Bound, visited: set<Id>, held: set<Id>, frontier: set<Id>, level: map<Id, nat>): set<Id>
  {
    set v | v in level && !Finished(g, bound, visited, held, frontier, level, v)
  }

  /** The levels of an answer: the focal symbol at 0, every other symbol brought in
      by an edge of the answer from one at the level that edge says; and whatever
      lies above the limit has everything one step from it in the answer. */
  ghost predicate Labelling(
    g: Graph, bound: Bound, focal: Id, nodes: map<Id, Node>, edges: seq<Edge>, level: map<Id, nat>)
  {
    && level.Keys == nodes.Keys && focal in level && level[focal] == 0
    && (forall v :: v in level ==> At(g, bound, focal, v, level[v]))
    && (forall v :: v in level && v != focal ==> BroughtFrom(edges, level.Keys, level, v))
    && (forall v :: v in level && bound.Above(level[v]) ==> Expanded(g, nodes.Keys, v))
  }

  /** Every dependent and every member of the focal symbol is found, if there is any
      depth at all. */
  lemma NearestFound(
    g: Graph, bound: Bound, focal: Id, nodes: map<Id, Node>, edges: seq<Edge>, level: map<Id, nat>)
    requires Labelling(g, bound, focal, nodes, edges, level) && bound.Above(0)
    ensures forall s :: Dependent(g, focal, s) ==> s in nodes
    ensures forall c :: Member(g, focal, c) ==> c in nodes
  {
    hide Dependent, Member;
    assert Expanded(g, nodes.Keys, focal);
    forall s | Dependent(g, focal, s) ensures s in nodes {
      assert ImpactSteps(g)(focal, s);
    }
    forall c | Member(g, focal, c) ensures c in nodes {
      assert ImpactSteps(g)(focal, c);
    }
  }

  /** The answer holds everything in range exactly when each symbol that was met at
      the limit, although it also lies nearer, has everything next to it in the
      answer: a symbol is expanded when it is first met, not where it is nearest. */
  lemma CompleteIff(
    g: Graph, bound: Bound, focal: Id, nodes: map<Id, Node>, edges: seq<Edge>, level: map<Id, nat>)
    requires Labelling(g, bound, focal, nodes, edges, level)
    ensures (forall v :: InRange(g, bound, focal, v) ==> v in nodes) <==>
      forall v :: v in level && !bound.Above(level[v]) && LiesNearer(g, bound, focal, v) ==> Expanded(g, nodes.Keys, v)
  {
    hide Reaches, ImpactSteps, BroughtFrom;
    if forall v :: InRange(g, bound, focal, v) ==> v in nodes {
      forall v | v in level && LiesNearer(g, bound, focal, v) ensures Expanded(g, nodes.Keys, v) {
        NearerIn(g, bound, focal, nodes, v);
      }
    }
    if forall v :: v in level && !bound.Above(level[v]) && LiesNearer(g, bound, focal, v) ==>
        Expanded(g, nodes.Keys, v)
    {
      forall v | InRange(g, bound, focal, v) ensures v in nodes {
        var d: nat :| At(g, bound, focal, v, d);
        InRangeHeld(g, bound, focal, nodes, edges, level, v, d);
      }
    }
  }

  /** Nothing contains anything. */
  ghost predicate Flat(g: Graph) {
    forall e :: e in g.edges ==> e.kind != Contains
  }

  /** Where nothing contains anything levels stay, and new symbols lie below `d`. */
  ghost predicate Deeper(g: Graph, before: map<Id, nat>, level: map<Id, nat>, d: nat) {
    Flat(g) ==>
      && (forall v :: v in before ==> v in level && level[v] == before[v])
      && (forall v :: v in level && v !in before ==> level[v] > d)
  }

  lemma DeeperSame(g: Graph, level: map<Id, nat>, d: nat)
    ensures Deeper(g, level, level, d)
  {
  }

  lemma DeeperFlat(g: Graph, before: map<Id, nat>, level: map<Id, nat>, d: nat)
    requires Flat(g) ==> level == before
    ensures Deeper(g, before, level, d)
  {
  }

  lemma DeeperTwice(g: Graph, a: map<Id, nat>, b: map<Id, nat>, c: map<Id, nat>, d: nat, d': nat)
    requires Deeper(g, a, b, d) && Deeper(g, b, c, d') && d <= d'
    ensures Deeper(g, a, c, d)
  {
  }

  lemma DeeperOne(g: Graph, before: map<Id, nat>, e: Edge, x: Id, d: nat)
    requires e in g.edges && (e.kind != Contains ==> x !in before)
    ensures Deeper(g, before, before[x := LevelVia(e, d)], d)
  {
  }

  /** Among `known` symbols `x` is the first found from `v`: it is one level down, and
      whatever depends on it was found from it, although it may depend on `v` too. */
  ghost predicate FoundFirst(g: Graph, bound: Bound, known: set<Id>, level: map<Id, nat>, v: Id, d: nat, x: Id) {
    && Dependent(g, v, x) && x !in known && x in level && level[x] == d + 1
    && (bound.Above(d + 1) ==>
          forall y :: Dependent(g, x, y) && y != x && y !in known ==> y in level && level[y] > d + 1)
  }

  /** The first symbol found from `v`, if any is. */
  ghost predicate FirstFrom(
    g: Graph, bound: Bound, known: map<Id, nat>, level: map<Id, nat>, v: Id, d: nat, first: Option<Id>)
  {
    Flat(g) ==>
      if first.Some? then FoundFirst(g, bound, known.Keys, level, v, d, first.value)
      else forall s :: Dependent(g, v, s) ==> s in known
  }

  /** The search is depth first: some dependent of the focal symbol is searched to the
      end before any other is looked at. */
  ghost predicate DepthFirst(g: Graph, bound: Bound, focal: Id, level: map<Id, nat>) {
    bound.Above(0) && (exists s :: Dependent(g, focal, s) && s != focal) ==>
      exists x :: FoundFirst(g, bound, {focal}, level, focal, 0, x)
  }

  /** The symbol lies above the limit on some way from the focal one. */
  ghost predicate LiesNearer(g: Graph, bound: Bound, focal: Id, v: Id) {
    exists d: nat :: bound.Above(d) && At(g, bound, focal, v, d)
  }

  lemma NearerIn(g: Graph, bound: Bound, focal: Id, nodes: map<Id, Node>, v: Id)
    requires LiesNearer(g, bound, focal, v) && forall w :: InRange(g, bound, focal, w) ==> w in nodes
    ensures Expanded(g, nodes.Keys, v)
  {
    hide At, Dependent, Member;
    var d: nat :| bound.Above(d) && At(g, bound, focal, v, d);
    forall w | ImpactSteps(g)(v, w) ensures w in nodes {
      if Dependent(g, v, w) {
        AtNext(g, bound, focal, v, d, w, d + 1);
      } else {
        AtNext(g, bound, focal, v, d, w, d);
      }
      assert InRange(g, bound, focal, w);
    }
  }

  lemma InRangeHeld(
    g: Graph, bound: Bound, focal: Id, nodes: map<Id, Node>, edges: seq<Edge>, level: map<Id, nat>, v: Id, d: nat)
    requires Labelling(g, bound, focal, nodes, edges, level) && At(g, bound, focal, v, d)
    requires forall u :: u in level && !bound.Above(level[u]) && LiesNearer(g, bound, focal, u) ==>
      Expanded(g, nodes.Keys, u)
    ensures v in nodes
  {
    var k: nat :| ReachIn(CountedSteps(g, bound), (focal, 0), (v, d), k);
    WalkHeld(g, bound, focal, nodes, edges, level, v, d, k);
  }

  lemma {:induction false} WalkHeld(
    g: Graph, bound: Bound, focal: Id, nodes: map<Id, Node>, edges: seq<Edge>, level: map<Id, nat>, v: Id, d: nat,
    k: nat)
    requires Labelling(g, bound, focal, nodes, edges, level)
    requires ReachIn(CountedSteps(g, bound), (focal, 0), (v, d), k)
    requires forall u :: u in level && !bound.Above(level[u]) && LiesNearer(g, bound, focal, u) ==>
      Expanded(g, nodes.Keys, u)
    ensures v in nodes
    decreases k
  {
    hide ReachIn, BroughtFrom, Dependent, Member;
    if k == 0 {
      ReachZero(CountedSteps(g, bound), (focal, 0 as nat), (v, d));
    } else {
      var m := ReachLast(CountedSteps(g, bound), (focal, 0 as nat), (v, d), k);
      WalkHeld(g, bound, focal, nodes, edges, level, m.0, m.1, k - 1);
      assert At(g, bound, focal, m.0, m.1) && LiesNearer(g, bound, focal, m.0);
      assert Expanded(g, nodes.Keys, m.0);
      assert ImpactSteps(g)(m.0, v);
    }
  }

  lemma LevelsInsert(
    g: Graph, bound: Bound, focal: Id, edges: seq<Edge>, visited: set<Id>, level: map<Id, nat>, e: Edge, d: nat)
    requires Levels(g, bound, focal, edges, visited, level) && Opened(e) !in visited && Opener(e) in visited
    requires d == LevelVia(e, level[Opener(e)]) && At(g, bound, focal, Opened(e), d)
    requires Roomy(g, bound) ==> bound.Above(d)
    ensures Levels(g, bound, focal, edges + [e], visited, level[Opened(e) := d])
  {
    hide At, Roomy;
    var level' := level[Opened(e) := d];
    forall v | v in level' && v != focal ensures BroughtFrom(edges + [e], visited, level', v) {
      if v == Opened(e) {
        assert e in edges + [e] && BringsTo(e, visited, level', v);
      } else {
        var x :| x in edges && BringsTo(x, visited, level, v);
        assert x in edges + [e] && BringsTo(x, visited, level', v);
      }
    }
  }

  lemma LevelsVisit(
    g: Graph, bound: Bound, focal: Id, edges: seq<Edge>, visited: set<Id>, level: map<Id, nat>, id: Id)
    requires Levels(g, bound, focal, edges, visited, level)
    requires id in level && bound.Above(level[id]) && (visited == {} ==> id == focal)
    ensures Levels(g, bound, focal, edges, visited + {id}, level)
  {
    hide At, Roomy;
    forall v | v in level && v != focal ensures BroughtFrom(edges, visited + {id}, level, v) {
      var x :| x in edges && BringsTo(x, visited, level, v);
      assert BringsTo(x, visited + {id}, level, v);
    }
  }

  /** With nothing unfinished the levels are those of an answer. */
  lemma LevelsDone(
    g: Graph, bound: Bound, focal: Id, nodes: map<Id, Node>, edges: seq<Edge>, frontier: set<Id>, visited: set<Id>,
    level: map<Id, nat>)
    requires Levels(g, bound, focal, edges, visited, level) && level.Keys == nodes.Keys
    requires Unfinished(g, bound, visited, nodes.Keys, frontier, level) == {}
    ensures Labelling(g, bound, focal, nodes, edges, level)
    ensures forall v :: v in nodes ==> Recorded(g, nodes.Keys, frontier, v)
    ensures Roomy(g, bound) ==> forall v :: v in nodes ==> Expanded(g, nodes.Keys, v)
  {
    hide At, Roomy, Expanded, Recorded;
    forall v | v in level && v != focal ensures BroughtFrom(edges, level.Keys, level, v) {
      var x :| x in edges && BringsTo(x, visited, level, v);
      assert BringsTo(x, level.Keys, level, v);
    }
    forall v | v in level
      ensures bound.Above(level[v]) ==> Expanded(g, nodes.Keys, v)
      ensures Recorded(g, nodes.Keys, frontier, v)
    {
      assert v !in Unfinished(g, bound, visited, nodes.Keys, frontier, level);
      if v in visited {
        ExpandedRecorded(g, nodes.Keys, frontier, v);
      }
    }
  }

  lemma ExpandedRecorded(g: Graph, held: set<Id>, frontier: set<Id>, v: Id)
    requires Expanded(g, held, v)
    ensures Recorded(g, held, frontier, v)
  {
    hide Dependent, Member;
    forall s | Dependent(g, v, s) ensures s in held {
      assert ImpactSteps(g)(v, s);
    }
  }

  lemma ExpandedBy(
    g: Graph, bound: Bound, visited: set<Id>, held: set<Id>, frontier: set<Id>, level: map<Id, nat>, v: Id)
    requires v in visited
    requires forall c :: Member(g, v, c) ==> c in held
    requires forall s :: Dependent(g, v, s) ==> s in held
    ensures v !in Unfinished(g, bound, visited, held, frontier, level)
  {
    hide Member, Dependent;
  }

  lemma UnfinishedInsert(
    g: Graph, bound: Bound, visited: set<Id>, held: set<Id>, frontier: set<Id>, level: map<Id, nat>, x: Id, d: nat)
    requires x !in visited
    ensures Unfinished(g, bound, visited, held + {x}, frontier, level[x := d]) <=
      Unfinished(g, bound, visited, held, frontier, level) + {x}
  {
    hide ImpactSteps, Dependent;
  }

  lemma UnfinishedVisit(
    g: Graph, bound: Bound, visited: set<Id>, held: set<Id>, frontier: set<Id>, level: map<Id, nat>, x: Id)
    ensures Unfinished(g, bound, visited + {x}, held, frontier, level) <=
      Unfinished(g, bound, visited, held, frontier, level) + {x}
    ensures x in visited && x !in Unfinished(g, bound, visited, held, frontier, level) && x in level ==>
      Expanded(g, held, x)
  {
    hide Expanded, Recorded;
  }

  lemma UnfinishedRecord(
    g: Graph, bound: Bound, visited: set<Id>, held: set<Id>, frontier: set<Id>, more: set<Id>, level: map<Id, nat>,
    x: Id)
    requires frontier <= more && x in level && x !in visited && !bound.Above(level[x])
    requires Recorded(g, held, more, x)
    ensures Unfinished(g, bound, visited, held, more, level) <=
      Unfinished(g, bound, visited, held, frontier, level) - {x}
  {
    hide Dependent, Expanded;
  }

  lemma NoMembers(g: Graph, id: Id)
    requires id in g.nodes && g.nodes[id].kind !in CONTAINER_KINDS
    ensures forall c :: !Member(g, id, c)
  {
  }

  /** Each `contains` row of a container names a member, if it exists. */
  lemma OnlyContains(g: Graph, id: Id, rows: seq<Edge>)
    requires id in g.nodes && g.nodes[id].kind in CONTAINER_KINDS
    requires forall e :: e in rows <==> e in g.edges && e.source == id && KindAllowed({Contains}, e.kind)
    ensures forall j :: 0 <= j < |rows| ==>
      rows[j].kind == Contains && (rows[j].target in g.nodes ==> MemberVia(g, id, rows[j], rows[j].target))
    ensures forall e :: e in g.edges && e.source == id && e.kind == Contains ==> e in rows
    ensures Flat(g) ==> rows == []
  {
    if rows != [] {
      assert rows[0] in rows;
    }
    forall j | 0 <= j < |rows| ensures rows[j].kind == Contains && rows[j] in rows {
    }
  }

  /** The existing ends of the first `n` rows. */
  ghost function Ends(g: Graph, rows: seq<Edge>, n: nat): set<Id> {
    set j | 0 <= j < n && j < |rows| && rows[j].target in g.nodes :: rows[j].target
  }

  lemma NoEnds(g: Graph, rows: seq<Edge>)
    ensures Ends(g, rows, 0) == {}
  {
  }

  lemma EndsNext(g: Graph, rows: seq<Edge>, n: nat)
    requires n < |rows|
    ensures Ends(g, rows, n + 1) ==
      Ends(g, rows, n) + if rows[n].target in g.nodes then {rows[n].target} else {}
  {
  }

  /** The ends of a container's `contains` rows are its members. */
  lemma AllMembers(g: Graph, id: Id, rows: seq<Edge>, held: set<Id>)
    requires forall e :: e in g.edges && e.source == id && e.kind == Contains ==> e in rows
    requires Ends(g, rows, |rows|) <= held
    ensures forall c :: Member(g, id, c) ==> c in held
  {
    forall c | Member(g, id, c) ensures c in held {
      var e :| MemberVia(g, id, e, c);
      var j :| 0 <= j < |rows| && rows[j] == e;
      assert rows[j].target in Ends(g, rows, |rows|);
    }
  }

  /** The same for what is noted at the limit. */
  lemma AllRecorded(g: Graph, id: Id, rows: seq<Edge>, held: set<Id>, frontier: set<Id>)
    requires forall e :: e in g.edges && e.target == id ==> e in rows
    requires forall j :: 0 <= j < |rows| && rows[j].kind != Contains ==>
      rows[j].source in held || rows[j].source in frontier
    ensures Recorded(g, held, frontier, id)
  {
    forall s | Dependent(g, id, s) ensures s in held || s in frontier {
      var e :| DependsVia(g, id, e, s);
      assert e in rows;
    }
  }

  /** The starts of the other rows into a symbol are its dependents. */
  lemma AllDependents(g: Graph, id: Id, rows: seq<Edge>, held: set<Id>)
    requires forall e :: e in g.edges && e.target == id ==> e in rows
    requires forall j :: 0 <= j < |rows| && rows[j].kind != Contains && rows[j].source in g.nodes ==>
      rows[j].source in held
    ensures forall s :: Dependent(g, id, s) ==> s in held
  {
    forall s | Dependent(g, id, s) ensures s in held {
      var e :| DependsVia(g, id, e, s);
      assert e in rows;
    }
  }

  /** Every row into a symbol. */
  method RowsInto(g: Graph, id: Id) returns (es: seq<Edge>)
    ensures forall e :: e in es <==> e in g.edges && e.target == id
  {
    es := GetIncomingEdges(g, id, {});
  }

  /** What holds while the dependents of `v` are looked at. */
  ghost predicate FirstSoFar(
    g: Graph, bound: Bound, known: map<Id, nat>, level: map<Id, nat>, v: Id, d: nat, first: Option<Id>)
  {
    && Deeper(g, known, level, d)
    && (Flat(g) && first.Some? ==> FoundFirst(g, bound, known.Keys, level, v, d, first.value))
    && (Flat(g) && first.None? ==> level == known)
  }

  lemma NoneSoFar(g: Graph, bound: Bound, level: map<Id, nat>, v: Id, d: nat)
    ensures FirstSoFar(g, bound, level, level, v, d, None)
  {
  }

  lemma OneMoreTaken(
    g: Graph, bound: Bound, known: map<Id, nat>, before: map<Id, nat>, level: map<Id, nat>, v: Id, d: nat,
    first: Option<Id>, x: Id)
    requires FirstSoFar(g, bound, known, before, v, d, first) && Deeper(g, before, level, d)
    requires Flat(g) ==> FoundFirst(g, bound, before.Keys, level, v, d, x)
    ensures FirstSoFar(g, bound, known, level, v, d, if first.Some? then first else Some(x))
  {
    hide FoundFirst, Flat;
    DeeperTwice(g, known, before, level, d, d);
    if Flat(g) && first.Some? {
      FirstStays(g, bound, known.Keys, before, level, v, d, first.value);
    }
  }

  lemma FirstIs(
    g: Graph, bound: Bound, known: map<Id, nat>, level: map<Id, nat>, v: Id, d: nat, first: Option<Id>)
    requires FirstSoFar(g, bound, known, level, v, d, first) && forall s :: Dependent(g, v, s) ==> s in level
    ensures FirstFrom(g, bound, known, level, v, d, first) && Deeper(g, known, level, d)
  {
    hide FoundFirst, Dependent, Flat, Deeper;
  }

  lemma FirstSearched(g: Graph, bound: Bound, focal: Id, level: map<Id, nat>, first: Option<Id>)
    requires bound.Above(0) ==> FirstFrom(g, bound, map[focal := 0], level, focal, 0, first)
    ensures Flat(g) ==> DepthFirst(g, bound, focal, level)
  {
    hide FoundFirst, Dependent;
    assert map[focal := 0 as nat].Keys == {focal};
  }

  /** Opening first changes nothing where there is nothing to open. */
  lemma OpenedFirst(
    g: Graph, bound: Bound, before: map<Id, nat>, mid: map<Id, nat>, level: map<Id, nat>, v: Id, d: nat,
    first: Option<Id>)
    requires Flat(g) ==> mid == before
    requires Deeper(g, mid, level, d) && FirstFrom(g, bound, mid, level, v, d, first)
    ensures Deeper(g, before, level, d) && FirstFrom(g, bound, before, level, v, d, first)
  {
    hide FoundFirst, Dependent, Flat;
  }

  /** What is known of the first stays known. */
  lemma FirstStays(
    g: Graph, bound: Bound, known: set<Id>, before: map<Id, nat>, level: map<Id, nat>, v: Id, d: nat, x: Id)
    requires FoundFirst(g, bound, known, before, v, d, x) && Flat(g) && Deeper(g, before, level, d)
    ensures FoundFirst(g, bound, known, level, v, d, x)
  {
    hide Dependent;
  }

  lemma LevelsAbove(
    g: Graph, bound: Bound, focal: Id, edges: seq<Edge>, visited: set<Id>, level: map<Id, nat>, v: Id)
    requires Levels(g, bound, focal, edges, visited, level)
    ensures v in visited ==> v in level && bound.Above(level[v])
  {
  }

  /** A dependent taken and searched to the end is a first one. */
  lemma FirstOne(
    g: Graph, bound: Bound, visited: set<Id>, held: set<Id>, frontier: set<Id>, before: map<Id, nat>,
    level: map<Id, nat>, v: Id, d: nat, e: Edge, x: Id)
    requires level.Keys == held && x !in Unfinished(g, bound, visited, held, frontier, level) && x in g.nodes
    requires if e.kind == Contains then MemberVia(g, v, e, x) else DependsVia(g, v, e, x) && x !in before
    requires Deeper(g, before[x := LevelVia(e, d)], level, LevelVia(e, d))
    requires x in visited ==> x in level && bound.Above(level[x])
    ensures Flat(g) ==> FoundFirst(g, bound, before.Keys, level, v, d, x)
  {
    hide Member;
    if Flat(g) && bound.Above(d + 1) {
      forall y | Dependent(g, x, y) && y != x && y !in before ensures y in level && level[y] > d + 1 {
        assert ImpactSteps(g)(x, y);
        assert Finished(g, bound, visited, held, frontier, level, x);
      }
    }
  }

  class ImpactSearch {
    const g: Graph
    const focal: Id
    const bound: Bound
    var visited: set<Id>
    var nodes: map<Id, Node>
    var edges: seq<Edge>
    var frontier: set<Id>
    ghost var level: map<Id, nat>

    constructor (g: Graph, focal: Id, bound: Bound)
      requires focal in g.nodes
      ensures this.g == g && this.focal == focal && this.bound == bound
      ensures visited == {} && nodes == map[focal := g.nodes[focal]] && edges == [] && frontier == {}
      ensures level == map[focal := 0]
    {
      this.g, this.focal, this.bound := g, focal, bound;
      visited, nodes, edges, frontier := {}, map[focal := g.nodes[focal]], [], {};
      level := map[focal := 0];
    }

    ghost predicate Valid() reads this {
      && visited <= nodes.Keys <= g.nodes.Keys
      && Evidence(g, bound, focal, nodes, edges, frontier)
      && level.Keys == nodes.Keys && Levels(g, bound, focal, edges, visited, level)
    }

    /** What the search still has to do. */
    ghost function Undone(): set<Id> reads this {
      Unfinished(g, bound, visited, nodes.Keys, frontier, level)
    }

    /** The search only adds, finishes what it adds, and leaves visited symbols at
        their level. */
    twostate predicate Extends() reads this {
      && old(visited) <= visited && old(nodes).Keys <= nodes.Keys && old(frontier) <= frontier
      && |old(nodes)| <= |nodes|
      && Undone() <= old(Undone())
      && (forall v :: v in old(visited) ==> v in old(level) && v in level && level[v] == old(level)[v])
    }

    ghost predicate Ready(depth: nat) reads this {
      Roomy(g, bound) ==> depth < |nodes|
    }

    /** The recursive search from a symbol already in the answer. */
    method Visit(id: Id, depth: nat) returns (ghost first: Option<Id>)
      requires Valid() && id in nodes && At(g, bound, focal, id, depth) && Ready(depth)
      requires level[id] == depth && (visited == {} ==> id == focal)
      requires id in visited ==> id !in Undone()
      modifies this
      ensures Valid() && Extends() && id !in Undone()
      ensures Deeper(g, old(level), level, depth)
      ensures id !in old(visited) && bound.Above(depth) ==>
        FirstFrom(g, bound, old(level), level, id, depth, first)
      decreases g.nodes.Keys - visited, 0
    {
      hide At, Evidence, Levels, Unfinished, Member, Dependent, Flat, FirstFrom, Deeper, Roomy;
      first := None;
      DeeperSame(g, level, depth);
      if id in visited {
        return;
      }
      if !bound.Above(depth) {
        Record(id);
        return;
      }
      LevelsVisit(g, bound, focal, edges, visited, level, id);
      UnfinishedVisit(g, bound, visited, nodes.Keys, frontier, level, id);
      visited := visited + {id};
      ghost var before := level;
      OpenContainer(id, depth);
      ghost var mid := level;
      first := ExpandDependents(id, depth);
      OpenedFirst(g, bound, before, mid, level, id, depth, first);
      ExpandedBy(g, bound, visited, nodes.Keys, frontier, level, id);
    }

    /** At the depth limit: note the dependents that are not in the answer. */
    method Record(id: Id)
      requires Valid() && id in nodes && id !in visited && !bound.Above(level[id])
      modifies this`frontier
      ensures Valid() && Extends() && id !in Undone()
    {
      hide InRange, Brought, Levels, Unfinished;
      var incoming := RowsInto(g, id);
      for i := 0 to |incoming|
        invariant Valid() && old(frontier) <= frontier
        invariant forall j :: 0 <= j < i && incoming[j].kind != Contains ==>
          incoming[j].source in nodes || incoming[j].source in frontier
      {
        var e := incoming[i];
        if e.kind != Contains && e.source !in nodes {
          assert DependsVia(g, id, e, e.source);
          frontier := frontier + {e.source};
        }
      }
      AllRecorded(g, id, incoming, nodes.Keys, frontier);
      UnfinishedRecord(g, bound, visited, nodes.Keys, old(frontier), frontier, level, id);
    }

    /** Open a container: its members belong to it and cost no depth. */
    method OpenContainer(id: Id, depth: nat)
      requires Valid() && id in visited && bound.Above(depth)
      requires At(g, bound, focal, id, depth) && Ready(depth) && level[id] == depth
      modifies this
      ensures Valid() && Extends() && Ready(depth)
      ensures forall c :: Member(g, id, c) ==> c in nodes
      ensures Flat(g) ==> level == old(level)
      ensures Deeper(g, old(level), level, depth)
      decreases g.nodes.Keys - visited, 3
    {
      hide Flat, Deeper, At, Evidence, Member, MemberVia, KindAllowed, Roomy, Ends, Levels, Unfinished;
      if g.nodes[id].kind !in CONTAINER_KINDS {
        NoMembers(g, id);
        DeeperSame(g, level, depth);
        return;
      }
      var members := GetOutgoingEdges(g, id, {Contains});
      OnlyContains(g, id, members);
      OpenMembers(id, depth, members);
      AllMembers(g, id, members, nodes.Keys);
      DeeperFlat(g, old(level), level, depth);
    }

    method OpenMembers(id: Id, depth: nat, members: seq<Edge>)
      requires Valid() && id in visited && bound.Above(depth)
      requires At(g, bound, focal, id, depth) && Ready(depth) && level[id] == depth
      requires forall j :: 0 <= j < |members| ==>
        && members[j].kind == Contains
        && (members[j].target in g.nodes ==> MemberVia(g, id, members[j], members[j].target))
      modifies this
      ensures Valid() && Extends() && Ready(depth)
      ensures Ends(g, members, |members|) <= nodes.Keys
      ensures members == [] ==> level == old(level)
      decreases g.nodes.Keys - visited, 2
    {
      hide Flat, At, Evidence, MemberVia, Roomy, Ends, Levels, Unfinished;
      var children := NodesByIds(g, set e | e in members :: e.target);
      NoEnds(g, members);
      for i := 0 to |members|
        invariant Valid() && Extends() && Ready(depth) && id in visited
        invariant Ends(g, members, i) <= nodes.Keys
        invariant i == 0 ==> level == old(level)
      {
        EndsNext(g, members, i);
        var e := members[i];
        if e.target in children && e.target !in visited {
          Take(id, depth, e, children[e.target], depth);
        }
      }
    }

    /** Follow the edges of everything that depends on the symbol. */
    method ExpandDependents(id: Id, depth: nat) returns (ghost first: Option<Id>)
      requires Valid() && id in visited && bound.Above(depth)
      requires At(g, bound, focal, id, depth) && Ready(depth) && level[id] == depth
      modifies this
      ensures Valid() && Extends()
      ensures forall s :: Dependent(g, id, s) ==> s in nodes
      ensures Deeper(g, old(level), level, depth)
      ensures FirstFrom(g, bound, old(level), level, id, depth, first)
      decreases g.nodes.Keys - visited, 2
    {
      hide At, Evidence, Dependent, Levels, Unfinished, Roomy, Flat, FoundFirst, FirstSoFar, FirstFrom,
        Deeper;
      first := None;
      NoneSoFar(g, bound, level, id, depth);
      var incoming := RowsInto(g, id);
      var sources := NodesByIds(g, set e | e in incoming && e.kind != Contains :: e.source);
      for i := 0 to |incoming|
        invariant Valid() && Extends() && Ready(depth) && id in visited
        invariant forall j :: 0 <= j < i && incoming[j].kind != Contains && incoming[j].source in g.nodes ==>
          incoming[j].source in nodes
        invariant FirstSoFar(g, bound, old(level), level, id, depth, first)
      {
        var e := incoming[i];
        ghost var before := level;
        if e.kind != Contains && e.source in sources && e.source !in nodes {
          assert DependsVia(g, id, e, e.source);
          Take(id, depth, e, sources[e.source], depth + 1);
          OneMoreTaken(g, bound, old(level), before, level, id, depth, first, e.source);
          first := if first.Some? then first else Some(e.source);
        }
      }
      AllDependents(g, id, incoming, nodes.Keys);
      FirstIs(g, bound, old(level), level, id, depth, first);
    }

    /** Add one neighbour to the answer and search on from it. */
    method Take(id: Id, depth: nat, e: Edge, node: Node, depth': nat)
      requires Valid() && id in visited && Ready(depth)
      requires At(g, bound, focal, id, depth) && bound.Above(depth) && level[id] == depth
      requires node.id in g.nodes && g.nodes[node.id] == node && node.id !in visited
      requires if e.kind == Contains then MemberVia(g, id, e, node.id) && depth' == depth
               else DependsVia(g, id, e, node.id) && depth' == depth + 1 && node.id !in nodes
      modifies this
      ensures Valid() && Extends() && Ready(depth) && node.id in nodes
      ensures Deeper(g, old(level), level, depth)
      ensures Flat(g) ==> FoundFirst(g, bound, old(level).Keys, level, id, depth, node.id)
      decreases g.nodes.Keys - visited, 1
    {
      hide Flat, FoundFirst, Deeper, Evidence, At, Levels, Unfinished, DependsVia, MemberVia, Roomy;
      RoomFor(depth', node.id);
      AtVia(g, bound, focal, id, depth, e, node.id);
      ghost var before := level;
      Insert(e, node, depth');
      DeeperOne(g, before, e, node.id, depth);
      ghost var inserted := level;
      ghost var first := Visit(node.id, depth');
      DeeperTwice(g, before, inserted, level, depth, depth');
      LevelsAbove(g, bound, focal, edges, visited, level, node.id);
      FirstOne(g, bound, visited, nodes.Keys, frontier, before, level, id, depth, e, node.id);
    }

    method Insert(e: Edge, node: Node, depth: nat)
      requires Valid() && node.id in g.nodes && g.nodes[node.id] == node && At(g, bound, focal, node.id, depth)
      requires e in g.edges
      requires Opened(e) == node.id && Opener(e) in visited && node.id !in visited
      requires depth == LevelVia(e, level[Opener(e)]) && (Roomy(g, bound) ==> bound.Above(depth))
      modifies this`nodes, this`edges, this`level
      ensures Valid() && nodes == old(nodes)[node.id := node] && level == old(level)[node.id := depth]
      ensures |old(nodes)| <= |nodes| && (node.id !in old(nodes) ==> |nodes| == |old(nodes)| + 1)
      ensures Undone() <= old(Undone()) + {node.id}
    {
      hide At, Evidence, Levels, Unfinished, Roomy;
      LevelsInsert(g, bound, focal, edges, visited, level, e, depth);
      UnfinishedInsert(g, bound, visited, nodes.Keys, frontier, level, node.id, depth);
      EvidenceInsert(g, bound, focal, nodes, edges, frontier, e, node, depth);
      assert nodes[node.id := node].Keys == nodes.Keys + {node.id};
      assert node.id in nodes ==> nodes.Keys + {node.id} == nodes.Keys;
      nodes := nodes[node.id := node];
      edges := edges + [e];
      level := level[node.id := depth];
    }

    /** With room to spare one more level is below the limit. */
    lemma RoomFor(depth: nat, id: Id)
      requires nodes.Keys <= g.nodes.Keys && id in g.nodes
      requires Roomy(g, bound) ==> depth < |nodes| || (depth == |nodes| && id !in nodes)
      ensures Roomy(g, bound) ==> bound.Above(depth)
    {
      SubsetSize(nodes.Keys + {id}, g.nodes.Keys);
      assert |nodes| == |nodes.Keys| && |g.nodes| == |g.nodes.Keys|;
      assert id in nodes ==> nodes.Keys + {id} == nodes.Keys;
    }
  }

  datatype Radius =
    | NoSuchSymbol
    | Radius(nodes: map<Id, Node>, edges: seq<Edge>, roots: seq<Id>, truncated: bool, deeperCount: nat)

  /** Direct dependents of the answer that are not in it. */
  ghost function LeftOut(g: Graph, nodes: map<Id, Node>): set<Id> {
    set e | e in g.edges && e.kind != Contains && e.target in nodes && e.source !in nodes :: e.source
  }

  lemma OneCounted(rest: set<Id>, held: set<Id>, id: Id)
    requires id in rest
    ensures |rest - held| == |(rest - {id}) - held| + if id in held then 0 else 1
  {
    if id in held {
      assert (rest - {id}) - held == rest - held;
    } else {
      assert rest - held == ((rest - {id}) - held) + {id};
    }
  }

  /** How many frontier entries did not make it into the answer. */
  method CountOmitted(frontier: set<Id>, nodes: map<Id, Node>) returns (n: nat)
    ensures n == |frontier - nodes.Keys|
  {
    n := 0;
    var rest := frontier;
    while rest != {}
      invariant n + |rest - nodes.Keys| == |frontier - nodes.Keys|
      decreases rest
    {
      var id :| id in rest;
      OneCounted(rest, nodes.Keys, id);
      rest := rest - {id};
      if id !in nodes {
        n := n + 1;
      }
    }
  }

  /** What is left on the frontier is exactly what the answer lacks. */
  lemma FrontierIsLeftOut(g: Graph, nodes: map<Id, Node>, frontier: set<Id>)
    requires g.NoDangling()
    requires forall s :: s in frontier ==> Witnessed(g, nodes, s)
    requires forall v :: v in nodes ==> Recorded(g, nodes.Keys, frontier, v)
    ensures frontier - nodes.Keys == LeftOut(g, nodes)
  {
    forall s | s in frontier - nodes.Keys ensures s in LeftOut(g, nodes) {
      var v, e :| v in nodes && DependsVia(g, v, e, s);
    }
    forall s | s in LeftOut(g, nodes) ensures s in frontier {
      var e :| e in g.edges && e.kind != Contains && e.target in nodes && e.source == s && s !in nodes;
      assert DependsVia(g, e.target, e, s);
      assert Recorded(g, nodes.Keys, frontier, e.target);
    }
  }

  /** An answer that nothing depends on from outside holds every transitive
      dependent. */
  lemma HoldsDependents(g: Graph, focal: Id, nodes: map<Id, Node>)
    requires focal in nodes && Closed(DependentSteps(g), nodes.Keys)
    ensures forall s :: Reaches(DependentSteps(g), focal, s) ==> s in nodes
  {
    forall s | Reaches(DependentSteps(g), focal, s) ensures s in nodes {
      var k: nat :| ReachIn(DependentSteps(g), focal, s, k);
      ClosedReach(DependentSteps(g), nodes.Keys, focal, s, k);
    }
  }

  lemma NoneLeftOut(g: Graph, nodes: map<Id, Node>, frontier: set<Id>)
    requires forall v :: v in nodes ==> Recorded(g, nodes.Keys, frontier, v)
    requires |frontier - nodes.Keys| == 0
    ensures Closed(DependentSteps(g), nodes.Keys)
  {
    hide Dependent;
    assert frontier - nodes.Keys == {};
    assert forall s :: s in frontier ==> s in nodes || s in frontier - nodes.Keys;
  }

  lemma AllExpanded(g: Graph, nodes: map<Id, Node>)
    requires forall v :: v in nodes ==> Expanded(g, nodes.Keys, v)
    ensures Closed(ImpactSteps(g), nodes.Keys)
  {
    hide ImpactSteps;
  }

  lemma HoldsEverything(g: Graph, bound: Bound, focal: Id, nodes: map<Id, Node>)
    requires focal in nodes && Rows(g, bound, focal, nodes) && Closed(ImpactSteps(g), nodes.Keys)
    ensures forall v :: v in nodes <==> Reaches(ImpactSteps(g), focal, v)
  {
    forall v | v in nodes ensures Reaches(ImpactSteps(g), focal, v) {
      InRangeIsReached(g, bound, focal, v);
    }
    forall v | Reaches(ImpactSteps(g), focal, v) ensures v in nodes {
      var k: nat :| ReachIn(ImpactSteps(g), focal, v, k);
      ClosedReach(ImpactSteps(g), nodes.Keys, focal, v, k);
    }
  }

  /** Everything counted as left out is a genuine, reachable dependent. */
  lemma LeftOutIsReachable(g: Graph, bound: Bound, focal: Id, nodes: map<Id, Node>)
    requires g.NoDangling() && Rows(g, bound, focal, nodes)
    ensures forall s :: s in LeftOut(g, nodes) ==> s in g.nodes && Reaches(ImpactSteps(g), focal, s)
  {
    forall s | s in LeftOut(g, nodes) ensures s in g.nodes && Reaches(ImpactSteps(g), focal, s) {
      var e :| e in g.edges && e.kind != Contains && e.target in nodes && e.source == s && s !in nodes;
      assert DependsVia(g, e.target, e, s);
      InRangeIsReached(g, bound, focal, e.target);
      var k: nat :| ReachIn(ImpactSteps(g), focal, e.target, k);
      ReachExtend(ImpactSteps(g), focal, e.target, s, k);
    }
  }

  /** The search and what it leaves. */
  method SearchFrom(g: Graph, focal: Id, bound: Bound) returns (search: ImpactSearch, ghost level: map<Id, nat>)
    requires focal in g.nodes
    ensures search.g == g && search.focal == focal && search.bound == bound
    ensures focal in search.nodes && Evidence(g, bound, focal, search.nodes, search.edges, search.frontier)
    ensures Labelling(g, bound, focal, search.nodes, search.edges, level)
    ensures forall v :: v in search.nodes ==> Recorded(g, search.nodes.Keys, search.frontier, v)
    ensures Roomy(g, bound) ==> forall v :: v in search.nodes ==> Expanded(g, search.nodes.Keys, v)
    ensures Flat(g) ==> DepthFirst(g, bound, focal, level)
  {
    hide Evidence, At, Dependent, Roomy, Levels, Labelling, Expanded, Recorded, Unfinished, Flat, FirstFrom, DepthFirst,
      Deeper;
    search := new ImpactSearch(g, focal, bound);
    Start(g, focal, bound);
    OnlyFocal(g, bound, focal);
    assert search.nodes.Keys == {focal};
    ghost var first := search.Visit(focal, 0);
    level := search.level;
    FirstSearched(g, bound, focal, level, first);
    LevelsDone(g, bound, focal, search.nodes, search.edges, search.frontier, search.visited, level);
  }

  /** `getImpactRadius`. The answer holds nothing out of range; `truncated` is
      never false while a dependent is missing, and on a graph without
      dangling edges it is true exactly then, `deeperCount` being exactly the
      number of direct dependents left out. With room to spare the answer is
      everything the change could affect. */
  method GetImpactRadius(g: Graph, focal: Id, bound: Bound) returns (r: Radius, ghost level: map<Id, nat>)
    ensures r.NoSuchSymbol? <==> focal !in g.nodes
    ensures r.Radius? ==> Labelling(g, bound, focal, r.nodes, r.edges, level)
    ensures r.Radius? && Flat(g) ==> DepthFirst(g, bound, focal, level)
    ensures r.Radius? ==> r.roots == [focal] && focal in r.nodes
    ensures r.Radius? ==> Rows(g, bound, focal, r.nodes) && Connected(g, focal, r.nodes, r.edges)
    ensures r.Radius? ==> (r.truncated <==> r.deeperCount > 0)
    ensures r.Radius? && !r.truncated ==> Closed(DependentSteps(g), r.nodes.Keys)
    ensures r.Radius? && !r.truncated ==> forall s :: Reaches(DependentSteps(g), focal, s) ==> s in r.nodes
    ensures r.Radius? && g.NoDangling() ==> r.deeperCount == |LeftOut(g, r.nodes)|
    ensures r.Radius? && g.NoDangling() ==>
      forall s :: s in LeftOut(g, r.nodes) ==> s in g.nodes && Reaches(ImpactSteps(g), focal, s)
    ensures r.Radius? && Roomy(g, bound) ==> forall v :: v in r.nodes <==> Reaches(ImpactSteps(g), focal, v)
  {
    if focal !in g.nodes {
      return NoSuchSymbol, map[];
    }
    hide Rows, Connected, Reaches, InRange, LeftOut, At, Dependent, Witnessed, Roomy, Closed, DependentSteps,
      ImpactSteps, Recorded, Levels, Labelling, Expanded, Unfinished, Flat, DepthFirst;
    var search;
    search, level := SearchFrom(g, focal, bound);
    var deeperCount := CountOmitted(search.frontier, search.nodes);
    r := Radius(search.nodes, search.edges, [focal], deeperCount > 0, deeperCount);
    if deeperCount == 0 {
      NoneLeftOut(g, r.nodes, search.frontier);
      HoldsDependents(g, focal, r.nodes);
    }
    if g.NoDangling() {
      FrontierIsLeftOut(g, search.nodes, search.frontier);
      LeftOutIsReachable(g, bound, focal, r.nodes);
    }
    if Roomy(g, bound) {
      AllExpanded(g, r.nodes);
      HoldsEverything(g, bound, focal, r.nodes);
    }
  }

  lemma Start(g: Graph, focal: Id, bound: Bound)
    requires focal in g.nodes
    ensures At(g, bound, focal, focal, 0)
    ensures Evidence(g, bound, focal, map[focal := g.nodes[focal]], [], {})
    ensures Levels(g, bound, focal, [], {}, map[focal := 0])
    ensures 0 < |map[focal := g.nodes[focal]]|
  {
    AtFocal(g, bound, focal);
  }

  lemma OnlyFocal(g: Graph, bound: Bound, focal: Id)
    ensures Unfinished(g, bound, {}, {focal}, {}, map[focal := 0]) <= {focal}
  {
  }
}
