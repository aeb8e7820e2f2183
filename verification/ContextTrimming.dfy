/** Trimming to the node budget: entry points and what one pass over the edges
    finds around them come first. */
module ContextTrimming {
  import opened Wrappers
  import opened CodeGraph
  import opened ContextGathering

  function Get(nodes: seq<Node>, id: Id): (n: Node)
    requires Has(nodes, id)
    ensures n in nodes && n.id == id
  {
    if nodes[0].id == id then nodes[0]
    else
      assert Has(nodes[1..], id) by {
        var i :| 0 <= i < |nodes| && nodes[i].id == id;
        assert nodes[1..][i - 1] == nodes[i];
      }
      Get(nodes[1..], id)
  }

  /** The ids in order, each once. */
  function Once(ids: seq<Id>): (r: seq<Id>)
    ensures forall id :: id in r <==> id in ids
    ensures Distinct(r) && |r| <= |ids|
  {
    if ids == [] then []
    else
      assert ids == ids[..|ids| - 1] + [ids[|ids| - 1]];
      var r := Once(ids[..|ids| - 1]);
      if ids[|ids| - 1] in r then r else r + [ids[|ids| - 1]]
  }

  /** What one edge adds: the end that is not listed, if the other one is. */
  function Spread(ids: seq<Id>, e: Edge): (r: seq<Id>)
    ensures ids <= r && (Distinct(ids) ==> Distinct(r))
    ensures e.source in ids || e.target in ids ==> e.source in r && e.target in r
  {
    var s := if e.source in ids && e.target !in ids then ids + [e.target] else ids;
    if e.target in s && e.source !in s then s + [e.source] else s
  }

  /** The one pass over the edges, which also passes on what it has just added. */
  function SpreadAll(ids: seq<Id>, edges: seq<Edge>): (r: seq<Id>)
    ensures ids <= r && (Distinct(ids) ==> Distinct(r))
  {
    if edges == [] then ids else Spread(SpreadAll(ids, edges[..|edges| - 1]), edges[|edges| - 1])
  }

  /** Roots first, in order and without repeats, then what the pass finds. */
  function Preference(roots: seq<Id>, edges: seq<Edge>): seq<Id> {
    SpreadAll(Once(roots), edges)
  }

  /** The nodes of these ids, in order, as far as they exist. */
  function Existing(nodes: seq<Node>, ids: seq<Id>): seq<Node> {
    if ids == [] then []
    else Existing(nodes, ids[..|ids| - 1]) + if Has(nodes, ids[|ids| - 1]) then [Get(nodes, ids[|ids| - 1])] else []
  }

  function NotAmong(nodes: seq<Node>): Node -> bool {
    (n: Node) => !Has(nodes, n.id)
  }

  /** The preferred nodes. */
  function Preferred(nodes: seq<Node>, edges: seq<Edge>, roots: seq<Id>): seq<Node> {
    Existing(nodes, Preference(roots, edges))
  }

  function FirstOf(nodes: seq<Node>, n: nat): seq<Node> {
    nodes[..Min(n, |nodes|)]
  }

  /** What the node budget leaves: the preferred nodes first, then the others in
      order. */
  function Trimmed(nodes: seq<Node>, edges: seq<Edge>, roots: seq<Id>, maxNodes: nat): seq<Node> {
    if |nodes| <= maxNodes then nodes
    else
      var preferred := Preferred(nodes, edges, roots);
      FirstOf(preferred + Where(nodes, NotAmong(preferred)), maxNodes)
  }

  method PriorityIds(roots: seq<Id>, edges: seq<Edge>) returns (ids: seq<Id>)
    ensures ids == Preference(roots, edges)
  {
    hide Distinct;
    ids := [];
    for i := 0 to |roots|
      invariant ids == Once(roots[..i])
    {
      assert roots[..i + 1][..i] == roots[..i];
      if roots[i] !in ids {
        ids := ids + [roots[i]];
      }
    }
    assert roots[..|roots|] == roots;
    for i := 0 to |edges|
      invariant ids == SpreadAll(Once(roots), edges[..i])
    {
      assert edges[..i + 1][..i] == edges[..i];
      ghost var was := ids;
      if edges[i].source in ids && edges[i].target !in ids {
        ids := ids + [edges[i].target];
      }
      if edges[i].target in ids && edges[i].source !in ids {
        ids := ids + [edges[i].source];
      }
      assert ids == Spread(was, edges[i]);
    }
    assert edges[..|edges|] == edges;
  }

  lemma TakeNext(nodes: seq<Node>, ids: seq<Id>, maxNodes: nat, id: Id)
    requires id !in ids
    ensures var r := FirstOf(Existing(nodes, ids), maxNodes);
      && !Has(r, id)
      && FirstOf(Existing(nodes, ids + [id]), maxNodes) ==
         if Has(nodes, id) && |r| < maxNodes then r + [Get(nodes, id)] else r
  {
    ExistingPrefix(nodes, ids, maxNodes, id);
    assert (ids + [id])[..|ids|] == ids;
  }

  /** The preferred nodes in order, as far as the budget goes. */
  method TakePreferred(nodes: seq<Node>, ids: seq<Id>, maxNodes: nat) returns (r: seq<Node>)
    requires Distinct(ids)
    ensures r == FirstOf(Existing(nodes, ids), maxNodes)
  {
    hide Distinct, Existing, FirstOf, Has;
    r := [];
    NoneTaken(nodes, maxNodes);
    for i := 0 to |ids|
      invariant r == FirstOf(Existing(nodes, ids[..i]), maxNodes)
    {
      assert ids[..i + 1] == ids[..i] + [ids[i]];
      NotBefore(ids, i);
      TakeNext(nodes, ids[..i], maxNodes, ids[i]);
      if Has(nodes, ids[i]) && |r| < maxNodes && !Has(r, ids[i]) {
        r := r + [Get(nodes, ids[i])];
      }
    }
    assert ids[..|ids|] == ids;
  }

  lemma NoneTaken(nodes: seq<Node>, maxNodes: nat)
    ensures FirstOf(Existing(nodes, []), maxNodes) == []
  {
  }

  lemma NotBefore(ids: seq<Id>, i: nat)
    requires i < |ids| && Distinct(ids)
    ensures ids[i] !in ids[..i]
  {
  }

  lemma {:induction false} ExistingIds(nodes: seq<Node>, ids: seq<Id>)
    ensures forall n :: n in Existing(nodes, ids) ==> n in nodes && n.id in ids
    ensures forall id :: id in ids && Has(nodes, id) ==> Has(Existing(nodes, ids), id)
    ensures Distinct(ids) ==> DistinctIds(Existing(nodes, ids))
    ensures |Existing(nodes, ids)| <= |ids|
  {
    if ids != [] {
      var init, last := ids[..|ids| - 1], ids[|ids| - 1];
      assert ids == init + [last];
      ExistingIds(nodes, init);
      HasMore(Existing(nodes, init), Existing(nodes, ids));
      if Has(nodes, last) {
        assert Existing(nodes, ids)[|Existing(nodes, init)|].id == last;
      }
    }
  }

  /** An id not looked at yet is not among the nodes taken. */
  lemma ExistingPrefix(nodes: seq<Node>, ids: seq<Id>, n: nat, id: Id)
    requires id !in ids
    ensures !Has(FirstOf(Existing(nodes, ids), n), id)
  {
    ExistingIds(nodes, ids);
    var r := FirstOf(Existing(nodes, ids), n);
    assert forall i :: 0 <= i < |r| ==> r[i] in Existing(nodes, ids);
  }

  /** Room that is left goes to the other nodes, in order. */
  method FillUp(nodes: seq<Node>, kept: seq<Node>, maxNodes: nat) returns (r: seq<Node>)
    requires DistinctIds(nodes) && |kept| <= maxNodes
    ensures r == FirstOf(kept + Where(nodes, NotAmong(kept)), maxNodes)
  {
    hide DistinctIds, Where;
    r := kept;
    NothingSelected(kept, NotAmong(kept));
    for i := 0 to |nodes|
      invariant r == kept + Where(nodes[..i], NotAmong(kept)) && |r| <= maxNodes
    {
      assert nodes[..i + 1] == nodes[..i] + [nodes[i]];
      WhereConcat(nodes[..i], nodes[i..], NotAmong(kept));
      assert nodes[..i] + nodes[i..] == nodes;
      if |r| >= maxNodes {
        assert kept + Where(nodes, NotAmong(kept)) == r + Where(nodes[i..], NotAmong(kept));
        return;
      }
      WhereConcat(nodes[..i], [nodes[i]], NotAmong(kept));
      WhereOne(nodes[i], NotAmong(kept));
      NewToBoth(nodes, i, kept);
      if !Has(r, nodes[i].id) {
        r := r + [nodes[i]];
      }
    }
    assert nodes[..|nodes|] == nodes;
  }

  lemma NothingSelected(kept: seq<Node>, p: Node -> bool)
    ensures Where([], p) == [] && kept + [] == kept
  {
  }

  lemma WhereOne(n: Node, p: Node -> bool)
    ensures Where([n], p) == if p(n) then [n] else []
  {
    assert [n][..0] == [];
  }

  /** A node is among those taken so far exactly when it was kept before. */
  lemma NewToBoth(nodes: seq<Node>, i: nat, kept: seq<Node>)
    requires i < |nodes| && DistinctIds(nodes)
    ensures Has(kept + Where(nodes[..i], NotAmong(kept)), nodes[i].id) <==> Has(kept, nodes[i].id)
  {
    var rest := Where(nodes[..i], NotAmong(kept));
    var r := kept + rest;
    HasMore(kept, r);
    assert forall n :: n in rest ==> n in nodes[..i] && n.id != nodes[i].id;
    assert forall j :: |kept| <= j < |r| ==> r[j] in rest;
    if Has(r, nodes[i].id) {
      var k :| 0 <= k < |r| && r[k].id == nodes[i].id;
      assert kept[k].id == nodes[i].id;
    }
  }

  /** The node budget, as the code spends it. */
  method Trim(nodes: seq<Node>, edges: seq<Edge>, roots: seq<Id>, maxNodes: nat) returns (r: seq<Node>)
    requires DistinctIds(nodes)
    ensures r == Trimmed(nodes, edges, roots, maxNodes)
  {
    if |nodes| <= maxNodes {
      return nodes;
    }
    var ids := PriorityIds(roots, edges);
    var kept := TakePreferred(nodes, ids, maxNodes);
    r := FillUp(nodes, kept, maxNodes);
    hide Where, Existing, DistinctIds;
    var preferred := Preferred(nodes, edges, roots);
    if |preferred| > maxNodes {
      assert FirstOf(kept + Where(nodes, NotAmong(kept)), maxNodes) == kept;
      assert FirstOf(preferred + Where(nodes, NotAmong(preferred)), maxNodes) == kept;
    } else {
      assert kept == preferred;
    }
  }

  /** Exactly as many nodes as the budget allows, none of them made up, and the
      roots among them whenever they fit. */
  lemma TrimmedFits(nodes: seq<Node>, edges: seq<Edge>, roots: seq<Id>, maxNodes: nat)
    requires DistinctIds(nodes)
    ensures var r := Trimmed(nodes, edges, roots, maxNodes);
      && DistinctIds(r) && (forall n :: n in r ==> n in nodes) && |r| == Min(|nodes|, maxNodes)
      && (|roots| <= maxNodes ==> forall id :: id in roots && Has(nodes, id) ==> Has(r, id))
  {
    if |nodes| > maxNodes {
      var preferred := Preferred(nodes, edges, roots);
      var rest := Where(nodes, NotAmong(preferred));
      var all := preferred + rest;
      OrderedIsAll(nodes, preferred, Preference(roots, edges));
      var r := FirstOf(all, maxNodes);
      assert forall n :: n in r ==> n in all;
      forall id | |roots| <= maxNodes && id in roots && Has(nodes, id) ensures Has(r, id) {
        RootsInFront(nodes, edges, roots, id);
        var k :| 0 <= k < |roots| && k < |preferred| && preferred[k].id == id;
        assert r[k].id == id;
      }
    }
  }

  /** The preferred nodes and the others are all the nodes, each once. */
  lemma OrderedIsAll(nodes: seq<Node>, preferred: seq<Node>, ids: seq<Id>)
    requires DistinctIds(nodes) && Distinct(ids) && preferred == Existing(nodes, ids)
    ensures var all := preferred + Where(nodes, NotAmong(preferred));
      DistinctIds(all) && (forall n :: n in all <==> n in nodes) && |all| == |nodes|
  {
    ExistingIds(nodes, ids);
    WhereDistinct(nodes, NotAmong(preferred));
    var rest := Where(nodes, NotAmong(preferred));
    var all := preferred + rest;
    forall i, j | 0 <= i < j < |all| ensures all[i].id != all[j].id {
      if i < |preferred| <= j {
        assert rest[j - |preferred|] in rest;
        assert preferred[i].id == all[i].id;
      }
    }
    forall n | n in nodes ensures n in all {
      if Has(preferred, n.id) {
        var k :| 0 <= k < |preferred| && preferred[k].id == n.id;
        assert preferred[k] in nodes;
      }
    }
    Fewer(all, nodes);
    Fewer(nodes, all);
  }

  /** Each root is among the first preferred nodes, no further than there are roots. */
  lemma RootsInFront(nodes: seq<Node>, edges: seq<Edge>, roots: seq<Id>, id: Id)
    requires id in roots && Has(nodes, id)
    ensures var preferred := Preferred(nodes, edges, roots);
      exists k :: 0 <= k < |roots| && k < |preferred| && preferred[k].id == id
  {
    var first, ids := Once(roots), Preference(roots, edges);
    ExistingMore(nodes, first, ids);
    ExistingIds(nodes, first);
    var k :| 0 <= k < |Existing(nodes, first)| && Existing(nodes, first)[k].id == id;
    assert Preferred(nodes, edges, roots)[k].id == id;
  }

  lemma {:induction false} ExistingMore(nodes: seq<Node>, a: seq<Id>, b: seq<Id>)
    requires a <= b
    ensures Existing(nodes, a) <= Existing(nodes, b)
    decreases |b|
  {
    if a != b {
      assert a <= b[..|b| - 1];
      ExistingMore(nodes, a, b[..|b| - 1]);
    }
  }

  // ---- neighbours of the entry points ---------------------------------------------------

  /** A root, or an end of an edge whose other end is a root. */
  predicate Direct(roots: seq<Id>, edges: seq<Edge>, id: Id) {
    || id in roots
    || exists e :: e in edges && ((e.source in roots && e.target == id) || (e.target in roots && e.source == id))
  }

  /** No other node is kept while a root or a neighbour of one is dropped. */
  ghost predicate NeighboursFirst(nodes: seq<Node>, edges: seq<Edge>, roots: seq<Id>, r: seq<Node>) {
    forall n, m :: n in r && m in nodes && m !in r && Direct(roots, edges, m.id) ==> Direct(roots, edges, n.id)
  }

  /** How many nodes at the front of the list are roots or their neighbours. */
  function Leading(nodes: seq<Node>, edges: seq<Edge>, roots: seq<Id>): (k: nat)
    ensures k <= |nodes| && (k < |nodes| ==> !Direct(roots, edges, nodes[k].id))
    ensures forall i :: 0 <= i < k ==> Direct(roots, edges, nodes[i].id)
  {
    if nodes == [] then 0
    else
      var k := Leading(nodes[..|nodes| - 1], edges, roots);
      if k == |nodes| - 1 && Direct(roots, edges, nodes[k].id) then k + 1 else k
  }

  /** How far into the list the last of them is. */
  function Through(nodes: seq<Node>, edges: seq<Edge>, roots: seq<Id>): (k: nat)
    ensures k <= |nodes| && (k > 0 ==> Direct(roots, edges, nodes[k - 1].id))
    ensures forall i :: k <= i < |nodes| ==> !Direct(roots, edges, nodes[i].id)
  {
    if nodes == [] then 0
    else if Direct(roots, edges, nodes[|nodes| - 1].id) then |nodes|
    else Through(nodes[..|nodes| - 1], edges, roots)
  }

  /** Neighbours of roots are preferred, wherever in the list. */
  lemma DirectPreferred(nodes: seq<Node>, edges: seq<Edge>, roots: seq<Id>, m: Node)
    requires DistinctIds(nodes) && m in nodes && Direct(roots, edges, m.id)
    ensures m in Preferred(nodes, edges, roots)
  {
    var ids := Preference(roots, edges);
    if m.id in roots {
      assert m.id in ids;
    } else {
      var e :| e in edges && ((e.source in roots && e.target == m.id) || (e.target in roots && e.source == m.id));
      SpreadHolds(Once(roots), edges, e);
    }
    ExistingIds(nodes, ids);
    assert Has(nodes, m.id);
    var k :| 0 <= k < |Preferred(nodes, edges, roots)| && Preferred(nodes, edges, roots)[k].id == m.id;
    assert Preferred(nodes, edges, roots)[k] in nodes;
  }

  lemma {:induction false} SpreadHolds(ids: seq<Id>, edges: seq<Edge>, e: Edge)
    requires e in edges && (e.source in ids || e.target in ids)
    ensures e.source in SpreadAll(ids, edges) && e.target in SpreadAll(ids, edges)
  {
    var init, last := edges[..|edges| - 1], edges[|edges| - 1];
    assert edges == init + [last];
    if e in init {
      SpreadHolds(ids, init, e);
    }
  }

  /** Cutting the list of preferred nodes: what is dropped for what is kept. */
  lemma CutIff(preferred: seq<Node>, edges: seq<Edge>, roots: seq<Id>, cut: nat)
    requires DistinctIds(preferred) && cut <= |preferred|
    ensures NeighboursFirst(preferred, edges, roots, preferred[..cut]) <==>
      cut <= Leading(preferred, edges, roots) || Through(preferred, edges, roots) <= cut
  {
    hide Direct, Leading, Through;
    var lead, through := Leading(preferred, edges, roots), Through(preferred, edges, roots);
    var r := preferred[..cut];
    if lead < cut < through {
      assert r[lead] == preferred[lead] && r[lead] in r;
      BehindTheCut(preferred, cut, through - 1);
      assert preferred[through - 1] in preferred;
    } else {
      assert forall k :: 0 <= k < cut ==> r[k] == preferred[k] && r[k] in r;
      forall n, m | n in r && m in preferred && m !in r && Direct(roots, edges, m.id)
        ensures Direct(roots, edges, n.id)
      {
        var k :| 0 <= k < |preferred| && preferred[k] == m;
        var i :| 0 <= i < |r| && r[i] == n;
        assert preferred[i] == n;
      }
    }
  }

  /** Neighbours of the entry points come first exactly when the budget is not
      between the first node on the list that is not one and the last that is. */
  lemma NeighboursFirstIff(nodes: seq<Node>, edges: seq<Edge>, roots: seq<Id>, maxNodes: nat)
    requires DistinctIds(nodes)
    ensures var preferred := Preferred(nodes, edges, roots);
      NeighboursFirst(nodes, edges, roots, Trimmed(nodes, edges, roots, maxNodes)) <==>
        || |nodes| <= maxNodes
        || maxNodes <= Leading(preferred, edges, roots)
        || Through(preferred, edges, roots) <= maxNodes
  {
    hide Existing, Preference, Direct, Where, Leading, Through, DistinctIds, Preferred;
    var preferred := Preferred(nodes, edges, roots);
    var r := Trimmed(nodes, edges, roots, maxNodes);
    PreferredDistinct(nodes, edges, roots);
    forall m | m in nodes && Direct(roots, edges, m.id) ensures m in preferred {
      DirectPreferred(nodes, edges, roots, m);
    }
    if maxNodes < |nodes| && maxNodes <= |preferred| {
      CutShort(nodes, edges, roots, maxNodes);
      CutIff(preferred, edges, roots, maxNodes);
    } else if maxNodes < |nodes| {
      AllPreferred(nodes, edges, roots, maxNodes);
    }
  }

  lemma AllPreferred(nodes: seq<Node>, edges: seq<Edge>, roots: seq<Id>, maxNodes: nat)
    requires |Preferred(nodes, edges, roots)| < maxNodes < |nodes|
    ensures forall n :: n in Preferred(nodes, edges, roots) ==> n in Trimmed(nodes, edges, roots, maxNodes)
  {
    hide Preferred, Where;
    var preferred, r := Preferred(nodes, edges, roots), Trimmed(nodes, edges, roots, maxNodes);
    forall n | n in preferred && |r| >= |preferred| ensures n in r {
      var k :| 0 <= k < |preferred| && preferred[k] == n;
      assert r[k] == n;
    }
  }

  lemma CutShort(nodes: seq<Node>, edges: seq<Edge>, roots: seq<Id>, maxNodes: nat)
    requires maxNodes < |nodes| && maxNodes <= |Preferred(nodes, edges, roots)|
    ensures Trimmed(nodes, edges, roots, maxNodes) == Preferred(nodes, edges, roots)[..maxNodes]
  {
  }

  lemma PreferredDistinct(nodes: seq<Node>, edges: seq<Edge>, roots: seq<Id>)
    ensures DistinctIds(Preferred(nodes, edges, roots))
    ensures forall n :: n in Preferred(nodes, edges, roots) ==> n in nodes
  {
    ExistingIds(nodes, Preference(roots, edges));
  }

  lemma BehindTheCut(nodes: seq<Node>, cut: nat, k: nat)
    requires DistinctIds(nodes) && cut <= k < |nodes|
    ensures nodes[k] !in nodes[..cut]
  {
  }

  function Plain(id: Id): Node {
    Node(id, Function, id, "a.ts", "typescript", "")
  }

  function Call(source: Id, target: Id): Edge {
    Edge(source, target, Calls, None, None, None, None)
  }

  /** One entry point with two neighbours, the first of which has another. */
  function Fork(r: Id, a: Id, b: Id, c: Id): seq<Edge> {
    [Call(r, a), Call(a, b), Call(r, c)]
  }

  predicate FourIds(r: Id, a: Id, b: Id, c: Id) {
    r != a && r != b && r != c && a != b && a != c && b != c
  }

  lemma ForkOrder(r: Id, a: Id, b: Id, c: Id)
    requires FourIds(r, a, b, c)
    ensures Preference([r], Fork(r, a, b, c)) == [r, a, b, c]
  {
    OnceOne(r);
    hide Spread, Once;
    var e1 := [Call(r, a)];
    var e2 := e1 + [Call(a, b)];
    assert [] + [Call(r, a)] == e1 && e2 + [Call(r, c)] == Fork(r, a, b, c);
    SpreadNext([r], [], Call(r, a));
    SpreadNew([r], r, a);
    assert [r] + [a] == [r, a];
    SpreadNext([r], e1, Call(a, b));
    SpreadNew([r, a], a, b);
    assert [r, a] + [b] == [r, a, b];
    SpreadNext([r], e2, Call(r, c));
    SpreadNew([r, a, b], r, c);
    assert [r, a, b] + [c] == [r, a, b, c];
  }

  lemma OnceOne(r: Id)
    ensures Once([r]) == [r] && SpreadAll([r], []) == [r]
  {
    assert [r][..0] == [];
  }

  lemma SpreadNew(ids: seq<Id>, source: Id, target: Id)
    requires source in ids && target !in ids
    ensures Spread(ids, Call(source, target)) == ids + [target]
  {
  }

  lemma SpreadNext(ids: seq<Id>, edges: seq<Edge>, e: Edge)
    ensures SpreadAll(ids, edges + [e]) == Spread(SpreadAll(ids, edges), e)
  {
    assert (edges + [e])[..|edges|] == edges;
  }

  lemma {:induction false} ExistingAll(nodes: seq<Node>, k: nat)
    requires DistinctIds(nodes) && k <= |nodes|
    ensures Existing(nodes, IdsOf(nodes)[..k]) == nodes[..k]
  {
    hide Get, Has;
    if k > 0 {
      ExistingAll(nodes, k - 1);
      var ids := IdsOf(nodes);
      assert ids[..k][..k - 1] == ids[..k - 1] && ids[..k][k - 1] == nodes[k - 1].id;
      GetAt(nodes, k - 1);
      assert nodes[..k] == nodes[..k - 1] + [nodes[k - 1]];
    }
  }

  lemma GetAt(nodes: seq<Node>, k: nat)
    requires DistinctIds(nodes) && k < |nodes|
    ensures Has(nodes, nodes[k].id) && Get(nodes, nodes[k].id) == nodes[k]
  {
    var n := Get(nodes, nodes[k].id);
    var i :| 0 <= i < |nodes| && nodes[i] == n;
  }

  lemma ForkPreferred(r: Id, a: Id, b: Id, c: Id)
    requires FourIds(r, a, b, c)
    ensures var nodes := [Plain(r), Plain(a), Plain(b), Plain(c)];
      DistinctIds(nodes) && Preferred(nodes, Fork(r, a, b, c), [r]) == nodes
  {
    var nodes := [Plain(r), Plain(a), Plain(b), Plain(c)];
    ForkOrder(r, a, b, c);
    assert DistinctIds(nodes);
    hide DistinctIds, Existing, Preference;
    ExistingAll(nodes, 4);
    assert IdsOf(nodes) == [r, a, b, c] && IdsOf(nodes)[..4] == IdsOf(nodes) && nodes[..4] == nodes;
  }

  /** It fails for the edges r-a, a-b and r-c and room for three nodes: b is kept,
      which the pass reached through a, and c is dropped. */
  lemma ForkTrimmed(r: Id, a: Id, b: Id, c: Id)
    requires FourIds(r, a, b, c)
    ensures var nodes, edges := [Plain(r), Plain(a), Plain(b), Plain(c)], Fork(r, a, b, c);
      && Trimmed(nodes, edges, [r], 3) == [Plain(r), Plain(a), Plain(b)]
      && Direct([r], edges, c) && !Direct([r], edges, b)
      && !NeighboursFirst(nodes, edges, [r], Trimmed(nodes, edges, [r], 3))
  {
    ForkPreferred(r, a, b, c);
    hide Preferred, DistinctIds, Existing, Preference;
    var nodes, edges := [Plain(r), Plain(a), Plain(b), Plain(c)], Fork(r, a, b, c);
    CutShort(nodes, edges, [r], 3);
    var kept := Trimmed(nodes, edges, [r], 3);
    assert kept == [Plain(r), Plain(a), Plain(b)];
    assert edges[2] == Call(r, c);
    assert Direct([r], edges, c) && !Direct([r], edges, b);
    assert kept[2] in kept && nodes[3] in nodes && nodes[3] !in kept;
  }

  lemma NeighbourDropped()
    ensures var nodes, edges := [Plain("r"), Plain("a"), Plain("b"), Plain("c")], Fork("r", "a", "b", "c");
      && Trimmed(nodes, edges, ["r"], 3) == [Plain("r"), Plain("a"), Plain("b")]
      && !NeighboursFirst(nodes, edges, ["r"], Trimmed(nodes, edges, ["r"], 3))
  {
    assert "r"[0] == 'r' && "a"[0] == 'a' && "b"[0] == 'b' && "c"[0] == 'c';
    ForkTrimmed("r", "a", "b", "c");
  }
}
