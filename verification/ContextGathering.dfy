/** The first part of the tail of `findRelevantContext`: merge what the searches
    found, with the hierarchies of types within their budget. */
module ContextGathering {
  import opened CodeGraph

  /** A result of one traversal, nodes in the order of its `Map`. */
  datatype Found = Found(nodes: seq<Node>, edges: seq<Edge>)

  /** The budgets derived from `maxNodes`. */
  datatype Budget = Budget(maxNodes: nat, maxPerFile: nat, maxNonProd: nat, maxHierarchy: nat)

  const TYPE_KINDS: set<NodeKind> := {Class, Interface, Struct, Trait, Protocol}

  // ---- ordered maps of nodes and lists of edges ------------------------------------

  predicate Has(nodes: seq<Node>, id: Id) {
    exists i :: 0 <= i < |nodes| && nodes[i].id == id
  }

  ghost predicate DistinctIds(nodes: seq<Node>) {
    forall i, j :: 0 <= i < j < |nodes| ==> nodes[i].id != nodes[j].id
  }

  predicate SameTriple(a: Edge, b: Edge) {
    a.source == b.source && a.target == b.target && a.kind == b.kind
  }

  ghost predicate UniqueEdges(es: seq<Edge>) {
    forall i, j :: 0 <= i < j < |es| ==> !SameTriple(es[i], es[j])
  }

  /** Nodes that satisfy `p`, in order. */
  function Where(nodes: seq<Node>, p: Node -> bool): (r: seq<Node>)
    ensures forall n :: n in r <==> n in nodes && p(n)
    ensures |r| <= |nodes|
  {
    if nodes == [] then []
    else
      assert nodes == nodes[..|nodes| - 1] + [nodes[|nodes| - 1]];
      var rest := Where(nodes[..|nodes| - 1], p);
      if p(nodes[|nodes| - 1]) then rest + [nodes[|nodes| - 1]] else rest
  }

  lemma {:induction false} WhereDistinct(nodes: seq<Node>, p: Node -> bool)
    requires DistinctIds(nodes)
    ensures DistinctIds(Where(nodes, p))
  {
    if nodes != [] {
      var rest, last := nodes[..|nodes| - 1], nodes[|nodes| - 1];
      assert nodes == rest + [last];
      WhereDistinct(rest, p);
      assert forall n :: n in rest ==> n.id != last.id;
    }
  }

  lemma {:induction false} WhereConcat(a: seq<Node>, b: seq<Node>, p: Node -> bool)
    ensures Where(a + b, p) == Where(a, p) + Where(b, p)
  {
    if b == [] {
      assert a + b == a;
    } else {
      assert (a + b)[..|a + b| - 1] == a + b[..|b| - 1];
      WhereConcat(a, b[..|b| - 1], p);
    }
  }

  lemma {:induction false} WhereAll(nodes: seq<Node>, p: Node -> bool)
    requires forall n :: n in nodes ==> p(n)
    ensures Where(nodes, p) == nodes
  {
    if nodes != [] {
      assert nodes == nodes[..|nodes| - 1] + [nodes[|nodes| - 1]];
      WhereAll(nodes[..|nodes| - 1], p);
    }
  }

  /** Selections commute. */
  lemma {:induction false} WhereTwice(nodes: seq<Node>, p: Node -> bool, q: Node -> bool)
    ensures Where(Where(nodes, q), p) == Where(Where(nodes, p), q)
  {
    if nodes != [] {
      var init, last := nodes[..|nodes| - 1], nodes[|nodes| - 1];
      WhereTwice(init, p, q);
      WhereConcat(Where(init, q), [last], p);
      WhereConcat(Where(init, p), [last], q);
    }
  }

  lemma {:induction false} WhereNone(nodes: seq<Node>, p: Node -> bool)
    requires forall n :: n in nodes ==> !p(n)
    ensures Where(nodes, p) == []
  {
    if nodes != [] {
      assert nodes == nodes[..|nodes| - 1] + [nodes[|nodes| - 1]];
      WhereNone(nodes[..|nodes| - 1], p);
    }
  }

  /** Of fewer nodes, at most as many satisfy `p`. */
  lemma {:induction false} WhereFewer(nodes: seq<Node>, more: seq<Node>, p: Node -> bool)
    requires forall n :: n in nodes ==> n in more
    requires DistinctIds(nodes) && DistinctIds(more)
    ensures |Where(nodes, p)| <= |Where(more, p)|
  {
    WhereDistinct(nodes, p);
    WhereDistinct(more, p);
    Fewer(Where(nodes, p), Where(more, p));
  }

  lemma {:induction false} Fewer(a: seq<Node>, b: seq<Node>)
    requires DistinctIds(a) && forall n :: n in a ==> n in b
    ensures |a| <= |b|
    decreases |a|
  {
    if a != [] {
      var last := a[|a| - 1];
      assert last in a;
      var i :| 0 <= i < |b| && b[i] == last;
      var rest := b[..i] + b[i + 1..];
      forall n | n in a[..|a| - 1] ensures n in rest {
        assert n in a && n != last;
        var j :| 0 <= j < |b| && b[j] == n;
        assert rest[if j < i then j else j - 1] == n;
      }
      Fewer(a[..|a| - 1], rest);
    }
  }

  /** The nodes with those of `more` that are not there yet. */
  function Merged(nodes: seq<Node>, more: seq<Node>): seq<Node> {
    if more == [] then nodes
    else
      var r := Merged(nodes, more[..|more| - 1]);
      if Has(r, more[|more| - 1].id) then r else r + [more[|more| - 1]]
  }

  lemma {:induction false} MergedSize(nodes: seq<Node>, more: seq<Node>)
    ensures |nodes| <= |Merged(nodes, more)| <= |nodes| + |more|
  {
    if more != [] {
      MergedSize(nodes, more[..|more| - 1]);
    }
  }

  lemma OneMore(nodes: seq<Node>, n: Node)
    ensures Has(nodes + [n], n.id) && forall id :: Has(nodes, id) ==> Has(nodes + [n], id)
    ensures DistinctIds(nodes) && !Has(nodes, n.id) ==> DistinctIds(nodes + [n])
    ensures forall m :: m in nodes + [n] <==> m in nodes || m == n
  {
    var r := nodes + [n];
    assert r[|nodes|] == n;
    forall id | Has(nodes, id) ensures Has(r, id) {
      var k :| 0 <= k < |nodes| && nodes[k].id == id;
      assert r[k] == nodes[k];
    }
  }

  /** Add the nodes that are not there yet, up to `cap` of them if it is not
      negative. */
  method MergeNodes(nodes: seq<Node>, more: seq<Node>, cap: int) returns (r: seq<Node>, added: nat)
    requires DistinctIds(nodes)
    ensures DistinctIds(r) && nodes <= r && |r| == |nodes| + added
    ensures forall n :: n in r ==> n in nodes || n in more
    ensures added <= |more| && (cap >= 0 ==> added <= cap)
    ensures cap < 0 ==> r == Merged(nodes, more)
    ensures cap < 0 || added < cap ==> forall n :: n in more ==> Has(r, n.id)
  {
    hide Has, DistinctIds;
    r, added := nodes, 0;
    for i := 0 to |more|
      invariant DistinctIds(r) && nodes <= r && |r| == |nodes| + added && added <= i
      invariant forall n :: n in r ==> n in nodes || n in more
      invariant cap >= 0 ==> added <= cap
      invariant cap < 0 ==> r == Merged(nodes, more[..i])
      invariant cap < 0 || added < cap ==> forall j :: 0 <= j < i ==> Has(r, more[j].id)
    {
      assert more[..i + 1][..i] == more[..i];
      if !Has(r, more[i].id) && (cap < 0 || added < cap) {
        OneMore(r, more[i]);
        r := r + [more[i]];
        added := added + 1;
      }
    }
    assert more[..|more|] == more;
  }

  ghost predicate HasTriple(es: seq<Edge>, e: Edge) {
    exists f :: f in es && SameTriple(f, e)
  }

  ghost predicate HasTriples(es: seq<Edge>, some: seq<Edge>) {
    forall e :: e in some ==> HasTriple(es, e)
  }

  lemma HasTriplesMore(es: seq<Edge>, more: seq<Edge>, some: seq<Edge>)
    requires es <= more && HasTriples(es, some)
    ensures HasTriples(more, some)
  {
    forall e | e in some ensures HasTriple(more, e) {
      var f :| f in es && SameTriple(f, e);
      assert f in more;
    }
  }

  lemma TripleAt(es: seq<Edge>, j: nat, e: Edge)
    requires j < |es| && SameTriple(es[j], e)
    ensures HasTriple(es, e)
  {
    assert es[j] in es;
  }

  lemma TriplesMore(es: seq<Edge>, more: seq<Edge>)
    requires es <= more
    ensures forall e :: HasTriple(es, e) ==> HasTriple(more, e)
  {
    forall e | HasTriple(es, e) ensures HasTriple(more, e) {
      var f :| f in es && SameTriple(f, e);
      assert f in more;
    }
  }

  /** Of the edges `some`, those between the nodes are there. */
  ghost predicate TriplesAmong(es: seq<Edge>, some: seq<Edge>, nodes: seq<Node>) {
    forall e :: e in some && Has(nodes, e.source) && Has(nodes, e.target) ==> HasTriple(es, e)
  }

  /** Add the edges whose (source, target, kind) is not there yet. */
  method MergeEdges(edges: seq<Edge>, more: seq<Edge>, nodes: seq<Node>, onlyAmong: bool) returns (r: seq<Edge>)
    requires UniqueEdges(edges)
    ensures UniqueEdges(r) && edges <= r
    ensures forall e :: e in r ==> e in edges || e in more
    ensures !onlyAmong ==> HasTriples(r, more)
    ensures TriplesAmong(r, more, nodes)
    ensures onlyAmong ==> forall e :: e in r ==> e in edges || (Has(nodes, e.source) && Has(nodes, e.target))
  {
    hide Has, HasTriple;
    r := edges;
    for i := 0 to |more|
      invariant UniqueEdges(r) && edges <= r
      invariant forall e :: e in r ==> e in edges || e in more
      invariant !onlyAmong ==> HasTriples(r, more[..i])
      invariant TriplesAmong(r, more[..i], nodes)
      invariant onlyAmong ==> forall e :: e in r ==> e in edges || (Has(nodes, e.source) && Has(nodes, e.target))
    {
      var e := more[i];
      ghost var before := r;
      assert more[..i + 1] == more[..i] + [e];
      if !onlyAmong || (Has(nodes, e.source) && Has(nodes, e.target)) {
        if !(exists j :: 0 <= j < |r| && SameTriple(r[j], e)) {
          r := r + [e];
          assert r[|before|] == e;
          TripleAt(r, |before|, e);
        } else {
          ghost var j :| 0 <= j < |r| && SameTriple(r[j], e);
          TripleAt(r, j, e);
        }
      }
      TriplesMore(before, r);
    }
    assert more[..|more|] == more;
  }

  ghost predicate HasAll(nodes: seq<Node>, some: seq<Node>) {
    forall n :: n in some ==> Has(nodes, n.id)
  }

  lemma HasAllMore(nodes: seq<Node>, more: seq<Node>, some: seq<Node>)
    requires nodes <= more && HasAll(nodes, some)
    ensures HasAll(more, some)
  {
    HasMore(nodes, more);
  }

  /** The hierarchies of the types among the entry points are in. */
  ghost predicate TypesExpanded(nodes: seq<Node>, edges: seq<Edge>, entries: seq<Node>, hierarchy: Id -> Found) {
    forall n :: n in entries && n.kind in TYPE_KINDS ==>
      HasAll(nodes, hierarchy(n.id).nodes) && HasTriples(edges, hierarchy(n.id).edges)
  }

  lemma ExpandedMore(
    nodes: seq<Node>, edges: seq<Edge>, nodes': seq<Node>, edges': seq<Edge>, entries: seq<Node>,
    hierarchy: Id -> Found)
    requires TypesExpanded(nodes, edges, entries, hierarchy) && nodes <= nodes' && edges <= edges'
    ensures TypesExpanded(nodes', edges', entries, hierarchy)
  {
    forall n | n in entries && n.kind in TYPE_KINDS
      ensures HasAll(nodes', hierarchy(n.id).nodes) && HasTriples(edges', hierarchy(n.id).edges)
    {
      HasAllMore(nodes, nodes', hierarchy(n.id).nodes);
      HasTriplesMore(edges, edges', hierarchy(n.id).edges);
    }
  }

  lemma ExpandedNext(nodes: seq<Node>, edges: seq<Edge>, entries: seq<Node>, i: nat, hierarchy: Id -> Found)
    requires i < |entries| && TypesExpanded(nodes, edges, entries[..i], hierarchy)
    requires entries[i].kind in TYPE_KINDS ==>
      HasAll(nodes, hierarchy(entries[i].id).nodes) && HasTriples(edges, hierarchy(entries[i].id).edges)
    ensures TypesExpanded(nodes, edges, entries[..i + 1], hierarchy)
  {
    hide HasAll, HasTriples;
    assert entries[..i + 1] == entries[..i] + [entries[i]];
  }

  /** The nodes once the hierarchies of the types among the first `k` entry
      points are merged. */
  function AfterTypes(nodes: seq<Node>, entries: seq<Node>, hierarchy: Id -> Found, k: nat): seq<Node>
    requires k <= |entries|
  {
    if k == 0 then nodes
    else
      var before := AfterTypes(nodes, entries, hierarchy, k - 1);
      if entries[k - 1].kind in TYPE_KINDS then Merged(before, hierarchy(entries[k - 1].id).nodes) else before
  }

  lemma {:induction false} AfterTypesGrows(
    nodes: seq<Node>, entries: seq<Node>, hierarchy: Id -> Found, j: nat, k: nat)
    requires j <= k <= |entries|
    ensures |AfterTypes(nodes, entries, hierarchy, j)| <= |AfterTypes(nodes, entries, hierarchy, k)|
  {
    if j < k {
      AfterTypesGrows(nodes, entries, hierarchy, j, k - 1);
      MergedSize(AfterTypes(nodes, entries, hierarchy, k - 1), hierarchy(entries[k - 1].id).nodes);
    }
  }

  /** The first pass stops before entry `k`: the budget is used up there for the
      first time, or there are no more entries. */
  ghost predicate StopsAt(nodes: seq<Node>, entries: seq<Node>, hierarchy: Id -> Found, budget: nat, k: nat) {
    && k <= |entries|
    && (forall j: nat :: j < k ==> |AfterTypes(nodes, entries, hierarchy, j)| < |nodes| + budget)
    && (k == |entries| || |AfterTypes(nodes, entries, hierarchy, k)| >= |nodes| + budget)
  }

  /** Some beginning of the entries is the first to reach the budget, and goes
      beyond it. */
  ghost predicate Overshoots(nodes: seq<Node>, entries: seq<Node>, hierarchy: Id -> Found, budget: nat) {
    exists k: nat ::
      && k <= |entries| && |AfterTypes(nodes, entries, hierarchy, k)| > |nodes| + budget
      && forall j: nat :: j < k ==> |AfterTypes(nodes, entries, hierarchy, j)| < |nodes| + budget
  }

  /** The first pass exceeds its budget exactly when the hierarchy that reaches it
      brings more than is left, and then by less than that hierarchy's size. */
  lemma OvershootIff(nodes: seq<Node>, entries: seq<Node>, hierarchy: Id -> Found, budget: nat, k: nat)
    requires StopsAt(nodes, entries, hierarchy, budget, k)
    ensures |AfterTypes(nodes, entries, hierarchy, k)| > |nodes| + budget <==>
      Overshoots(nodes, entries, hierarchy, budget)
    ensures |AfterTypes(nodes, entries, hierarchy, k)| > |nodes| ==>
      && k > 0 && |AfterTypes(nodes, entries, hierarchy, k)| < |nodes| + budget + |hierarchy(entries[k - 1].id).nodes|
  {
    hide AfterTypes;
    if Overshoots(nodes, entries, hierarchy, budget) {
      var n: nat :| n <= |entries| && |AfterTypes(nodes, entries, hierarchy, n)| > |nodes| + budget
        && forall j: nat :: j < n ==> |AfterTypes(nodes, entries, hierarchy, j)| < |nodes| + budget;
      assert n <= k;
      AfterTypesGrows(nodes, entries, hierarchy, n, k);
    }
    LastMerge(nodes, entries, hierarchy, k);
  }

  lemma LastMerge(nodes: seq<Node>, entries: seq<Node>, hierarchy: Id -> Found, k: nat)
    requires k <= |entries|
    ensures k == 0 ==> AfterTypes(nodes, entries, hierarchy, k) == nodes
    ensures k > 0 ==>
      |AfterTypes(nodes, entries, hierarchy, k)| <=
      |AfterTypes(nodes, entries, hierarchy, k - 1)| + |hierarchy(entries[k - 1].id).nodes|
  {
    if k > 0 {
      MergedSize(AfterTypes(nodes, entries, hierarchy, k - 1), hierarchy(entries[k - 1].id).nodes);
    }
  }

  /** First pass: the hierarchies of the entry points that are types, all of
      them unless the budget for such nodes is used up; `stop` is where it is. */
  method ExpandTypes(nodes: seq<Node>, edges: seq<Edge>, entries: seq<Node>, hierarchy: Id -> Found, budget: Budget)
      returns (nodes': seq<Node>, edges': seq<Edge>, added: nat, ghost stop: nat)
    requires DistinctIds(nodes) && UniqueEdges(edges)
    ensures DistinctIds(nodes') && UniqueEdges(edges') && nodes <= nodes' && edges <= edges'
    ensures |nodes'| == |nodes| + added
    ensures StopsAt(nodes, entries, hierarchy, budget.maxHierarchy, stop)
    ensures nodes' == AfterTypes(nodes, entries, hierarchy, stop)
    ensures added > budget.maxHierarchy <==> Overshoots(nodes, entries, hierarchy, budget.maxHierarchy)
    ensures added > 0 ==> stop > 0 && added < budget.maxHierarchy + |hierarchy(entries[stop - 1].id).nodes|
    ensures added < budget.maxHierarchy ==> TypesExpanded(nodes', edges', entries, hierarchy)
    ensures forall e :: e in edges' ==> e in edges || EdgeFrom(entries, hierarchy, e)
  {
    hide DistinctIds, UniqueEdges, Has, TypesExpanded, HasTriples, Merged, Overshoots, EdgeFrom, TriplesAmong;
    nodes', edges', added, stop := nodes, edges, 0, |entries|;
    assert TypesExpanded(nodes', edges', [], hierarchy) by { NoTypes(nodes', edges', hierarchy); }
    for i := 0 to |entries|
      invariant DistinctIds(nodes') && UniqueEdges(edges') && nodes <= nodes' && edges <= edges'
      invariant |nodes'| == |nodes| + added && nodes' == AfterTypes(nodes, entries, hierarchy, i) && stop == |entries|
      invariant forall j: nat :: j < i ==> |AfterTypes(nodes, entries, hierarchy, j)| < |nodes| + budget.maxHierarchy
      invariant TypesExpanded(nodes', edges', entries[..i], hierarchy)
      invariant forall e :: e in edges' ==> e in edges || EdgeFrom(entries, hierarchy, e)
    {
      if added >= budget.maxHierarchy {
        stop := i;
        break;
      }
      ghost var before, edgesBefore := nodes', edges';
      EdgesFromOne(entries, i, hierarchy);
      if entries[i].kind in TYPE_KINDS {
        var count;
        var h := hierarchy(entries[i].id);
        nodes', count := MergeNodes(nodes', h.nodes, -1);
        edges' := MergeEdges(edges', h.edges, nodes', false);
        added := added + count;
      }
      ExpandedMore(before, edgesBefore, nodes', edges', entries[..i], hierarchy);
      ExpandedNext(nodes', edges', entries, i, hierarchy);
    }
    assert entries[..|entries|] == entries;
    OvershootIff(nodes, entries, hierarchy, budget.maxHierarchy, stop);
  }

  /** It happens: one entry point, a type with two supertypes, and a budget of one. */
  method OneTypeTooMany() returns (added: nat)
    ensures added == 2
  {
    var a := Node("a", Class, "A", "a.ts", "typescript", "");
    var b, c := a.(id := "b", name := "B"), a.(id := "c", name := "C");
    var hierarchy := (id: Id) => Found([a, b, c], []);
    var nodes, edges;
    ghost var stop;
    OneTypeMerged(a, b, c, hierarchy);
    EmptyOk();
    nodes, edges, added, stop := ExpandTypes([a], [], [a], hierarchy, Budget(4, 5, 3, 1));
  }

  lemma OneTypeMerged(a: Node, b: Node, c: Node, hierarchy: Id -> Found)
    requires a.kind == Class && a.id != b.id && a.id != c.id && b.id != c.id
    requires hierarchy(a.id).nodes == [a, b, c]
    ensures AfterTypes([a], [a], hierarchy, 0) == [a] && AfterTypes([a], [a], hierarchy, 1) == [a, b, c]
    ensures DistinctIds([a])
  {
    assert [a, b, c][..2] == [a, b] && [a, b][..1] == [a] && [a][..0] == [];
    assert Merged([a], [a]) == [a];
    assert !Has([a], b.id);
    assert Merged([a], [a, b]) == [a, b];
    assert !Has([a, b], c.id);
    assert Merged([a], [a, b, c]) == [a, b] + [c];
  }

  lemma NoTypes(nodes: seq<Node>, edges: seq<Edge>, hierarchy: Id -> Found)
    ensures TypesExpanded(nodes, edges, [], hierarchy)
  {
  }

  /** The types found that are no entry points. */
  function Candidates(nodes: seq<Node>, roots: seq<Id>): seq<Node> {
    Where(nodes, (n: Node) => n.kind in TYPE_KINDS && n.id !in roots)
  }

  /** The hierarchies of these types are in, with the edges inside each. */
  ghost predicate SiblingsExpanded(nodes: seq<Node>, edges: seq<Edge>, types: seq<Node>, hierarchy: Id -> Found) {
    forall n :: n in types ==>
      && HasAll(nodes, hierarchy(n.id).nodes)
      && TriplesAmong(edges, hierarchy(n.id).edges, hierarchy(n.id).nodes)
  }

  lemma SiblingsMore(
    nodes: seq<Node>, edges: seq<Edge>, nodes': seq<Node>, edges': seq<Edge>, types: seq<Node>, hierarchy: Id -> Found)
    requires SiblingsExpanded(nodes, edges, types, hierarchy) && nodes <= nodes' && edges <= edges'
    ensures SiblingsExpanded(nodes', edges', types, hierarchy)
  {
    hide Has, HasTriple;
    TriplesMore(edges, edges');
    forall n | n in types ensures HasAll(nodes', hierarchy(n.id).nodes) {
      HasAllMore(nodes, nodes', hierarchy(n.id).nodes);
    }
  }

  lemma SiblingsNext(nodes: seq<Node>, edges: seq<Edge>, types: seq<Node>, i: nat, hierarchy: Id -> Found)
    requires i < |types| && SiblingsExpanded(nodes, edges, types[..i], hierarchy)
    requires HasAll(nodes, hierarchy(types[i].id).nodes)
    requires TriplesAmong(edges, hierarchy(types[i].id).edges, nodes)
    ensures SiblingsExpanded(nodes, edges, types[..i + 1], hierarchy)
  {
    hide HasTriple;
    assert types[..i + 1] == types[..i] + [types[i]];
    AmongFewer(nodes, hierarchy(types[i].id).nodes);
  }

  lemma AmongFewer(nodes: seq<Node>, some: seq<Node>)
    requires HasAll(nodes, some)
    ensures forall id :: Has(some, id) ==> Has(nodes, id)
  {
    forall id | Has(some, id) ensures Has(nodes, id) {
      var i :| 0 <= i < |some| && some[i].id == id;
      assert some[i] in some;
    }
  }

  /** The edge comes from what was found for one of the nodes. */
  ghost predicate EdgeFrom(nodes: seq<Node>, found: Id -> Found, e: Edge) {
    exists t :: t in nodes && e in found(t.id).edges
  }

  lemma EdgesFromOne(nodes: seq<Node>, i: nat, found: Id -> Found)
    requires i < |nodes|
    ensures forall e :: e in found(nodes[i].id).edges ==> EdgeFrom(nodes, found, e)
  {
  }

  /** The node is in the hierarchy of one of the types. */
  ghost predicate FromHierarchy(types: seq<Node>, hierarchy: Id -> Found, n: Node) {
    exists t :: t in types && n in hierarchy(t.id).nodes
  }

  /** Second pass: the hierarchies of the types just found, all of them unless the
      rest of the budget is used up, and nothing else. */
  method ExpandSiblings(nodes: seq<Node>, edges: seq<Edge>, roots: seq<Id>, hierarchy: Id -> Found, budget: Budget,
                        added: nat) returns (nodes': seq<Node>, edges': seq<Edge>)
    requires DistinctIds(nodes) && UniqueEdges(edges)
    ensures DistinctIds(nodes') && UniqueEdges(edges') && nodes <= nodes' && edges <= edges'
    ensures |nodes'| <= |nodes| + (if budget.maxHierarchy > added then budget.maxHierarchy - added else 0)
    ensures
      || |nodes'| == |nodes| + (if budget.maxHierarchy > added then budget.maxHierarchy - added else 0)
      || SiblingsExpanded(nodes', edges', Candidates(nodes, roots), hierarchy)
    ensures forall n :: n in nodes' ==> n in nodes || FromHierarchy(Candidates(nodes, roots), hierarchy, n)
    ensures forall e :: e in edges' ==> e in edges || EdgeFrom(Candidates(nodes, roots), hierarchy, e)
  {
    hide DistinctIds, UniqueEdges, Has, Where, SiblingsExpanded, HasAll, TriplesAmong, EdgeFrom, FromHierarchy;
    nodes', edges' := nodes, edges;
    var total := added;
    var candidates := Candidates(nodes, roots);
    NoSiblings(nodes', edges', hierarchy);
    for i := 0 to |candidates|
      invariant DistinctIds(nodes') && UniqueEdges(edges') && nodes <= nodes' && edges <= edges'
      invariant |nodes'| + added == |nodes| + total && (total <= added || total <= budget.maxHierarchy)
      invariant total < budget.maxHierarchy ==> SiblingsExpanded(nodes', edges', candidates[..i], hierarchy)
      invariant forall n :: n in nodes' ==> n in nodes || FromHierarchy(candidates, hierarchy, n)
      invariant forall e :: e in edges' ==> e in edges || EdgeFrom(candidates, hierarchy, e)
    {
      if total >= budget.maxHierarchy {
        break;
      }
      var count;
      ghost var before, edgesBefore := nodes', edges';
      var h := hierarchy(candidates[i].id);
      nodes', count := MergeNodes(nodes', h.nodes, budget.maxHierarchy - total);
      edges' := MergeEdges(edges', h.edges, nodes', true);
      total := total + count;
      SiblingsMore(before, edgesBefore, nodes', edges', candidates[..i], hierarchy);
      if total < budget.maxHierarchy {
        assert HasAll(nodes', h.nodes) by { AllOf(nodes', h.nodes); }
        SiblingsNext(nodes', edges', candidates, i, hierarchy);
      }
      FromOne(candidates, i, hierarchy);
      EdgesFromOne(candidates, i, hierarchy);
    }
    assert candidates[..|candidates|] == candidates;
  }

  lemma AllOf(nodes: seq<Node>, some: seq<Node>)
    requires forall n :: n in some ==> Has(nodes, n.id)
    ensures HasAll(nodes, some)
  {
  }

  lemma FromOne(types: seq<Node>, i: nat, hierarchy: Id -> Found)
    requires i < |types|
    ensures forall n :: n in hierarchy(types[i].id).nodes ==> FromHierarchy(types, hierarchy, n)
  {
  }

  lemma NoSiblings(nodes: seq<Node>, edges: seq<Edge>, hierarchy: Id -> Found)
    ensures SiblingsExpanded(nodes, edges, [], hierarchy)
  {
  }

  /** One traversal from each entry point. */
  method Traverse(nodes: seq<Node>, edges: seq<Edge>, entries: seq<Node>, traversal: Id -> Found)
      returns (nodes': seq<Node>, edges': seq<Edge>)
    requires DistinctIds(nodes) && UniqueEdges(edges)
    ensures DistinctIds(nodes') && UniqueEdges(edges') && nodes <= nodes' && edges <= edges'
    ensures forall n :: n in entries ==>
      HasAll(nodes', traversal(n.id).nodes) && HasTriples(edges', traversal(n.id).edges)
    ensures forall n :: n in nodes' ==> n in nodes || FromHierarchy(entries, traversal, n)
    ensures forall e :: e in edges' ==> e in edges || EdgeFrom(entries, traversal, e)
  {
    hide DistinctIds, UniqueEdges, Has, HasTriple, FromHierarchy, EdgeFrom, TriplesAmong;
    nodes', edges' := nodes, edges;
    for i := 0 to |entries|
      invariant DistinctIds(nodes') && UniqueEdges(edges') && nodes <= nodes' && edges <= edges'
      invariant forall n :: n in nodes' ==> n in nodes || FromHierarchy(entries, traversal, n)
      invariant forall e :: e in edges' ==> e in edges || EdgeFrom(entries, traversal, e)
      invariant forall j :: 0 <= j < i ==>
        HasAll(nodes', traversal(entries[j].id).nodes) && HasTriples(edges', traversal(entries[j].id).edges)
    {
      var count;
      ghost var before, edgesBefore := nodes', edges';
      FromOne(entries, i, traversal);
      EdgesFromOne(entries, i, traversal);
      var t := traversal(entries[i].id);
      nodes', count := MergeNodes(nodes', t.nodes, -1);
      edges' := MergeEdges(edges', t.edges, nodes', false);
      forall j | 0 <= j < i
        ensures HasAll(nodes', traversal(entries[j].id).nodes) && HasTriples(edges', traversal(entries[j].id).edges)
      {
        HasAllMore(before, nodes', traversal(entries[j].id).nodes);
        HasTriplesMore(edgesBefore, edges', traversal(entries[j].id).edges);
      }
    }
  }

  /** Every edge comes from one of the searches: a hierarchy of either pass or a
      traversal from an entry point. */
  ghost predicate EdgesFound(
    first: seq<Node>, entries: seq<Node>, hierarchy: Id -> Found, traversal: Id -> Found, stop: nat, roots: seq<Id>,
    edges: seq<Edge>)
  {
    stop <= |entries| &&
    var types := Candidates(AfterTypes(first, entries, hierarchy, stop), roots);
    forall e :: e in edges ==>
      EdgeFrom(entries, hierarchy, e) || EdgeFrom(types, hierarchy, e) || EdgeFrom(entries, traversal, e)
  }

  lemma StopWithin(nodes: seq<Node>, entries: seq<Node>, hierarchy: Id -> Found, budget: nat, k: nat)
    requires StopsAt(nodes, entries, hierarchy, budget, k)
    ensures k <= |entries|
  {
  }

  /** What the second pass leaves, `typed`: nothing more if the first one found
      nothing; else no more than the budget, all of it, or the hierarchies of every
      type found by then; and nothing from anywhere else. */
  ghost predicate SecondPass(
    first: seq<Node>, entries: seq<Node>, hierarchy: Id -> Found, budget: nat, stop: nat, roots: seq<Id>,
    typed: seq<Node>, nodes: seq<Node>, edges: seq<Edge>)
  {
    stop <= |entries| &&
    var found := AfterTypes(first, entries, hierarchy, stop);
    && found <= typed <= nodes
    && (|found| == |first| ==> typed == found)
    && (|typed| > |found| ==> |typed| <= |first| + budget)
    && (|found| > |first| ==>
          |typed| >= |first| + budget || SiblingsExpanded(nodes, edges, Candidates(found, roots), hierarchy))
    && (forall n :: n in typed ==> n in found || FromHierarchy(Candidates(found, roots), hierarchy, n))
  }

  /** Entry points, then type hierarchies within their budget, then one
      traversal from each entry point; `added` is what the first pass over the
      hierarchies used of the budget. */
  method Gather(entries: seq<Node>, hierarchy: Id -> Found, traversal: Id -> Found, budget: Budget)
      returns (nodes: seq<Node>, edges: seq<Edge>, roots: seq<Id>, added: nat, ghost stop: nat,
               ghost typed: seq<Node>)
    ensures StopsAt(Merged([], entries), entries, hierarchy, budget.maxHierarchy, stop)
    ensures added == |AfterTypes(Merged([], entries), entries, hierarchy, stop)| - |Merged([], entries)|
    ensures added > budget.maxHierarchy <==> Overshoots(Merged([], entries), entries, hierarchy, budget.maxHierarchy)
    ensures added > 0 ==> stop > 0 && added < budget.maxHierarchy + |hierarchy(entries[stop - 1].id).nodes|
    ensures DistinctIds(nodes) && UniqueEdges(edges)
    ensures |roots| == |entries| && forall i :: 0 <= i < |roots| ==> roots[i] == entries[i].id
    ensures HasAll(nodes, entries)
    ensures forall n :: n in entries ==>
      HasAll(nodes, traversal(n.id).nodes) && HasTriples(edges, traversal(n.id).edges)
    ensures added < budget.maxHierarchy ==> TypesExpanded(nodes, edges, entries, hierarchy)
    // `typed` are the nodes once both passes over the hierarchies are done
    ensures SecondPass(Merged([], entries), entries, hierarchy, budget.maxHierarchy, stop, roots, typed, nodes, edges)
    ensures forall n :: n in nodes ==> n in typed || FromHierarchy(entries, traversal, n)
    ensures EdgesFound(Merged([], entries), entries, hierarchy, traversal, stop, roots, edges)
  {
    hide DistinctIds, UniqueEdges, Has, HasTriple, TypesExpanded, Merged, AfterTypes, StopsAt, Overshoots, Candidates,
      SiblingsExpanded, FromHierarchy, EdgeFrom;
    var count;
    assert DistinctIds([]) by { EmptyOk(); }
    nodes, count := MergeNodes([], entries, -1);
    ghost var first := nodes;
    assert HasAll(first, entries);
    roots := seq(|entries|, i requires 0 <= i < |entries| => entries[i].id);
    assert UniqueEdges([]) by { EmptyOk(); }
    nodes, edges, added, stop := ExpandTypes(nodes, [], entries, hierarchy, budget);
    StopWithin(first, entries, hierarchy, budget.maxHierarchy, stop);
    ghost var found, foundEdges := nodes, edges;
    if added > 0 {
      nodes, edges := ExpandSiblings(nodes, edges, roots, hierarchy, budget, added);
    }
    typed := nodes;
    ghost var typedEdges := edges;
    nodes, edges := Traverse(nodes, edges, entries, traversal);
    HasAllMore(first, nodes, entries);
    if added < budget.maxHierarchy {
      ExpandedMore(found, foundEdges, nodes, edges, entries, hierarchy);
    }
    if SiblingsExpanded(typed, typedEdges, Candidates(found, roots), hierarchy) {
      SiblingsMore(typed, typedEdges, nodes, edges, Candidates(found, roots), hierarchy);
    }
  }

  lemma EmptyOk()
    ensures DistinctIds([]) && UniqueEdges([])
  {
  }

  lemma HasMore(nodes: seq<Node>, more: seq<Node>)
    requires nodes <= more
    ensures forall id :: Has(nodes, id) ==> Has(more, id)
  {
    forall id | Has(nodes, id) ensures Has(more, id) {
      var i :| 0 <= i < |nodes| && nodes[i].id == id;
      assert more[i] == nodes[i];
    }
  }

  function IdsOf(nodes: seq<Node>): seq<Id> {
    seq(|nodes|, i requires 0 <= i < |nodes| => nodes[i].id)
  }
}
