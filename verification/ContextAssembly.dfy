/** The rest of the tail of `findRelevantContext`: cap each file and the
    non-production files, and recover edges between the nodes that are left. */
module ContextAssembly {
  import opened Wrappers
  import opened CodeGraph
  import opened ContextGathering
  import opened ContextTrimming

  const RECOVERY_KINDS: set<EdgeKind> :=
    {Calls, Extends, Implements, References, Overrides, CrossLang, Produces, Consumes, Invokes}

  // ---- at most so many nodes per file ------------------------------------------------------

  /** Entry points before types before callables before the rest. */
  function Rank(n: Node, roots: seq<Id>): nat {
    (if n.id in roots then 10 else 0) +
    match n.kind
    case Class | Interface | Struct | Trait | Protocol | Enum => 3
    case Method | Function => 1
    case _ => 0
  }

  predicate IsType(n: Node) {
    n.kind in {Class, Interface, Struct, Trait, Protocol, Enum}
  }

  predicate IsCallable(n: Node) {
    n.kind in {Method, Function}
  }

  /** `a` goes before `b`: entry points first, and within either group types before
      callables before the rest. */
  predicate NoLaterThan(a: Node, b: Node, roots: seq<Id>) {
    && (b.id in roots ==> a.id in roots)
    && ((a.id in roots <==> b.id in roots) ==>
          (IsType(b) ==> IsType(a)) && (IsCallable(b) ==> IsType(a) || IsCallable(a)))
  }

  /** That is what ranking as high means. */
  lemma RankMeans(a: Node, b: Node, roots: seq<Id>)
    ensures Rank(a, roots) >= Rank(b, roots) <==> NoLaterThan(a, b, roots)
  {
  }

  ghost predicate Descending(ns: seq<Node>, roots: seq<Id>) {
    forall i, j :: 0 <= i < j < |ns| ==> Rank(ns[i], roots) >= Rank(ns[j], roots)
  }

  /** Insert behind everything that ranks at least as high. */
  method InsertByRank(ns: seq<Node>, n: Node, roots: seq<Id>) returns (r: seq<Node>)
    requires Descending(ns, roots) && DistinctIds(ns) && !Has(ns, n.id)
    ensures Descending(r, roots) && DistinctIds(r) && |r| == |ns| + 1
    ensures forall m :: m in r <==> m in ns || m == n
  {
    var i := |ns|;
    while i > 0 && Rank(ns[i - 1], roots) < Rank(n, roots)
      invariant 0 <= i <= |ns|
      invariant forall j :: i <= j < |ns| ==> Rank(ns[j], roots) < Rank(n, roots)
    {
      i := i - 1;
    }
    r := ns[..i] + [n] + ns[i..];
    forall j, k | 0 <= j < k < |r|
      ensures Rank(r[j], roots) >= Rank(r[k], roots) && r[j].id != r[k].id
    {
    }
    assert forall m :: m in ns ==> m in ns[..i] || m in ns[i..];
  }

  lemma NotYet(ns: seq<Node>, i: nat, r: seq<Node>)
    requires DistinctIds(ns) && i < |ns| && forall m :: m in r <==> m in ns[..i]
    ensures !Has(r, ns[i].id)
  {
    forall k | 0 <= k < |r| ensures r[k].id != ns[i].id {
      assert r[k] in r;
      var j :| 0 <= j < i && ns[..i][j] == r[k];
      assert ns[j] == r[k];
    }
  }

  method SortByRank(ns: seq<Node>, roots: seq<Id>) returns (r: seq<Node>)
    requires DistinctIds(ns)
    ensures Descending(r, roots) && DistinctIds(r) && |r| == |ns|
    ensures forall m :: m in r <==> m in ns
  {
    hide Rank;
    r := [];
    for i := 0 to |ns|
      invariant Descending(r, roots) && DistinctIds(r) && |r| == i
      invariant forall m :: m in r <==> m in ns[..i]
    {
      assert ns[..i + 1] == ns[..i] + [ns[i]];
      NotYet(ns, i, r);
      r := InsertByRank(r, ns[i], roots);
    }
    assert ns[..|ns|] == ns;
  }

  function NotIn(dropped: seq<Node>): Node -> bool {
    (n: Node) => n !in dropped
  }

  function InFile(file: Path): Node -> bool {
    (n: Node) => n.filePath == file
  }

  /** Cap one file: drop its nodes beyond the budget, lowest rank first. */
  method CapFile(nodes: seq<Node>, roots: seq<Id>, file: Path, cap: nat) returns (r: seq<Node>)
    requires DistinctIds(nodes)
    ensures DistinctIds(r) && |Where(r, InFile(file))| == Min(|Where(nodes, InFile(file))|, cap)
    ensures forall n :: n in r ==> n in nodes
    ensures forall n :: n in nodes && n.filePath != file ==> n in r
    ensures |Where(nodes, InFile(file))| <= cap ==> r == nodes
    ensures forall a, b :: a in r && a.filePath == file && b in nodes && b !in r ==>
      b.filePath == file && Rank(a, roots) >= Rank(b, roots)
  {
    hide Rank, Descending;
    var own := Where(nodes, InFile(file));
    WhereDistinct(nodes, InFile(file));
    if |own| <= cap {
      return nodes;
    }
    var sorted := SortByRank(own, roots);
    var dropped := sorted[cap..];
    r := Where(nodes, NotIn(dropped));
    WhereDistinct(nodes, NotIn(dropped));
    WhereTwice(nodes, InFile(file), NotIn(dropped));
    LeftAfter(own, sorted, cap);
    BestFirst(own, sorted, roots, cap);
    hide Where, DistinctIds;
    forall a, b | a in r && a.filePath == file && b in nodes && b !in r
      ensures b.filePath == file && Rank(a, roots) >= Rank(b, roots)
    {
      assert a in Where(own, NotIn(dropped)) && b in dropped;
    }
  }

  /** What a cut of the sorted nodes drops never outranks what it keeps. */
  lemma BestFirst(own: seq<Node>, sorted: seq<Node>, roots: seq<Id>, cap: nat)
    requires Descending(sorted, roots) && cap <= |sorted|
    requires forall n :: n in sorted <==> n in own
    ensures forall a, b :: a in Where(own, NotIn(sorted[cap..])) && b in sorted[cap..] ==>
      Rank(a, roots) >= Rank(b, roots)
  {
    hide Rank, Where;
    assert sorted == sorted[..cap] + sorted[cap..];
    forall a, b | a in Where(own, NotIn(sorted[cap..])) && b in sorted[cap..]
      ensures Rank(a, roots) >= Rank(b, roots)
    {
      assert a in sorted[..cap];
      var i :| 0 <= i < cap && sorted[i] == a;
      var j :| cap <= j < |sorted| && sorted[j] == b;
    }
  }

  /** Dropping all but the first `cap` entries of a sorted copy. */
  lemma LeftAfter(own: seq<Node>, sorted: seq<Node>, cap: nat)
    requires DistinctIds(own) && DistinctIds(sorted) && cap <= |sorted|
    requires forall n :: n in sorted <==> n in own
    ensures |Where(own, NotIn(sorted[cap..]))| == cap
  {
    var kept, dropped := sorted[..cap], sorted[cap..];
    var r := Where(own, NotIn(dropped));
    assert sorted == kept + dropped;
    assert forall n :: n in sorted <==> n in kept || n in dropped;
    WhereDistinct(own, NotIn(dropped));
    Fewer(r, kept);
    Fewer(kept, r);
  }

  /** The files of the nodes. */
  method FilesOf(nodes: seq<Node>) returns (files: seq<Path>)
    ensures forall n :: n in nodes ==> n.filePath in files
  {
    files := [];
    for i := 0 to |nodes|
      invariant forall j :: 0 <= j < i ==> nodes[j].filePath in files
    {
      if nodes[i].filePath !in files {
        files := files + [nodes[i].filePath];
      }
    }
  }

  ghost predicate WithinFileBudget(nodes: seq<Node>, cap: nat) {
    forall file :: |Where(nodes, InFile(file))| <= cap
  }

  /** `r` is what the file budget leaves of `nodes`: of each file as many as
      allowed, and those the highest in rank. */
  ghost predicate CappedTo(nodes: seq<Node>, roots: seq<Id>, cap: nat, r: seq<Node>) {
    && DistinctIds(r) && (forall n :: n in r ==> n in nodes)
    && (forall file :: |Where(r, InFile(file))| == Min(|Where(nodes, InFile(file))|, cap))
    && BestKept(nodes, r, roots)
  }

  /** What was dropped for a file never outranks what was kept of it. */
  ghost predicate BestKept(nodes: seq<Node>, r: seq<Node>, roots: seq<Id>) {
    forall a, b :: a in r && b in nodes && b !in r && a.filePath == b.filePath ==> Rank(a, roots) >= Rank(b, roots)
  }

  lemma BestKeptAll(nodes: seq<Node>, roots: seq<Id>)
    ensures BestKept(nodes, nodes, roots)
  {
  }

  /** Dropping the lowest-ranked nodes of one file keeps the best of each. */
  lemma BestKeptNext(nodes: seq<Node>, before: seq<Node>, r: seq<Node>, roots: seq<Id>, file: Path)
    requires BestKept(nodes, before, roots)
    requires forall n :: n in r ==> n in before
    requires forall n :: n in before && n.filePath != file ==> n in r
    requires forall a, b :: a in r && a.filePath == file && b in before && b !in r ==> Rank(a, roots) >= Rank(b, roots)
    ensures BestKept(nodes, r, roots)
  {
    hide Rank;
    forall a, b | a in r && b in nodes && b !in r && a.filePath == b.filePath ensures Rank(a, roots) >= Rank(b, roots) {
      assert a in before;
    }
  }

  /** Capping one file changes the count of no other. */
  lemma OtherFile(before: seq<Node>, r: seq<Node>, file: Path, other: Path)
    requires DistinctIds(before) && DistinctIds(r) && other != file
    requires forall n :: n in r ==> n in before
    requires forall n :: n in before && n.filePath != file ==> n in r
    ensures |Where(r, InFile(other))| == |Where(before, InFile(other))|
  {
    WhereDistinct(before, InFile(other));
    WhereDistinct(r, InFile(other));
    Fewer(Where(r, InFile(other)), Where(before, InFile(other)));
    Fewer(Where(before, InFile(other)), Where(r, InFile(other)));
  }

  method CapFiles(nodes: seq<Node>, roots: seq<Id>, cap: nat) returns (r: seq<Node>)
    requires DistinctIds(nodes)
    ensures CappedTo(nodes, roots, cap, r)
    ensures forall a, b :: a in r && b in nodes && b !in r && a.filePath == b.filePath ==> NoLaterThan(a, b, roots)
  {
    hide Rank, BestKept, Where, DistinctIds, NoLaterThan;
    var files := FilesOf(nodes);
    r := nodes;
    assert BestKept(nodes, r, roots) by { BestKeptAll(nodes, roots); }
    for i := 0 to |files|
      invariant DistinctIds(r) && forall n :: n in r ==> n in nodes
      invariant forall file ::
        (|Where(r, InFile(file))| ==
         if file in files[..i] then Min(|Where(nodes, InFile(file))|, cap) else |Where(nodes, InFile(file))|)
      invariant BestKept(nodes, r, roots)
    {
      ghost var before := r;
      r := CapFile(r, roots, files[i], cap);
      BestKeptNext(nodes, before, r, roots, files[i]);
      assert files[..i + 1] == files[..i] + [files[i]];
      forall file | file != files[i] ensures |Where(r, InFile(file))| == |Where(before, InFile(file))| {
        OtherFile(before, r, files[i], file);
      }
    }
    assert files[..|files|] == files;
    forall file | file !in files ensures |Where(nodes, InFile(file))| == 0 {
      WhereNone(nodes, InFile(file));
    }
    BestOutlive(nodes, r, roots);
  }

  /** No type goes before a callable of its file, and no entry point before either. */
  lemma BestOutlive(nodes: seq<Node>, r: seq<Node>, roots: seq<Id>)
    requires BestKept(nodes, r, roots)
    ensures forall a, b :: a in r && b in nodes && b !in r && a.filePath == b.filePath ==> NoLaterThan(a, b, roots)
  {
    hide Rank, NoLaterThan;
    forall a, b | a in r && b in nodes && b !in r && a.filePath == b.filePath ensures NoLaterThan(a, b, roots) {
      RankMeans(a, b, roots);
    }
  }

  // ---- at most so many non-production nodes ----------------------------------------------------

  function LowSignal(isLow: Path -> bool): Node -> bool {
    (n: Node) => isLow(n.filePath)
  }

  /** Dropping what follows the first `cap` entries leaves those. */
  lemma FirstLeft(low: seq<Node>, cap: nat)
    requires DistinctIds(low) && cap <= |low|
    ensures Where(low, NotIn(low[cap..])) == low[..cap]
  {
    var p := NotIn(low[cap..]);
    assert low == low[..cap] + low[cap..];
    WhereConcat(low[..cap], low[cap..], p);
    WhereAll(low[..cap], p);
    WhereNone(low[cap..], p);
  }

  /** `r` is what the budget for low-signal nodes leaves of `nodes`: the first
      ones, in order, and everything else. */
  ghost predicate ThinnedTo(nodes: seq<Node>, isLow: Path -> bool, cap: nat, r: seq<Node>) {
    var low := Where(nodes, LowSignal(isLow));
    && DistinctIds(r) && (forall n :: n in r ==> n in nodes)
    && (forall n :: n in nodes && !isLow(n.filePath) ==> n in r)
    && Where(r, LowSignal(isLow)) == low[..Min(|low|, cap)]
  }

  /** The ids of the nodes dropped between `nodes` and `r`. */
  function Dropped(nodes: seq<Node>, r: seq<Node>): set<Id> {
    set n | n in nodes && n !in r :: n.id
  }

  /** How often `id` is left when one of each of `gone` is taken out. */
  function LeftOver(ids: seq<Id>, gone: set<Id>, id: Id): int {
    multiset(ids)[id] - if id in ids && id in gone then 1 else 0
  }

  /** Keep the first `cap` low-signal nodes; each of the others leaves the roots
      too, where it is listed. */
  method CapNonProd(nodes: seq<Node>, roots: seq<Id>, isLow: Path -> bool, cap: nat)
      returns (r: seq<Node>, roots': seq<Id>)
    requires DistinctIds(nodes)
    ensures ThinnedTo(nodes, isLow, cap, r)
    ensures forall id :: multiset(roots')[id] == LeftOver(roots, Dropped(nodes, r), id)
  {
    hide Dropped, LeftOver, ThinnedTo, Where, DistinctIds;
    var low := Where(nodes, LowSignal(isLow));
    Thinned(nodes, isLow, cap);
    r, roots' := nodes, roots;
    if |low| <= cap {
      NothingTaken(nodes, roots);
      return;
    }
    var dropped := low[cap..];
    r := Where(nodes, NotIn(dropped));
    DroppedAre(nodes, dropped);
    WhereDistinct(nodes, LowSignal(isLow));
    assert DistinctIds(dropped) by { TailDistinct(low, cap); }
    roots' := RemoveAll(roots, dropped);
  }

  lemma Thinned(nodes: seq<Node>, isLow: Path -> bool, cap: nat)
    requires DistinctIds(nodes)
    ensures var low := Where(nodes, LowSignal(isLow));
      if |low| <= cap then ThinnedTo(nodes, isLow, cap, nodes)
      else ThinnedTo(nodes, isLow, cap, Where(nodes, NotIn(low[cap..])))
  {
    var low := Where(nodes, LowSignal(isLow));
    hide Where;
    if |low| <= cap {
      assert low[..|low|] == low;
    } else {
      var r := Where(nodes, NotIn(low[cap..]));
      WhereDistinct(nodes, LowSignal(isLow));
      WhereDistinct(nodes, NotIn(low[cap..]));
      hide DistinctIds;
      WhereTwice(nodes, LowSignal(isLow), NotIn(low[cap..]));
      FirstLeft(low, cap);
      assert Where(r, LowSignal(isLow)) == low[..cap];
      assert low == low[..cap] + low[cap..];
      assert forall n :: n in low ==> LowSignal(isLow)(n);
    }
  }

  lemma TailDistinct(nodes: seq<Node>, n: nat)
    requires DistinctIds(nodes) && n <= |nodes|
    ensures DistinctIds(nodes[n..])
  {
  }

  lemma NothingTaken(nodes: seq<Node>, roots: seq<Id>)
    ensures forall id :: multiset(roots)[id] == LeftOver(roots, Dropped(nodes, nodes), id)
  {
    DroppedNone(nodes);
  }

  lemma DroppedNone(nodes: seq<Node>)
    ensures Dropped(nodes, nodes) == {}
  {
  }

  lemma DroppedAre(nodes: seq<Node>, dropped: seq<Node>)
    requires forall n :: n in dropped ==> n in nodes
    ensures Dropped(nodes, Where(nodes, NotIn(dropped))) == set n | n in dropped :: n.id
  {
  }

  /** Take one occurrence of each dropped id out of the roots. */
  method RemoveAll(roots: seq<Id>, dropped: seq<Node>) returns (r: seq<Id>)
    requires DistinctIds(dropped)
    ensures forall id :: multiset(r)[id] == LeftOver(roots, set n | n in dropped :: n.id, id)
  {
    r := roots;
    for i := 0 to |dropped|
      invariant forall id :: multiset(r)[id] == LeftOver(roots, if Has(dropped[..i], id) then {id} else {}, id)
    {
      assert forall id :: Has(dropped[..i + 1], id) <==> Has(dropped[..i], id) || id == dropped[i].id by {
        HasNext(dropped, i);
      }
      assert !Has(dropped[..i], dropped[i].id);
      assert dropped[i].id in r <==> multiset(r)[dropped[i].id] > 0;
      r := RemoveFirst(r, dropped[i].id);
    }
    assert dropped[..|dropped|] == dropped;
    assert forall id :: Has(dropped, id) <==> id in (set n | n in dropped :: n.id);
  }

  lemma HasNext(nodes: seq<Node>, i: nat)
    requires i < |nodes|
    ensures forall id :: Has(nodes[..i + 1], id) <==> Has(nodes[..i], id) || id == nodes[i].id
  {
    forall id ensures Has(nodes[..i + 1], id) <==> Has(nodes[..i], id) || id == nodes[i].id {
      assert nodes[..i + 1][i] == nodes[i];
      if Has(nodes[..i], id) {
        var j :| 0 <= j < i && nodes[..i][j].id == id;
        assert nodes[..i + 1][j].id == id;
      }
    }
  }

  function RemoveFirst(ids: seq<Id>, id: Id): (r: seq<Id>)
    ensures forall x :: multiset(r)[x] == multiset(ids)[x] - if x == id && x in ids then 1 else 0
  {
    if ids == [] then []
    else
      assert ids == [ids[0]] + ids[1..];
      if ids[0] == id then ids[1..] else [ids[0]] + RemoveFirst(ids[1..], id)
  }

  // ---- edges among the nodes that are left --------------------------------------------------------

  function KindName(k: EdgeKind): string {
    match k
    case Contains => "contains" case Calls => "calls" case Imports => "imports" case Exports => "exports"
    case Extends => "extends" case Implements => "implements" case References => "references"
    case TypeOf => "type_of" case Returns => "returns" case Instantiates => "instantiates"
    case Overrides => "overrides" case Decorates => "decorates" case CrossLang => "crossLang"
    case Produces => "produces" case Consumes => "consumes" case Invokes => "invokes"
  }

  /** The key under which recovery looks an edge up. */
  function Key(e: Edge): string {
    e.source + ":" + e.target + ":" + KindName(e.kind)
  }

  ghost predicate Inside(nodes: seq<Node>, es: seq<Edge>) {
    forall e :: e in es ==> Has(nodes, e.source) && Has(nodes, e.target)
  }

  method KeepInside(nodes: seq<Node>, es: seq<Edge>) returns (r: seq<Edge>)
    requires UniqueEdges(es)
    ensures UniqueEdges(r) && Inside(nodes, r)
    ensures forall e :: e in r <==> e in es && Has(nodes, e.source) && Has(nodes, e.target)
  {
    r := [];
    for i := 0 to |es|
      invariant UniqueEdges(r) && Inside(nodes, r)
      invariant forall e :: e in r <==> e in es[..i] && Has(nodes, e.source) && Has(nodes, e.target)
    {
      assert es[..i + 1] == es[..i] + [es[i]];
      if Has(nodes, es[i].source) && Has(nodes, es[i].target) {
        forall e | e in r ensures !SameTriple(e, es[i]) {
          var j :| 0 <= j < i && es[j] == e;
        }
        r := r + [es[i]];
      }
    }
    assert es[..|es|] == es;
  }

  /** `findEdgesBetweenNodes` for the kinds worth recovering. */
  method EdgesBetween(g: Graph, nodes: seq<Node>) returns (es: seq<Edge>)
    ensures forall e :: e in es <==>
      e in g.edges && e.kind in RECOVERY_KINDS && Has(nodes, e.source) && Has(nodes, e.target)
  {
    es := SelectEdges(g, (e: Edge) => e.kind in RECOVERY_KINDS && Has(nodes, e.source) && Has(nodes, e.target));
  }

  /** No other triple among the edges has the key of a found edge that is new. */
  ghost predicate Unambiguous(es: seq<Edge>, found: seq<Edge>) {
    forall e, f :: e in found && !HasTriple(es, e) && (f in es || f in found) && Key(f) == Key(e) ==> SameTriple(f, e)
  }

  function KeysOf(es: seq<Edge>): set<string> {
    set e | e in es :: Key(e)
  }

  /** The kept edges with, of each new key among the found ones, the first. */
  function Recovered(es: seq<Edge>, found: seq<Edge>): seq<Edge> {
    if found == [] then es
    else
      var r := Recovered(es, found[..|found| - 1]);
      var e := found[|found| - 1];
      if Key(e) in KeysOf(r) then r else r + [e]
  }

  /** The loop of the edge recovery. */
  method Recover(nodes: seq<Node>, es: seq<Edge>, found: seq<Edge>) returns (r: seq<Edge>)
    requires UniqueEdges(es) && Inside(nodes, es) && Inside(nodes, found)
    ensures r == Recovered(es, found)
    ensures UniqueEdges(r) && Inside(nodes, r) && es <= r
    ensures forall e :: e in r ==> e in es || e in found
    ensures (forall e :: e in found ==> HasTriple(r, e)) <==> Unambiguous(es, found)
  {
    hide Key, UniqueEdges, Inside, Unambiguous, HasTriple;
    var keys := KeysOf(es);
    r := es;
    for i := 0 to |found|
      invariant r == Recovered(es, found[..i]) && keys == KeysOf(r)
      invariant UniqueEdges(r) && Inside(nodes, r) && es <= r
      invariant forall e :: e in r ==> e in es || e in found
    {
      var e := found[i];
      assert found[..i + 1][..i] == found[..i];
      if Key(e) !in keys {
        NewKeyUnique(r, e);
        InsideOne(nodes, r, found, i);
        KeysNext(r, e);
        r := r + [e];
        keys := keys + {Key(e)};
      }
    }
    assert found[..|found|] == found;
    RecoveredAllIff(es, found);
  }

  lemma KeysNext(es: seq<Edge>, e: Edge)
    ensures KeysOf(es + [e]) == KeysOf(es) + {Key(e)}
  {
    hide Key;
  }

  lemma NewKeyUnique(r: seq<Edge>, e: Edge)
    requires UniqueEdges(r) && Key(e) !in KeysOf(r)
    ensures UniqueEdges(r + [e])
  {
    hide Key;
    forall f | f in r ensures !SameTriple(f, e) {
      if SameTriple(f, e) {
        SameKey(f, e);
      }
    }
  }

  lemma InsideOne(nodes: seq<Node>, r: seq<Edge>, found: seq<Edge>, i: nat)
    requires i < |found| && Inside(nodes, r) && Inside(nodes, found)
    ensures Inside(nodes, r + [found[i]])
  {
    assert found[i] in found;
  }

  lemma SameKey(a: Edge, b: Edge)
    requires SameTriple(a, b)
    ensures Key(a) == Key(b)
  {
  }

  /** What recovery keeps, and one edge for each key there is. */
  lemma {:induction false} RecoveredKeys(es: seq<Edge>, found: seq<Edge>)
    ensures es <= Recovered(es, found)
    ensures KeysOf(Recovered(es, found)) == KeysOf(es) + KeysOf(found)
    ensures forall e :: e in Recovered(es, found) ==> e in es || e in found
    ensures forall e, f :: e in Recovered(es, found) && f in Recovered(es, found) && Key(e) == Key(f) ==>
      e == f || e in es
  {
    hide Key;
    if found != [] {
      var init, last := found[..|found| - 1], found[|found| - 1];
      assert found == init + [last];
      RecoveredKeys(es, init);
      KeysNext(init, last);
      KeysNext(Recovered(es, init), last);
    }
  }

  /** Every found triple is there in the end exactly when joined keys tell the
      triples that are new apart from all others. */
  lemma RecoveredAllIff(es: seq<Edge>, found: seq<Edge>)
    ensures (forall e :: e in found ==> HasTriple(Recovered(es, found), e)) <==> Unambiguous(es, found)
  {
    hide Key, Recovered;
    var r := Recovered(es, found);
    RecoveredKeys(es, found);
    if forall e :: e in found ==> HasTriple(r, e) {
      forall e, f | e in found && !HasTriple(es, e) && (f in es || f in found) && Key(f) == Key(e)
        ensures SameTriple(f, e)
      {
        OneOfKey(es, found, e, f);
      }
    }
    if Unambiguous(es, found) {
      forall e | e in found ensures HasTriple(r, e) {
        if HasTriple(es, e) {
          HasTriplesMore(es, r, [e]);
          assert e in [e];
        } else {
          assert Key(e) in KeysOf(found);
          var f :| f in r && Key(f) == Key(e);
          assert SameTriple(f, e);
        }
      }
    }
  }

  lemma OneOfKey(es: seq<Edge>, found: seq<Edge>, e: Edge, f: Edge)
    requires forall x :: x in found ==> HasTriple(Recovered(es, found), x)
    requires e in found && !HasTriple(es, e) && (f in es || f in found) && Key(f) == Key(e)
    ensures SameTriple(f, e)
  {
    hide Key, Recovered;
    var r := Recovered(es, found);
    RecoveredKeys(es, found);
    var x :| x in r && SameTriple(x, e);
    SameKey(x, e);
    assert x !in es;
    if f !in es {
      var y :| y in r && SameTriple(y, f);
      SameKey(y, f);
    }
  }

  /** Ids with colons can collide: of these two edges one is dropped. */
  lemma CollidingKeys()
    ensures var e, f := Call("a:b", "c"), Call("a", "b:c");
      && Key(e) == Key(f) && !SameTriple(e, f)
      && Recovered([], [e, f]) == [e] && !HasTriple(Recovered([], [e, f]), f)
  {
    var e, f := Call("a:b", "c"), Call("a", "b:c");
    assert "a:b" + ":" + "c" + ":" == "a" + ":" + "b:c" + ":";
    assert Key(e) == Key(f);
    assert [e, f][..1] == [e] && [e][..0] == [];
    assert Recovered([], [e]) == [] + [e];
    assert "a:b"[1] != 'a' && |"a:b"| != |"a"|;
  }

  // ---- the whole tail --------------------------------------------------------------------------------

  /** Each budget of the final nodes, from what each stage leaves. */
  lemma Budgets(
    trimmed: seq<Node>, capped: seq<Node>, nodes: seq<Node>, roots: seq<Id>, budget: Budget, isLow: Path -> bool,
    lowSignalQuery: bool)
    requires DistinctIds(trimmed) && |trimmed| <= budget.maxNodes
    requires CappedTo(trimmed, roots, budget.maxPerFile, capped)
    requires if lowSignalQuery then nodes == capped else ThinnedTo(capped, isLow, budget.maxNonProd, nodes)
    ensures DistinctIds(nodes) && |nodes| <= budget.maxNodes
    ensures WithinFileBudget(nodes, budget.maxPerFile)
    ensures !lowSignalQuery ==> |Where(nodes, LowSignal(isLow))| <= budget.maxNonProd
  {
    hide Where, DistinctIds, BestKept;
    Fewer(nodes, trimmed);
    forall file ensures |Where(nodes, InFile(file))| <= budget.maxPerFile {
      WhereFewer(nodes, capped, InFile(file));
    }
  }

  /** From the entry points to the final graph. Everything the searches found is
      gathered, the hierarchies as far as their budget goes; each stage drops no
      more than its budget asks for; every budget holds of the final nodes at
      once; and the edges are the gathered ones that still have both ends, with
      the recoverable ones between final nodes added under their joined keys. */
  method Assemble(g: Graph, entries: seq<Node>, hierarchy: Id -> Found, traversal: Id -> Found, budget: Budget,
                  isLow: Path -> bool, lowSignalQuery: bool)
      returns (nodes: seq<Node>, edges: seq<Edge>, roots: seq<Id>,
               gathered: Found, typeNodes: nat, ghost stop: nat, ghost typed: seq<Node>, trimmed: seq<Node>,
               capped: seq<Node>, kept: seq<Edge>, between: seq<Edge>)
    ensures HasAll(gathered.nodes, entries)
    ensures forall n :: n in entries ==>
      HasAll(gathered.nodes, traversal(n.id).nodes) && HasTriples(gathered.edges, traversal(n.id).edges)
    ensures StopsAt(Merged([], entries), entries, hierarchy, budget.maxHierarchy, stop)
    ensures typeNodes == |AfterTypes(Merged([], entries), entries, hierarchy, stop)| - |Merged([], entries)|
    ensures typeNodes > budget.maxHierarchy <==>
      Overshoots(Merged([], entries), entries, hierarchy, budget.maxHierarchy)
    ensures typeNodes > 0 ==> stop > 0 && typeNodes < budget.maxHierarchy + |hierarchy(entries[stop - 1].id).nodes|
    ensures typeNodes < budget.maxHierarchy ==> TypesExpanded(gathered.nodes, gathered.edges, entries, hierarchy)
    ensures SecondPass(Merged([], entries), entries, hierarchy, budget.maxHierarchy, stop, IdsOf(entries), typed,
      gathered.nodes, gathered.edges)
    ensures forall n :: n in gathered.nodes ==> n in typed || FromHierarchy(entries, traversal, n)
    ensures EdgesFound(Merged([], entries), entries, hierarchy, traversal, stop, IdsOf(entries), gathered.edges)
    ensures trimmed == Trimmed(gathered.nodes, gathered.edges, IdsOf(entries), budget.maxNodes)
    ensures CappedTo(trimmed, IdsOf(entries), budget.maxPerFile, capped)
    ensures forall a, b :: a in capped && b in trimmed && b !in capped && a.filePath == b.filePath ==>
      NoLaterThan(a, b, IdsOf(entries))
    ensures if lowSignalQuery then nodes == capped else ThinnedTo(capped, isLow, budget.maxNonProd, nodes)
    ensures |nodes| <= budget.maxNodes && DistinctIds(nodes)
    ensures WithinFileBudget(nodes, budget.maxPerFile)
    ensures !lowSignalQuery ==> |Where(nodes, LowSignal(isLow))| <= budget.maxNonProd
    ensures Inside(nodes, edges) && UniqueEdges(edges)
    ensures forall e :: e in kept <==> e in gathered.edges && Has(nodes, e.source) && Has(nodes, e.target)
    ensures forall e :: e in between <==>
      e in g.edges && e.kind in RECOVERY_KINDS && Has(nodes, e.source) && Has(nodes, e.target)
    ensures edges == Recovered(kept, between) && kept <= edges
    ensures (forall e :: e in between ==> HasTriple(edges, e)) <==> Unambiguous(kept, between)
    ensures forall id :: multiset(roots)[id] == LeftOver(IdsOf(entries), Dropped(capped, nodes), id)
  {
    hide *;
    var found, all;
    all, found, roots, typeNodes, stop, typed := Gather(entries, hierarchy, traversal, budget);
    gathered := Found(all, found);
    assert roots == IdsOf(entries) by { RootsAre(entries, roots); }
    trimmed := Trim(all, found, roots, budget.maxNodes);
    TrimmedFits(all, found, roots, budget.maxNodes);
    capped := CapFiles(trimmed, roots, budget.maxPerFile);
    CappedOk(trimmed, roots, budget.maxPerFile, capped);
    nodes := capped;
    NothingTaken(capped, roots);
    if !lowSignalQuery {
      nodes, roots := CapNonProd(capped, roots, isLow, budget.maxNonProd);
    }
    MinMost(|all|, budget.maxNodes);
    Budgets(trimmed, capped, nodes, IdsOf(entries), budget, isLow, lowSignalQuery);
    kept := KeepInside(nodes, found);
    between := EdgesBetween(g, nodes);
    assert Inside(nodes, between) by { AllInside(nodes, between); }
    edges := Recover(nodes, kept, between);
  }

  lemma MinMost(a: nat, b: nat)
    ensures Min(a, b) <= b
  {
  }

  lemma RootsAre(entries: seq<Node>, roots: seq<Id>)
    requires |roots| == |entries| && forall i :: 0 <= i < |roots| ==> roots[i] == entries[i].id
    ensures roots == IdsOf(entries)
  {
  }

  lemma AllInside(nodes: seq<Node>, es: seq<Edge>)
    requires forall e :: e in es ==> Has(nodes, e.source) && Has(nodes, e.target)
    ensures Inside(nodes, es)
  {
  }

  lemma CappedOk(nodes: seq<Node>, roots: seq<Id>, cap: nat, r: seq<Node>)
    requires CappedTo(nodes, roots, cap, r)
    ensures DistinctIds(r)
  {
  }
}
