/** What a depth limit makes of `getImpactRadius`: symbols within the limit can be
    missing, whatever order the rows come in. */
module ImpactLimit {
  import opened Wrappers
  import opened CodeGraph
  import opened Reach
  import opened Impact

  function Symbol(name: string): Node {
    Node(name, Function, name, "src/f.ts", "typescript", "")
  }

  function Call(from: string, to: string): Edge {
    Edge(from, to, Calls, None, None, None, None)
  }

  /** `b` and `c` call `a` and each other; `d` calls `b`, and `e` calls `c`. */
  function TwoWays(): Graph {
    RawGraph.Graph(
      map["a" := Symbol("a"), "b" := Symbol("b"), "c" := Symbol("c"), "d" := Symbol("d"), "e" := Symbol("e")],
      multiset{Call("b", "a"), Call("c", "a"), Call("b", "c"), Call("c", "b"), Call("d", "b"), Call("e", "c")})
  }

  lemma WhoDepends()
    ensures Flat(TwoWays())
    ensures forall s :: Dependent(TwoWays(), "a", s) <==> s == "b" || s == "c"
    ensures Dependent(TwoWays(), "b", "c") && Dependent(TwoWays(), "c", "b")
    ensures Dependent(TwoWays(), "b", "d") && Dependent(TwoWays(), "c", "e")
  {
    var g := TwoWays();
    assert {Call("b", "a"), Call("c", "a"), Call("b", "c"), Call("c", "b"), Call("d", "b"), Call("e", "c")} ==
           set e | e in g.edges;
    assert DependsVia(g, "a", Call("b", "a"), "b") && DependsVia(g, "a", Call("c", "a"), "c");
    assert DependsVia(g, "b", Call("c", "b"), "c") && DependsVia(g, "c", Call("b", "c"), "b");
    assert DependsVia(g, "b", Call("d", "b"), "d") && DependsVia(g, "c", Call("e", "c"), "e");
  }

  /** Both `d` and `e` are two calls away. */
  lemma BothInRange()
    ensures InRange(TwoWays(), AtMost(2), "a", "d") && InRange(TwoWays(), AtMost(2), "a", "e")
  {
    WhoDepends();
    var g := TwoWays();
    hide TwoWays, At, Dependent;
    AtFocal(g, AtMost(2), "a");
    AtNext(g, AtMost(2), "a", "a", 0, "b", 1);
    AtNext(g, AtMost(2), "a", "a", 0, "c", 1);
    AtNext(g, AtMost(2), "a", "b", 1, "d", 2);
    AtNext(g, AtMost(2), "a", "c", 1, "e", 2);
  }

  /** No level is beyond the limit. */
  lemma AtWithin(g: Graph, n: nat, focal: Id, v: Id, d: nat)
    requires At(g, AtMost(n), focal, v, d)
    ensures d <= n
  {
    var k: nat :| ReachIn(CountedSteps(g, AtMost(n)), (focal, 0), (v, d), k);
    if k > 0 {
      hide ReachIn;
      var m := ReachLast(CountedSteps(g, AtMost(n)), (focal, 0 as nat), (v, d), k);
    } else {
      ReachZero(CountedSteps(g, AtMost(n)), (focal, 0 as nat), (v, d));
    }
  }

  /** What calls nothing but a symbol met at the limit is not met. */
  lemma NotMet(
    g: Graph, nodes: map<Id, Node>, edges: seq<Edge>, level: map<Id, nat>, focal: Id, x: Id, y: Id)
    requires Labelling(g, AtMost(2), focal, nodes, edges, level) && forall e :: e in edges ==> e in g.edges
    requires forall e :: e in g.edges && Opened(e) == x ==> e.kind != Contains && Opener(e) == y
    requires y in level && level[y] > 1 && x != focal
    ensures x !in nodes
  {
    hide At;
    if x in level {
      assert BroughtFrom(edges, level.Keys, level, x);
      var e :| e in edges && BringsTo(e, level.Keys, level, x);
      AtWithin(g, 2, focal, x, level[x]);
    }
  }

  lemma OnlyCalls()
    ensures forall e :: e in TwoWays().edges && Opened(e) == "d" ==> e.kind != Contains && Opener(e) == "b"
    ensures forall e :: e in TwoWays().edges && Opened(e) == "e" ==> e.kind != Contains && Opener(e) == "c"
  {
  }

  lemma OneNotMet(nodes: map<Id, Node>, edges: seq<Edge>, level: map<Id, nat>)
    requires Labelling(TwoWays(), AtMost(2), "a", nodes, edges, level)
    requires DepthFirst(TwoWays(), AtMost(2), "a", level) && Connected(TwoWays(), "a", nodes, edges)
    ensures "d" !in nodes || "e" !in nodes
  {
    WhoDepends();
    OnlyCalls();
    hide TwoWays, Dependent, Labelling;
    assert Dependent(TwoWays(), "a", "b") && "b" != "a";
    var x :| FoundFirst(TwoWays(), AtMost(2), {"a"}, level, "a", 0, x);
    if x == "b" {
      NotMet(TwoWays(), nodes, edges, level, "a", "e", "c");
    } else {
      NotMet(TwoWays(), nodes, edges, level, "a", "d", "b");
    }
  }

  /** The one of `b` and `c` that is looked at first finds the other, at the limit,
      and the symbol that calls that one is not found any more. */
  method OneIsMissed() returns (r: Radius)
    ensures InRange(TwoWays(), AtMost(2), "a", "d") && InRange(TwoWays(), AtMost(2), "a", "e")
    ensures r.Radius? && ("d" !in r.nodes || "e" !in r.nodes)
  {
    BothInRange();
    WhoDepends();
    assert "a" in TwoWays().nodes;
    ghost var level;
    hide TwoWays, Dependent, Labelling, Rows, Connected, Closed, Reaches, LeftOut, Roomy, InRange, Flat, DepthFirst;
    r, level := GetImpactRadius(TwoWays(), "a", AtMost(2));
    OneNotMet(r.nodes, r.edges, level);
  }
}
