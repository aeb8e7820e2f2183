/** `findCircularDependencies`: depth-first search over file dependencies with
    a recursion stack; a dependency already on the stack closes a cycle. */
module Cycles {
  import opened Wrappers
  import opened CodeGraph
  import opened Reach
  import opened FileDependencies

  ghost function Deps(g: Graph): (Path, Path) -> bool {
    (a, b) => DependsOn(g, a, b)
  }

  /** Each file depends on the next. */
  ghost predicate Chain(g: Graph, c: seq<Path>) {
    forall i {:trigger c[i]} :: 0 <= i < |c| - 1 ==> DependsOn(g, c[i], c[i + 1])
  }

  /** Distinct files, each depending on the next and the last on the first. */
  ghost predicate IsCycle(g: Graph, c: seq<Path>) {
    |c| > 0 && Distinct(c) && Chain(g, c) && DependsOn(g, c[|c| - 1], c[0])
  }

  ghost predicate FromTracked(g: Graph, tracked: seq<Path>, f: Path) {
    exists t :: t in tracked && Reaches(Deps(g), t, f)
  }

  /** A file that depends on itself through at least one other. */
  ghost predicate OnCycle(g: Graph, f: Path) {
    exists k: nat :: k > 0 && ReachIn(Deps(g), f, f, k)
  }

  lemma {:induction false} ChainReach(g: Graph, c: seq<Path>, n: nat)
    requires Chain(g, c) && n < |c|
    ensures ReachIn(Deps(g), c[0], c[n], n)
  {
    hide ReachIn;
    if n == 0 {
      ReachSelf(Deps(g), c[0]);
    } else {
      ChainReach(g, c, n - 1);
      assert DependsOn(g, c[n - 1], c[n]);
      ReachExtend(Deps(g), c[0], c[n - 1], c[n], n - 1);
    }
  }

  /** What lies on a chain behind a file that its end depends on. */
  lemma SuffixIsCycle(g: Graph, path: seq<Path>, k: nat)
    requires k < |path| && Distinct(path) && Chain(g, path) && DependsOn(g, path[|path| - 1], path[k])
    ensures IsCycle(g, path[k..]) && path[k..][0] == path[k]
  {
    hide DependsOn;
    forall i | 0 <= i < |path| - k - 1
      ensures DependsOn(g, path[k..][i], path[k..][i + 1])
    {
      assert DependsOn(g, path[k + i], path[k + i + 1]);
    }
  }

  lemma CycleReturns(g: Graph, c: seq<Path>)
    requires IsCycle(g, c)
    ensures OnCycle(g, c[0]) && |c| >= 2
  {
    ChainReach(g, c, |c| - 1);
    ReachExtend(Deps(g), c[0], c[|c| - 1], c[0], |c| - 1);
  }

  lemma FromTrackedNext(g: Graph, tracked: seq<Path>, f: Path, d: Path)
    requires FromTracked(g, tracked, f) && DependsOn(g, f, d)
    ensures FromTracked(g, tracked, d)
  {
    var t :| t in tracked && Reaches(Deps(g), t, f);
    var k: nat :| ReachIn(Deps(g), t, f, k);
    ReachExtend(Deps(g), t, f, d, k);
  }

  /** A reported cycle leads from `d` to `f`, which depends on `d`. */
  ghost predicate Closes(cycles: seq<seq<Path>>, f: Path, d: Path) {
    exists c :: c in cycles && |c| > 0 && c[0] == d && c[|c| - 1] == f
  }

  /** Finished files with a number that every dependency undercuts, unless a
      reported cycle accounts for it. */
  ghost predicate Ordered(g: Graph, rank: map<Path, nat>, cycles: seq<seq<Path>>) {
    forall f, d :: f in rank && DependsOn(g, f, d) ==> (d in rank && rank[d] < rank[f]) || Closes(cycles, f, d)
  }

  /** Some reported cycle starts on the way from `a` to `b`. */
  ghost predicate Passes(g: Graph, cycles: seq<seq<Path>>, a: Path, b: Path) {
    exists c :: c in cycles && |c| > 0 && Reaches(Deps(g), a, c[0]) && Reaches(Deps(g), c[0], b)
  }

  lemma PassesFurther(g: Graph, cycles: seq<seq<Path>>, a: Path, m: Path, b: Path)
    requires Passes(g, cycles, a, m) && DependsOn(g, m, b)
    ensures Passes(g, cycles, a, b)
  {
    hide ReachIn;
    var c :| c in cycles && |c| > 0 && Reaches(Deps(g), a, c[0]) && Reaches(Deps(g), c[0], m);
    var k: nat :| ReachIn(Deps(g), c[0], m, k);
    ReachExtend(Deps(g), c[0], m, b, k);
  }

  lemma PassesHere(g: Graph, cycles: seq<seq<Path>>, a: Path, m: Path, b: Path, k: nat)
    requires ReachIn(Deps(g), a, m, k) && DependsOn(g, m, b) && Closes(cycles, m, b)
    ensures Passes(g, cycles, a, b)
  {
    hide ReachIn;
    ReachExtend(Deps(g), a, m, b, k);
    ReachSelf(Deps(g), b);
  }

  /** On a walk between finished files the number falls with every step, unless
      a reported cycle starts on it. */
  lemma {:induction false} OrderedDescends(
    g: Graph, rank: map<Path, nat>, cycles: seq<seq<Path>>, a: Path, b: Path, k: nat)
    requires Ordered(g, rank, cycles) && a in rank && ReachIn(Deps(g), a, b, k)
    ensures (b in rank && rank[b] + k <= rank[a]) || Passes(g, cycles, a, b)
    decreases k
  {
    hide ReachIn, Passes, Closes, DependsOn;
    if k == 0 {
      ReachZero(Deps(g), a, b);
    } else {
      var m := ReachLast(Deps(g), a, b, k);
      OrderedDescends(g, rank, cycles, a, m, k - 1);
      if Passes(g, cycles, a, m) {
        PassesFurther(g, cycles, a, m, b);
      } else if Closes(cycles, m, b) {
        PassesHere(g, cycles, a, m, b, k - 1);
      }
    }
  }

  /** No component is missed: every finished file that lies on a cycle shares one
      with the start of a reported cycle. */
  lemma OrderedFindsAll(g: Graph, rank: map<Path, nat>, cycles: seq<seq<Path>>)
    requires Ordered(g, rank, cycles)
    ensures forall f :: f in rank && OnCycle(g, f) ==> Passes(g, cycles, f, f)
  {
    hide Ordered, Passes;
    forall f | f in rank && OnCycle(g, f) ensures Passes(g, cycles, f, f) {
      var k: nat :| k > 0 && ReachIn(Deps(g), f, f, k);
      OrderedDescends(g, rank, cycles, f, f, k);
    }
  }

  /** When the finished files are closed under dependency and hold the tracked
      ones, they are all that is reachable from those. */
  lemma FinishedAll(g: Graph, tracked: seq<Path>, finished: set<Path>)
    requires Closed(Deps(g), finished) && forall t :: t in tracked ==> t in finished
    ensures forall f :: FromTracked(g, tracked, f) ==> f in finished
  {
    hide Closed;
    forall f | FromTracked(g, tracked, f) ensures f in finished {
      var t :| t in tracked && Reaches(Deps(g), t, f);
      var k: nat :| ReachIn(Deps(g), t, f, k);
      ClosedReach(Deps(g), finished, t, f, k);
    }
  }

  /** With no cycle reported the order rules every cycle out. */
  lemma OrderedIsAcyclic(g: Graph, tracked: seq<Path>, rank: map<Path, nat>)
    requires Ordered(g, rank, []) && forall t :: t in tracked ==> t in rank
    ensures !exists f :: FromTracked(g, tracked, f) && OnCycle(g, f)
  {
    hide Ordered, Closed;
    assert Closed(Deps(g), rank.Keys) by { OrderedClosed(g, rank); }
    FinishedAll(g, tracked, rank.Keys);
    OrderedFindsAll(g, rank, []);
  }

  lemma OrderedClosed(g: Graph, rank: map<Path, nat>)
    requires Ordered(g, rank, [])
    ensures Closed(Deps(g), rank.Keys)
  {
    hide DependsOn;
  }

  lemma ClosesLast(cycles: seq<seq<Path>>, c: seq<Path>)
    requires |c| > 0
    ensures Closes(cycles + [c], c[|c| - 1], c[0])
  {
    assert c in cycles + [c];
  }

  lemma ClosesMore(cycles: seq<seq<Path>>, more: seq<seq<Path>>)
    requires cycles <= more
    ensures forall f, d :: Closes(cycles, f, d) ==> Closes(more, f, d)
  {
    forall f, d | Closes(cycles, f, d) ensures Closes(more, f, d) {
      var c :| c in cycles && |c| > 0 && c[0] == d && c[|c| - 1] == f;
      assert c in more;
    }
  }

  lemma OrderedMore(g: Graph, rank: map<Path, nat>, cycles: seq<seq<Path>>, more: seq<seq<Path>>)
    requires Ordered(g, rank, cycles) && cycles <= more
    ensures Ordered(g, rank, more)
  {
    hide DependsOn, Closes;
    ClosesMore(cycles, more);
  }

  method IndexOf(path: seq<Path>, f: Path) returns (i: int)
    ensures if f in path then 0 <= i < |path| && path[i] == f else i == -1
  {
    for n := 0 to |path|
      invariant f !in path[..n]
    {
      if path[n] == f {
        return n;
      }
    }
    return -1;
  }

  class CycleSearch {
    const g: Graph
    const tracked: seq<Path>
    var visited: set<Path>
    var recursionStack: set<Path>
    var cycles: seq<seq<Path>>
    ghost var rank: map<Path, nat>
    ghost var clock: nat

    constructor (g: Graph, tracked: seq<Path>)
      ensures this.g == g && this.tracked == tracked
      ensures visited == {} && recursionStack == {} && cycles == [] && rank == map[] && clock == 0
    {
      this.g, this.tracked := g, tracked;
      visited, recursionStack, cycles, rank, clock := {}, {}, [], map[], 0;
    }

    ghost function Universe(): set<Path> {
      (set t | t in tracked) + (set id | id in g.nodes :: g.nodes[id].filePath)
    }

    ghost predicate Valid(path: seq<Path>) reads this {
      && OnStack(path)
      && visited <= Universe()
      && (forall f :: f in visited ==> FromTracked(g, tracked, f))
      && (forall c :: c in cycles ==> IsCycle(g, c) && FromTracked(g, tracked, c[0]))
      && Progress()
    }

    /** The path holds exactly the stack, in order. */
    ghost predicate OnStack(path: seq<Path>) reads this`recursionStack {
      Distinct(path) && Chain(g, path) && forall f :: f in path <==> f in recursionStack
    }

    /** The visited files are the stack and the finished ones, which are in
        order but for the cycles found. */
    ghost predicate Progress() reads this {
      && visited == rank.Keys + recursionStack && rank.Keys !! recursionStack
      && (forall f :: f in rank ==> rank[f] < clock)
      && Ordered(g, rank, cycles) && Looked()
    }

    /** What a finished file depends on has been visited. */
    ghost predicate Looked() reads this`rank, this`visited {
      forall f, d :: f in rank && DependsOn(g, f, d) ==> d in visited
    }

    /** The recursive search along `path`, which leads to `file`. */
    method Dfs(file: Path, path: seq<Path>)
      requires Valid(path) && FromTracked(g, tracked, file) && file in Universe()
      requires path != [] ==> DependsOn(g, path[|path| - 1], file)
      modifies this
      ensures Valid(path) && Grows() && file in visited
      ensures file in rank || (path != [] && Closes(cycles, path[|path| - 1], file))
      decreases Universe() - visited, 0
    {
      hide FromTracked, DependsOn, Chain, Distinct, IsCycle, Ordered, Closes, Looked;
      if file in recursionStack {
        CloseCycle(path, file);
        return;
      }
      if file in visited {
        return;
      }
      Enter(file, path);
      DfsAll(file, path + [file]);
      Leave(file, path);
    }

    twostate predicate Grows() reads this {
      && recursionStack == old(recursionStack)
      && old(visited) <= visited && old(rank).Keys <= rank.Keys && old(cycles) <= cycles
    }

    method CloseCycle(path: seq<Path>, file: Path)
      requires Valid(path) && file in recursionStack && DependsOn(g, path[|path| - 1], file)
      modifies this`cycles
      ensures Valid(path) && old(cycles) <= cycles && Closes(cycles, path[|path| - 1], file)
    {
      hide FromTracked, DependsOn, Ordered, IsCycle, Looked, Chain, Distinct;
      var cycleStart := IndexOf(path, file);
      if cycleStart != -1 {
        SuffixIsCycle(g, path, cycleStart);
        StackTracked(path, cycleStart);
        ghost var c := path[cycleStart..];
        OrderedMore(g, rank, cycles, cycles + [c]);
        ClosesLast(cycles, c);
        cycles := cycles + [path[cycleStart..]];
      }
    }

    lemma StackTracked(path: seq<Path>, k: nat)
      requires Valid(path) && k < |path|
      ensures FromTracked(g, tracked, path[k])
    {
      assert path[k] in path;
    }

    method Enter(file: Path, path: seq<Path>)
      requires Valid(path) && FromTracked(g, tracked, file) && file in Universe() && file !in visited
      requires path != [] ==> DependsOn(g, path[|path| - 1], file)
      modifies this`visited, this`recursionStack
      ensures Valid(path + [file])
      ensures visited == old(visited) + {file} && recursionStack == old(recursionStack) + {file}
    {
      hide FromTracked, DependsOn, Ordered, IsCycle;
      visited := visited + {file};
      recursionStack := recursionStack + {file};
    }

    method Leave(file: Path, path: seq<Path>)
      requires Valid(path + [file])
      requires forall d :: DependsOn(g, file, d) ==> d in visited && (d in rank || Closes(cycles, file, d))
      modifies this`recursionStack, this`rank, this`clock
      ensures Valid(path) && recursionStack == old(recursionStack) - {file} && file in old(recursionStack)
      ensures rank == old(rank)[file := old(clock)]
    {
      hide FromTracked, DependsOn, IsCycle, Closes;
      assert (path + [file])[|path|] == file;
      assert (path + [file])[..|path|] == path;
      recursionStack := recursionStack - {file};
      rank, clock := rank[file := clock], clock + 1;
    }

    method DfsAll(file: Path, path: seq<Path>)
      requires Valid(path) && path != [] && path[|path| - 1] == file && FromTracked(g, tracked, file)
      modifies this
      ensures Valid(path) && Grows()
      ensures forall d :: DependsOn(g, file, d) ==> d in visited && (d in rank || Closes(cycles, file, d))
      decreases Universe() - visited, 1
    {
      hide FromTracked, DependsOn, Chain, Distinct, IsCycle, Ordered, OnStack, Progress, Closes;
      var dependencies := GetDependencyFilePaths(g, file);
      for i := 0 to |dependencies|
        invariant Valid(path) && Grows()
        invariant forall j :: 0 <= j < i ==>
          dependencies[j] in visited && (dependencies[j] in rank || Closes(cycles, file, dependencies[j]))
      {
        ghost var before := cycles;
        assert dependencies[i] in dependencies;
        FromTrackedNext(g, tracked, file, dependencies[i]);
        InUniverse(file, dependencies[i]);
        Dfs(dependencies[i], path);
        ClosesMore(before, cycles);
      }
    }

    lemma LookedClosed()
      requires Progress() && recursionStack == {}
      ensures visited == rank.Keys && Closed(Deps(g), rank.Keys)
    {
      hide DependsOn;
    }

    lemma InUniverse(file: Path, d: Path)
      requires DependsOn(g, file, d)
      ensures d in Universe()
    {
      var e :| CrossFile(g, e, file, d);
    }
  }

  /** `findCircularDependencies`. Every list reported is a cycle of at least
      two distinct files reachable from a tracked file; nothing is reported
      exactly when no file reachable from a tracked one lies on a cycle; and
      every such file is on a common cycle with the start of a reported one. */
  method FindCircularDependencies(g: Graph, tracked: seq<Path>) returns (cycles: seq<seq<Path>>)
    ensures forall c :: c in cycles ==> IsCycle(g, c) && |c| >= 2 && FromTracked(g, tracked, c[0])
    ensures cycles == [] <==> !exists f :: FromTracked(g, tracked, f) && OnCycle(g, f)
    ensures forall f :: FromTracked(g, tracked, f) && OnCycle(g, f) ==> Passes(g, cycles, f, f)
  {
    hide FromTracked, OnCycle, IsCycle, Ordered, Passes, Closed, Closes, DependsOn;
    var search := new CycleSearch(g, tracked);
    assert Ordered(g, map[], []) by { NothingFinished(g); }
    for i := 0 to |tracked|
      invariant search.Valid([]) && fresh(search) && search.g == g && search.tracked == tracked
      invariant forall j :: 0 <= j < i ==> tracked[j] in search.visited
    {
      if tracked[i] !in search.visited {
        Itself(g, tracked, i);
        search.Dfs(tracked[i], []);
      }
    }
    cycles := search.cycles;
    search.LookedClosed();
    FinishedAll(g, tracked, search.rank.Keys);
    OrderedFindsAll(g, search.rank, cycles);
    CyclesReturn(g, cycles);
    if cycles == [] {
      OrderedIsAcyclic(g, tracked, search.rank);
    } else {
      assert cycles[0] in cycles;
    }
  }

  lemma CyclesReturn(g: Graph, cycles: seq<seq<Path>>)
    requires forall c :: c in cycles ==> IsCycle(g, c)
    ensures forall c :: c in cycles ==> |c| >= 2 && OnCycle(g, c[0])
  {
    hide IsCycle, OnCycle;
    forall c | c in cycles ensures |c| >= 2 && OnCycle(g, c[0]) {
      CycleReturns(g, c);
    }
  }

  lemma NothingFinished(g: Graph)
    ensures Ordered(g, map[], [])
  {
  }

  lemma Itself(g: Graph, tracked: seq<Path>, i: nat)
    requires i < |tracked|
    ensures FromTracked(g, tracked, tracked[i])
  {
    ReachSelf(Deps(g), tracked[i]);
    assert tracked[i] in tracked && Reaches(Deps(g), tracked[i], tracked[i]);
  }
}
