/** `omniweave affected`: from each changed file, breadth-first through the
    files that depend on it, stopping at test files; the tests met are the
    ones to run. */
module Affected {
  import opened CodeGraph
  import opened Reach
  import opened FileDependencies

  /** Only non-test files pass the search on. */
  ghost function Steps(g: Graph, isTest: Path -> bool): (Path, Path) -> bool {
    (a, b) => !isTest(a) && DependsOn(g, b, a)
  }

  /** A non-test change reaches `f` within the limit through non-test files. */
  ghost predicate Hit(g: Graph, isTest: Path -> bool, file: Path, bound: Bound, f: Path) {
    !isTest(file) && ReachesWithin(Steps(g, isTest), file, f, bound)
  }

  datatype Entry = Entry(file: Path, depth: nat)

  /** The depth at which each file was first met, and the files still queued:
      every file met that is neither queued, nor a test, nor at the limit, has
      had all its dependents met, at most one level deeper. */
  ghost predicate Searching(
    g: Graph, isTest: Path -> bool, file: Path, bound: Bound, level: map<Path, nat>, queue: seq<Entry>)
  {
    && file in level && level[file] == 0
    && (forall f :: f in level ==> bound.Admits(level[f]) && ReachIn(Steps(g, isTest), file, f, level[f]))
    && QueueOk(level, queue, isTest)
    && (forall f :: f in level ==> Waiting(queue, f) || Settled(g, isTest, bound, level, f))
  }

  ghost predicate Waiting(queue: seq<Entry>, f: Path) {
    exists i :: 0 <= i < |queue| && queue[i].file == f
  }

  ghost predicate Settled(g: Graph, isTest: Path -> bool, bound: Bound, level: map<Path, nat>, f: Path)
    requires f in level
  {
    bound.Above(level[f]) ==> forall d :: Steps(g, isTest)(f, d) ==> d in level && level[d] <= level[f] + 1
  }

  /** Queued depths never fall and are within one of the deepest file met. */
  ghost predicate QueueOk(level: map<Path, nat>, queue: seq<Entry>, isTest: Path -> bool) {
    && (forall i :: 0 <= i < |queue| ==>
          queue[i].file in level && level[queue[i].file] == queue[i].depth && !isTest(queue[i].file))
    && (forall i, j :: 0 <= i < j < |queue| ==> queue[i].depth <= queue[j].depth)
    && (|queue| > 0 ==> forall f :: f in level ==> level[f] <= queue[0].depth + 1)
  }

  lemma {:induction false} SettledReach(
    g: Graph, isTest: Path -> bool, file: Path, bound: Bound, level: map<Path, nat>, f: Path, k: nat)
    requires file in level && level[file] == 0
    requires forall v :: v in level ==> Settled(g, isTest, bound, level, v)
    requires ReachIn(Steps(g, isTest), file, f, k) && bound.Admits(k)
    ensures f in level && level[f] <= k
    decreases k
  {
    hide ReachIn;
    if k == 0 {
      ReachZero(Steps(g, isTest), file, f);
    } else {
      var m := ReachLast(Steps(g, isTest), file, f, k);
      SettledReach(g, isTest, file, bound, level, m, k - 1);
    }
  }

  /** With the queue empty, the files met are exactly those in range. */
  lemma SearchDone(g: Graph, isTest: Path -> bool, file: Path, bound: Bound, level: map<Path, nat>)
    requires Searching(g, isTest, file, bound, level, [])
    ensures forall f :: f in level <==> ReachesWithin(Steps(g, isTest), file, f, bound)
  {
    forall f | ReachesWithin(Steps(g, isTest), file, f, bound) ensures f in level {
      var k: nat :| bound.Admits(k) && ReachIn(Steps(g, isTest), file, f, k);
      SettledReach(g, isTest, file, bound, level, f, k);
    }
  }

  /** Meeting one dependent `d` of the file `f` being expanded. */
  lemma MeetOne(
    g: Graph, isTest: Path -> bool, file: Path, bound: Bound, level: map<Path, nat>, queue: seq<Entry>,
    f: Path, d: Path)
    requires Expanding(g, isTest, file, bound, level, queue, f)
    requires d !in level && Steps(g, isTest)(f, d)
    ensures Expanding(g, isTest, file, bound, level[d := level[f] + 1],
      if isTest(d) then queue else queue + [Entry(d, level[f] + 1)], f)
  {
    hide ReachIn, QueueOk, Waiting, Settled;
    ReachExtend(Steps(g, isTest), file, f, d, level[f]);
    MeetQueue(isTest, level, queue, f, d);
    MeetOthers(g, isTest, bound, level, queue, f, d);
  }

  lemma MeetOthers(
    g: Graph, isTest: Path -> bool, bound: Bound, level: map<Path, nat>, queue: seq<Entry>, f: Path, d: Path)
    requires f in level && d !in level
    requires forall v :: v in level && v != f ==> Waiting(queue, v) || Settled(g, isTest, bound, level, v)
    ensures var level' := level[d := level[f] + 1];
      forall v :: v in level' && v != f ==>
        Waiting(if isTest(d) then queue else queue + [Entry(d, level[f] + 1)], v) ||
        Settled(g, isTest, bound, level', v)
  {
    var level' := level[d := level[f] + 1];
    var queue' := if isTest(d) then queue else queue + [Entry(d, level[f] + 1)];
    forall v | v in level' && v != f
      ensures Waiting(queue', v) || Settled(g, isTest, bound, level', v)
    {
      if v == d {
        assert isTest(d) || queue'[|queue|] == Entry(d, level[f] + 1);
      } else if Waiting(queue, v) {
        var i :| 0 <= i < |queue| && queue[i].file == v;
        assert queue'[i] == queue[i];
      } else {
        SettledGrow(g, isTest, bound, level, v, d, level[f] + 1);
      }
    }
  }

  lemma SettledGrow(
    g: Graph, isTest: Path -> bool, bound: Bound, level: map<Path, nat>, v: Path, d: Path, k: nat)
    requires v in level && d !in level && Settled(g, isTest, bound, level, v)
    ensures Settled(g, isTest, bound, level[d := k], v)
  {
  }

  lemma MeetQueue(isTest: Path -> bool, level: map<Path, nat>, queue: seq<Entry>, f: Path, d: Path)
    requires QueueOk(level, queue, isTest) && d !in level && f in level
    requires forall i :: 0 <= i < |queue| ==> level[f] <= queue[i].depth
    requires forall v :: v in level ==> level[v] <= level[f] + 1
    ensures QueueOk(level[d := level[f] + 1], if isTest(d) then queue else queue + [Entry(d, level[f] + 1)], isTest)
  {
  }

  /** `Searching`, except that `f` has just left the queue and may still have
      dependents to meet. */
  ghost predicate Expanding(
    g: Graph, isTest: Path -> bool, file: Path, bound: Bound, level: map<Path, nat>, queue: seq<Entry>, f: Path)
  {
    && file in level && level[file] == 0
    && (forall v :: v in level ==> bound.Admits(level[v]) && ReachIn(Steps(g, isTest), file, v, level[v]))
    && QueueOk(level, queue, isTest)
    && f in level && bound.Above(level[f]) && !isTest(f)
    && (forall i :: 0 <= i < |queue| ==> level[f] <= queue[i].depth)
    && (forall v :: v in level ==> level[v] <= level[f] + 1)
    && (forall v :: v in level && v != f ==> Waiting(queue, v) || Settled(g, isTest, bound, level, v))
  }

  /** Taking the head off the queue. */
  lemma Dequeue(
    g: Graph, isTest: Path -> bool, file: Path, bound: Bound, level: map<Path, nat>, queue: seq<Entry>)
    requires Searching(g, isTest, file, bound, level, queue) && |queue| > 0
    ensures bound.Above(queue[0].depth) ==> Expanding(g, isTest, file, bound, level, queue[1..], queue[0].file)
    ensures !bound.Above(queue[0].depth) ==> Searching(g, isTest, file, bound, level, queue[1..])
  {
    var f := queue[0].file;
    forall v | v in level && v != f
      ensures Waiting(queue[1..], v) || Settled(g, isTest, bound, level, v)
    {
      if Waiting(queue, v) {
        var i :| 0 <= i < |queue| && queue[i].file == v;
        assert queue[1..][i - 1] == queue[i];
      }
    }
  }

  /** Every dependent met: the search is whole again. */
  lemma Expanded(
    g: Graph, isTest: Path -> bool, file: Path, bound: Bound, level: map<Path, nat>, queue: seq<Entry>, f: Path)
    requires Expanding(g, isTest, file, bound, level, queue, f)
    requires forall d :: Steps(g, isTest)(f, d) ==> d in level
    ensures Searching(g, isTest, file, bound, level, queue)
  {
  }

  ghost function AllFiles(g: Graph): set<Path> {
    set id | id in g.nodes :: g.nodes[id].filePath
  }

  lemma InAllFiles(g: Graph, a: Path, b: Path)
    requires DependsOn(g, a, b)
    ensures a in AllFiles(g)
  {
    var e :| CrossFile(g, e, a, b);
  }

  lemma Begin(g: Graph, isTest: Path -> bool, file: Path, bound: Bound)
    requires !isTest(file)
    ensures Searching(g, isTest, file, bound, map[file := 0], [Entry(file, 0)])
  {
    ReachSelf(Steps(g, isTest), file);
    assert [Entry(file, 0)][0].file == file;
  }

  /** The head of the queue as the search sees it. */
  lemma Head(
    g: Graph, isTest: Path -> bool, file: Path, bound: Bound, level: map<Path, nat>, queue: seq<Entry>)
    requires Searching(g, isTest, file, bound, level, queue) && |queue| > 0
    ensures queue[0].file in level && level[queue[0].file] == queue[0].depth && !isTest(queue[0].file)
    ensures level.Keys <= AllFiles(g) + {file}
  {
    forall f | f in level && f != file ensures f in AllFiles(g) {
      var m := ReachLast(Steps(g, isTest), file, f, level[f]);
      InAllFiles(g, f, m);
    }
  }

  /** Meet every dependent of the file just taken off the queue. */
  method Expand(
    g: Graph, isTest: Path -> bool, ghost file: Path, ghost bound: Bound, current: Entry, queue: seq<Entry>,
    visited: set<Path>, ghost level: map<Path, nat>, affected: set<Path>, traversed: set<Path>)
    returns (queue': seq<Entry>, visited': set<Path>, ghost level': map<Path, nat>,
             affected': set<Path>, traversed': set<Path>)
    requires Expanding(g, isTest, file, bound, level, queue, current.file)
    requires visited == level.Keys && current.file in level && level[current.file] == current.depth
    requires !isTest(current.file)
    ensures Searching(g, isTest, file, bound, level', queue') && visited' == level'.Keys
    ensures visited <= visited' && (visited' == visited ==> queue' == queue)
    ensures affected' == affected + set f | f in visited' - visited && isTest(f)
    ensures traversed' == traversed + (visited' - visited)
  {
    hide ReachIn, Searching, Expanding;
    var dependents := GetDependentFilePaths(g, current.file);
    queue', visited', level', affected', traversed' := queue, visited, level, affected, traversed;
    for i := 0 to |dependents|
      invariant Expanding(g, isTest, file, bound, level', queue', current.file)
      invariant visited' == level'.Keys && current.file in level' && level'[current.file] == current.depth
      invariant visited <= visited' && (visited' == visited ==> queue' == queue)
      invariant forall j :: 0 <= j < i ==> dependents[j] in visited'
      invariant affected' == affected + set f | f in visited' - visited && isTest(f)
      invariant traversed' == traversed + (visited' - visited)
    {
      var dep := dependents[i];
      assert dep in dependents;
      if dep !in visited' {
        MeetOne(g, isTest, file, bound, level', queue', current.file, dep);
        visited' := visited' + {dep};
        level' := level'[dep := current.depth + 1];
        traversed' := traversed' + {dep};
        if isTest(dep) {
          affected' := affected' + {dep};
        } else {
          queue' := queue' + [Entry(dep, current.depth + 1)];
        }
      }
    }
    Expanded(g, isTest, file, bound, level', queue', current.file);
  }

  /** The search from one changed non-test file. */
  method SearchFrom(
    g: Graph, isTest: Path -> bool, file: Path, bound: Bound, affected: set<Path>, traversed: set<Path>)
    returns (affected': set<Path>, traversed': set<Path>)
    requires !isTest(file)
    ensures forall f :: f in affected' <==> f in affected || (isTest(f) && Hit(g, isTest, file, bound, f))
    ensures forall f :: f in traversed' <==> f in traversed || (f != file && Hit(g, isTest, file, bound, f))
  {
    hide ReachIn, Searching, Expanding, ReachesWithin, AllFiles;
    affected', traversed' := affected, traversed;
    var queue := [Entry(file, 0)];
    var visited := {file};
    ghost var level: map<Path, nat> := map[file := 0];
    Begin(g, isTest, file, bound);

    while |queue| > 0
      invariant Searching(g, isTest, file, bound, level, queue) && visited == level.Keys && file in visited
      invariant affected' == affected + set f | f in visited && isTest(f)
      invariant traversed' == traversed + (visited - {file})
      decreases AllFiles(g) + {file} - visited, |queue|
    {
      var current := queue[0];
      Head(g, isTest, file, bound, level, queue);
      Dequeue(g, isTest, file, bound, level, queue);
      queue := queue[1..];
      if bound.Above(current.depth) {
        queue, visited, level, affected', traversed' :=
          Expand(g, isTest, file, bound, current, queue, visited, level, affected', traversed');
        if |queue| > 0 {
          Head(g, isTest, file, bound, level, queue);
        }
      }
    }
    SearchDone(g, isTest, file, bound, level);
  }

  /** `affected`: the changed test files, and every test that a changed
      non-test file reaches within the depth limit through non-test files. */
  method FindAffected(g: Graph, isTest: Path -> bool, changed: seq<Path>, bound: Bound)
      returns (tests: set<Path>, traversed: set<Path>)
    ensures forall f :: f in tests <==>
      isTest(f) && (f in changed || exists c :: c in changed && Hit(g, isTest, c, bound, f))
    ensures forall f :: f in traversed <==> exists c :: c in changed && c != f && Hit(g, isTest, c, bound, f)
  {
    hide Hit;
    tests, traversed := {}, {};
    for i := 0 to |changed|
      invariant forall f :: f in tests <==>
        isTest(f) && exists j :: 0 <= j < i && (changed[j] == f || Hit(g, isTest, changed[j], bound, f))
      invariant forall f :: f in traversed <==>
        exists j :: 0 <= j < i && changed[j] != f && Hit(g, isTest, changed[j], bound, f)
    {
      var file := changed[i];
      if isTest(file) {
        assert forall f :: !Hit(g, isTest, file, bound, f) by { NoHit(g, isTest, file, bound); }
        tests := tests + {file};
      } else {
        tests, traversed := SearchFrom(g, isTest, file, bound, tests, traversed);
      }
    }
  }

  lemma NoHit(g: Graph, isTest: Path -> bool, file: Path, bound: Bound)
    requires isTest(file)
    ensures forall f :: !Hit(g, isTest, file, bound, f)
  {
  }
}
