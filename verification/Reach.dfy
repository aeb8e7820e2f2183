/** Reachability along a step relation, and the bookkeeping shared by the
    breadth-first searches. */
module Reach {

  /** A depth limit; `Unlimited` is the source's `Infinity`. */
  datatype Bound = Unlimited | AtMost(n: int)
  {
    /** Expanding a node found at depth `d` is allowed. */
    predicate Above(d: nat) { Unlimited? || d < n }
    /** A walk of `k` steps respects the limit. */
    predicate Admits(k: nat) { Unlimited? || k <= n || k == 0 }
  }

  /** `b` is the end of a walk of exactly `k` steps from `a`. */
  ghost predicate ReachIn<T(!new)>(step: (T, T) -> bool, a: T, b: T, k: nat) {
    if k == 0 then a == b else exists m :: ReachIn(step, a, m, k - 1) && step(m, b)
  }

  ghost predicate Reaches<T(!new)>(step: (T, T) -> bool, a: T, b: T) {
    exists k: nat :: ReachIn(step, a, b, k)
  }

  ghost predicate ReachesWithin<T(!new)>(step: (T, T) -> bool, a: T, b: T, bound: Bound) {
    exists k: nat :: bound.Admits(k) && ReachIn(step, a, b, k)
  }

  ghost predicate Closed<T(!new)>(step: (T, T) -> bool, s: set<T>) {
    forall a, b :: a in s && step(a, b) ==> b in s
  }

  lemma {:induction false} ReachSelf<T(!new)>(step: (T, T) -> bool, a: T)
    ensures ReachIn(step, a, a, 0)
  {
  }

  lemma {:induction false} ReachZero<T(!new)>(step: (T, T) -> bool, a: T, b: T)
    requires ReachIn(step, a, b, 0)
    ensures a == b
  {
  }

  /** The last step of a walk. */
  lemma {:induction false} ReachLast<T(!new)>(step: (T, T) -> bool, a: T, b: T, k: nat) returns (m: T)
    requires k > 0 && ReachIn(step, a, b, k)
    ensures ReachIn(step, a, m, k - 1) && step(m, b)
  {
    m :| ReachIn(step, a, m, k - 1) && step(m, b);
  }

  lemma {:induction false} ReachExtend<T(!new)>(step: (T, T) -> bool, a: T, m: T, b: T, k: nat)
    requires ReachIn(step, a, m, k) && step(m, b)
    ensures ReachIn(step, a, b, k + 1)
  {
  }

  lemma {:induction false} ReachPrepend<T(!new)>(step: (T, T) -> bool, a: T, m: T, b: T, k: nat)
    requires step(a, m) && ReachIn(step, m, b, k)
    ensures ReachIn(step, a, b, k + 1)
  {
    if k == 0 {
      assert ReachIn(step, a, a, 0);
    } else {
      var n :| ReachIn(step, m, n, k - 1) && step(n, b);
      ReachPrepend(step, a, m, n, k - 1);
    }
  }

  /** A closed set that holds the start holds everything reachable. */
  lemma {:induction false} ClosedReach<T(!new)>(step: (T, T) -> bool, s: set<T>, a: T, b: T, k: nat)
    requires Closed(step, s) && a in s && ReachIn(step, a, b, k)
    ensures b in s
  {
    if k > 0 {
      var m :| ReachIn(step, a, m, k - 1) && step(m, b);
      ClosedReach(step, s, a, m, k - 1);
    }
  }

  // ---- breadth-first search with marking on dequeue ------------------------

  ghost predicate Queued<T>(queue: seq<(T, nat)>, v: T, d: nat) {
    exists i :: 0 <= i < |queue| && queue[i].0 == v && queue[i].1 <= d
  }

  /** `level` holds the visited nodes with the depth at which each was
      dequeued; `queue` holds the discoveries not yet dequeued, with depths. */
  ghost predicate Frontier<T(!new)>(
    step: (T, T) -> bool, start: T, bound: Bound, level: map<T, nat>, queue: seq<(T, nat)>)
  {
    && SoundLevels(step, start, bound, level)
    && SoundQueue(step, start, bound, queue)
    && Fifo(level, queue)
    && Covered(level, queue, start, 0)
    && Exhaustive(step, bound, level, queue)
  }

  ghost predicate SoundLevels<T(!new)>(step: (T, T) -> bool, start: T, bound: Bound, level: map<T, nat>) {
    forall v :: v in level ==> ReachIn(step, start, v, level[v]) && bound.Admits(level[v])
  }

  ghost predicate SoundQueue<T(!new)>(step: (T, T) -> bool, start: T, bound: Bound, queue: seq<(T, nat)>) {
    forall i :: 0 <= i < |queue| ==> ReachIn(step, start, queue[i].0, queue[i].1) && bound.Admits(queue[i].1)
  }

  /** Depths in the queue never fall and span two values; the visited nodes
      are no deeper than the queued ones. */
  ghost predicate Fifo<T>(level: map<T, nat>, queue: seq<(T, nat)>) {
    && (forall i, j :: 0 <= i < j < |queue| ==> queue[i].1 <= queue[j].1 <= queue[i].1 + 1)
    && (forall v, i :: v in level && 0 <= i < |queue| ==> level[v] <= queue[i].1)
  }

  /** Every step out of an expanded node is accounted for. */
  ghost predicate Exhaustive<T(!new)>(
    step: (T, T) -> bool, bound: Bound, level: map<T, nat>, queue: seq<(T, nat)>)
  {
    forall v, w :: v in level && bound.Above(level[v]) && step(v, w) ==> Covered(level, queue, w, level[v] + 1)
  }

  ghost predicate Covered<T>(level: map<T, nat>, queue: seq<(T, nat)>, w: T, d: nat) {
    (w in level && level[w] <= d) || Queued(queue, w, d)
  }

  lemma FrontierInit<T(!new)>(step: (T, T) -> bool, start: T, bound: Bound)
    ensures Frontier(step, start, bound, map[], [(start, 0)])
  {
    assert [(start, 0 as nat)][0] == (start, 0);
  }

  lemma QueuedRest<T>(queue: seq<(T, nat)>, w: T, d: nat)
    requires |queue| > 0 && Queued(queue, w, d)
    ensures (queue[0].0 == w && queue[0].1 <= d) || Queued(queue[1..], w, d)
  {
    var i :| 0 <= i < |queue| && queue[i].0 == w && queue[i].1 <= d;
    if i > 0 {
      assert queue[1..][i - 1] == queue[i];
    }
  }

  lemma QueuedGrow<T>(queue: seq<(T, nat)>, extra: seq<(T, nat)>, w: T, d: nat)
    requires Queued(queue, w, d)
    ensures Queued(queue + extra, w, d)
  {
    var i :| 0 <= i < |queue| && queue[i].0 == w && queue[i].1 <= d;
    assert (queue + extra)[i] == queue[i];
  }

  lemma QueuedPush<T(!new)>(queue: seq<(T, nat)>, w: T, d: nat)
    ensures Queued(queue + [(w, d)], w, d)
    ensures forall v, e: nat :: Queued(queue, v, e) ==> Queued(queue + [(w, d)], v, e)
  {
    assert (queue + [(w, d)])[|queue|] == (w, d);
    forall v, e: nat | Queued(queue, v, e) ensures Queued(queue + [(w, d)], v, e) {
      QueuedGrow(queue, [(w, d)], v, e);
    }
  }

  /** Dropping the head, once its node is visited, and appending `extra`
      forgets nothing. */
  lemma CoveredNext<T>(level: map<T, nat>, queue: seq<(T, nat)>, extra: seq<(T, nat)>, w: T, d: nat)
    requires |queue| > 0 && Covered(level, queue, w, d)
    requires queue[0].0 in level ==> level[queue[0].0] <= queue[0].1
    ensures Covered(if queue[0].0 in level then level else level[queue[0].0 := queue[0].1], queue[1..] + extra, w, d)
  {
    if Queued(queue, w, d) {
      QueuedRest(queue, w, d);
      if Queued(queue[1..], w, d) {
        QueuedGrow(queue[1..], extra, w, d);
      }
    }
  }

  /** Dropping an entry whose node was already visited loses nothing. */
  lemma FrontierSkip<T(!new)>(
    step: (T, T) -> bool, start: T, bound: Bound, level: map<T, nat>, queue: seq<(T, nat)>)
    requires Frontier(step, start, bound, level, queue)
    requires |queue| > 0 && queue[0].0 in level
    ensures Frontier(step, start, bound, level, queue[1..])
  {
    assert queue[1..] + [] == queue[1..];
    forall v, w | v in level && bound.Above(level[v]) && step(v, w)
      ensures Covered(level, queue[1..], w, level[v] + 1)
    {
      CoveredNext(level, queue, [], w, level[v] + 1);
    }
    CoveredNext(level, queue, [], start, 0);
  }

  /** What visiting the head of the queue may append: its unvisited successors
      one level deeper, and all of them unless the limit is reached. */
  ghost predicate Successors<T(!new)>(
    step: (T, T) -> bool, bound: Bound, level: map<T, nat>, v: T, d: nat, extra: seq<(T, nat)>)
  {
    && (forall i :: 0 <= i < |extra| ==> extra[i].1 == d + 1 && step(v, extra[i].0))
    && (extra != [] ==> bound.Above(d))
    && (bound.Above(d) ==> forall w :: step(v, w) && w !in level && w != v ==> Queued(extra, w, d + 1))
  }

  lemma SoundNext<T(!new)>(
    step: (T, T) -> bool, start: T, bound: Bound, level: map<T, nat>, queue: seq<(T, nat)>, extra: seq<(T, nat)>)
    requires SoundQueue(step, start, bound, queue) && |queue| > 0
    requires Successors(step, bound, level, queue[0].0, queue[0].1, extra)
    ensures SoundQueue(step, start, bound, queue[1..] + extra)
  {
    var next := queue[1..] + extra;
    forall i | 0 <= i < |next|
      ensures ReachIn(step, start, next[i].0, next[i].1) && bound.Admits(next[i].1)
    {
      if i < |queue| - 1 {
        assert next[i] == queue[i + 1];
      } else {
        assert next[i] == extra[i - (|queue| - 1)];
        ReachExtend(step, start, queue[0].0, next[i].0, queue[0].1);
      }
    }
  }

  lemma FifoNext<T>(level: map<T, nat>, queue: seq<(T, nat)>, extra: seq<(T, nat)>)
    requires Fifo(level, queue) && |queue| > 0
    requires forall i :: 0 <= i < |extra| ==> extra[i].1 == queue[0].1 + 1
    ensures Fifo(level[queue[0].0 := queue[0].1], queue[1..] + extra)
  {
    var next, d := queue[1..] + extra, queue[0].1;
    forall i | 0 <= i < |next|
      ensures d <= next[i].1 <= d + 1
      ensures i >= |queue| - 1 ==> next[i].1 == d + 1
    {
      if i < |queue| - 1 {
        assert next[i] == queue[i + 1];
      } else {
        assert next[i] == extra[i - (|queue| - 1)];
      }
    }
    assert forall i, j :: 0 <= i < j < |queue| - 1 ==> queue[1..][i].1 <= queue[1..][j].1;
  }

  /** Visiting the head and appending its unvisited successors keeps the
      search honest. */
  lemma FrontierVisit<T(!new)>(
    step: (T, T) -> bool, start: T, bound: Bound, level: map<T, nat>, queue: seq<(T, nat)>,
    extra: seq<(T, nat)>)
    requires Frontier(step, start, bound, level, queue)
    requires |queue| > 0 && queue[0].0 !in level
    requires Successors(step, bound, level, queue[0].0, queue[0].1, extra)
    ensures Frontier(step, start, bound, level[queue[0].0 := queue[0].1], queue[1..] + extra)
  {
    var (v0, d) := queue[0];
    var level', queue' := level[v0 := d], queue[1..] + extra;
    SoundNext(step, start, bound, level, queue, extra);
    FifoNext(level, queue, extra);
    CoveredNext(level, queue, extra, start, 0);
    forall v, w | v in level' && bound.Above(level'[v]) && step(v, w)
      ensures Covered(level', queue', w, level'[v] + 1)
    {
      if v != v0 {
        CoveredNext(level, queue, extra, w, level[v] + 1);
      } else if w !in level' {
        var i :| 0 <= i < |extra| && extra[i].0 == w && extra[i].1 <= d + 1;
        assert queue'[|queue| - 1 + i] == extra[i];
      }
    }
  }

  /** Whatever lies `k` steps away is visited at depth at most `k`, or the
      head of the queue is no deeper than `k`. */
  lemma {:induction false} FrontierReach<T(!new)>(
    step: (T, T) -> bool, start: T, bound: Bound, level: map<T, nat>, queue: seq<(T, nat)>, b: T, k: nat)
    requires Frontier(step, start, bound, level, queue)
    requires ReachIn(step, start, b, k) && bound.Admits(k)
    ensures (b in level && level[b] <= k) || (|queue| > 0 && queue[0].1 <= k)
  {
    if k > 0 {
      var m :| ReachIn(step, start, m, k - 1) && step(m, b);
      FrontierReach(step, start, bound, level, queue, m, k - 1);
      if m in level && level[m] <= k - 1 {
        assert Covered(level, queue, b, level[m] + 1);
      }
    }
  }

  /** With the queue empty the search has found exactly the nodes in range,
      each at its distance from the start. */
  lemma FrontierDone<T(!new)>(step: (T, T) -> bool, start: T, bound: Bound, level: map<T, nat>)
    requires Frontier(step, start, bound, level, [])
    ensures forall b :: b in level <==> ReachesWithin(step, start, b, bound)
    ensures forall b, k: nat :: b in level && ReachIn(step, start, b, k) ==> level[b] <= k
  {
    forall b | ReachesWithin(step, start, b, bound)
      ensures b in level
    {
      var k: nat :| bound.Admits(k) && ReachIn(step, start, b, k);
      FrontierReach(step, start, bound, level, [], b, k);
    }
    forall b, k: nat | b in level && ReachIn(step, start, b, k)
      ensures level[b] <= k
    {
      if k < level[b] {
        FrontierReach(step, start, bound, level, [], b, k);
      }
    }
  }

  /** At any moment the visited nodes sit at their distance from the start. */
  lemma LevelsMinimal<T(!new)>(
    step: (T, T) -> bool, start: T, bound: Bound, level: map<T, nat>, queue: seq<(T, nat)>)
    requires Frontier(step, start, bound, level, queue)
    ensures forall b, k: nat :: b in level && ReachIn(step, start, b, k) ==> level[b] <= k
  {
    forall b, k: nat | b in level && ReachIn(step, start, b, k)
      ensures level[b] <= k
    {
      if k < level[b] {
        FrontierReach(step, start, bound, level, queue, b, k);
      }
    }
  }
}
