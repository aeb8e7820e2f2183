/** The `Mutex` of the indexer, and every interleaving of clients that run
    under `withLock`.

    JavaScript runs without preemption between awaits, so a step is what one
    client does from one await to the next. A released waiter does not own the
    lock: it has to test `locked` again, and a newcomer may get in first. */
module Mutex {
  import opened Wrappers

  /** Where a client of `withLock` stands. */
  datatype Pc =
    | Idle      // not yet called
    | Waiting   // its resolver sits in the wait queue
    | Woken     // its resolver was called; it will test `locked` again
    | Locked    // owns the lock, body not yet begun
    | Critical  // inside the body
    | Done      // released

  /** Clients are numbered; `pc[c]` is where client `c` stands. */
  datatype State = State(locked: bool, waitQueue: seq<nat>, pc: seq<Pc>)

  predicate Holds(s: State, c: nat) {
    c < |s.pc| && (s.pc[c] == Locked || s.pc[c] == Critical)
  }

  // ---- the three atomic segments ------------------------------------------

  predicate CanAttempt(s: State, c: nat) {
    c < |s.pc| && (s.pc[c] == Idle || s.pc[c] == Woken)
  }

  /** The test at the head of the loop in `acquire`: queue up or take the lock. */
  function Attempt(s: State, c: nat): State
    requires CanAttempt(s, c)
  {
    if s.locked then State(true, s.waitQueue + [c], s.pc[c := Waiting])
    else State(true, s.waitQueue, s.pc[c := Locked])
  }

  predicate CanBegin(s: State, c: nat) { c < |s.pc| && s.pc[c] == Locked }

  /** `await this.acquire()` returns and the body begins. */
  function Begin(s: State, c: nat): State
    requires CanBegin(s, c)
  {
    s.(pc := s.pc[c := Critical])
  }

  predicate CanFinish(s: State, c: nat) { c < |s.pc| && s.pc[c] == Critical }

  /** The body ends, normally or not, and `release` wakes the longest waiter. */
  function Finish(s: State, c: nat): State
    requires CanFinish(s, c)
  {
    var pc := s.pc[c := Done];
    if s.waitQueue == [] then State(false, [], pc)
    else
      var next := s.waitQueue[0];
      State(false, s.waitQueue[1..], if next < |pc| then pc[next := Woken] else pc)
  }

  predicate StepBy(s: State, c: nat, t: State) {
    || (CanAttempt(s, c) && t == Attempt(s, c))
    || (CanBegin(s, c) && t == Begin(s, c))
    || (CanFinish(s, c) && t == Finish(s, c))
  }

  ghost predicate Step(s: State, t: State) {
    exists c: nat :: StepBy(s, c, t)
  }

  ghost predicate Init(s: State) {
    !s.locked && s.waitQueue == [] && forall c :: 0 <= c < |s.pc| ==> s.pc[c] == Idle
  }

  ghost predicate IsRun(run: seq<State>) {
    |run| > 0 && Init(run[0]) && forall i {:trigger run[i]} :: 0 <= i < |run| - 1 ==> Step(run[i], run[i + 1])
  }

  // ---- what every step keeps -------------------------------------------------

  ghost predicate Inv(s: State) {
    && Exclusive(s)
    && (s.locked ==> exists c: nat :: Holds(s, c))
    && (!s.locked ==> forall c: nat :: !Holds(s, c))
    && QueueOk(s)
    && NoLostWakeup(s)
  }

  ghost predicate Exclusive(s: State) {
    forall c: nat, d: nat :: Holds(s, c) && Holds(s, d) ==> c == d
  }

  /** The queue holds each waiting client once, and nobody else. */
  ghost predicate QueueOk(s: State) {
    && (forall i :: 0 <= i < |s.waitQueue| ==> s.waitQueue[i] < |s.pc| && s.pc[s.waitQueue[i]] == Waiting)
    && (forall i, j :: 0 <= i < j < |s.waitQueue| ==> s.waitQueue[i] != s.waitQueue[j])
    && (forall c: nat :: c < |s.pc| && s.pc[c] == Waiting ==> c in s.waitQueue)
  }

  /** If the lock is free while clients queue, one of the woken can run. */
  ghost predicate NoLostWakeup(s: State) {
    !s.locked && s.waitQueue != [] ==> exists c: nat :: c < |s.pc| && s.pc[c] == Woken
  }

  lemma AttemptKeeps(s: State, c: nat)
    requires Inv(s) && CanAttempt(s, c)
    ensures Inv(Attempt(s, c))
  {
    var t := Attempt(s, c);
    assert forall d: nat :: Holds(t, d) <==> Holds(s, d) || (!s.locked && d == c);
    if s.locked {
      var h: nat :| Holds(s, h);
      assert Holds(t, h);
      assert t.waitQueue[|s.waitQueue|] == c;
      assert forall d :: d in s.waitQueue ==> d in t.waitQueue;
    } else {
      assert Holds(t, c);
    }
  }

  lemma BeginKeeps(s: State, c: nat)
    requires Inv(s) && CanBegin(s, c)
    ensures Inv(Begin(s, c))
  {
    assert forall d: nat :: Holds(Begin(s, c), d) <==> Holds(s, d);
    assert Holds(s, c);
  }

  lemma FinishKeeps(s: State, c: nat)
    requires Inv(s) && CanFinish(s, c)
    ensures Inv(Finish(s, c))
  {
    var t := Finish(s, c);
    assert Holds(s, c);
    assert forall d: nat :: Holds(t, d) ==> Holds(s, d) && d != c;
    if s.waitQueue != [] {
      FinishQueue(s, c);
      assert t.pc[s.waitQueue[0]] == Woken;
    }
  }

  lemma FinishQueue(s: State, c: nat)
    requires QueueOk(s) && CanFinish(s, c) && s.waitQueue != []
    ensures QueueOk(Finish(s, c)) && s.waitQueue[0] != c
  {
    var t, next := Finish(s, c), s.waitQueue[0];
    assert s.pc[next] == Waiting;
    assert forall i :: 0 <= i < |t.waitQueue| ==> t.waitQueue[i] == s.waitQueue[i + 1];
    forall d: nat | d < |t.pc| && t.pc[d] == Waiting ensures d in t.waitQueue {
      assert s.pc[d] == Waiting;
      var i :| 0 <= i < |s.waitQueue| && s.waitQueue[i] == d;
      assert t.waitQueue[i - 1] == d;
    }
  }

  lemma StepKeeps(s: State, t: State)
    requires Inv(s) && Step(s, t)
    ensures Inv(t) && |t.pc| == |s.pc|
  {
    var c: nat :| StepBy(s, c, t);
    if CanAttempt(s, c) && t == Attempt(s, c) {
      AttemptKeeps(s, c);
    } else if CanBegin(s, c) && t == Begin(s, c) {
      BeginKeeps(s, c);
    } else {
      FinishKeeps(s, c);
    }
  }

  /** In every interleaving, at every moment: at most one client owns the lock
      or is in its critical section, and no wakeup is lost. */
  lemma {:induction false} MutualExclusion(run: seq<State>, i: nat)
    requires IsRun(run) && i < |run|
    ensures Inv(run[i])
  {
    if i > 0 {
      MutualExclusion(run, i - 1);
      assert Step(run[i - 1], run[i]);
      StepKeeps(run[i - 1], run[i]);
    }
  }

  // ---- first come, first woken -------------------------------------------------

  predicate IsWaiting(s: State, c: nat) {
    c < |s.pc| && s.pc[c] == Waiting
  }

  /** `c` stands in the queue before `d`. */
  ghost predicate Ahead(s: State, c: nat, d: nat) {
    exists i, j :: 0 <= i < j < |s.waitQueue| && s.waitQueue[i] == c && s.waitQueue[j] == d
  }

  /** Who begins to wait stands behind everyone who waits already. */
  lemma JoinsBehind(s: State, e: nat, t: State, c: nat, d: nat)
    requires QueueOk(s) && StepBy(s, e, t) && IsWaiting(s, c) && !IsWaiting(s, d) && IsWaiting(t, d)
    ensures Ahead(t, c, d)
  {
    assert c in s.waitQueue;
    var i :| 0 <= i < |s.waitQueue| && s.waitQueue[i] == c;
    assert CanAttempt(s, e) && t == Attempt(s, e) && e == d;
    assert t.waitQueue[i] == c && t.waitQueue[|s.waitQueue|] == d;
  }

  /** Whoever is woken stood at the head of the queue. */
  lemma WokenInTurn(s: State, e: nat, t: State, c: nat, d: nat)
    requires QueueOk(s) && StepBy(s, e, t) && Ahead(s, c, d) && IsWaiting(t, c)
    ensures IsWaiting(t, d) && Ahead(t, c, d)
  {
    var i, j :| 0 <= i < j < |s.waitQueue| && s.waitQueue[i] == c && s.waitQueue[j] == d;
    assert IsWaiting(s, d);
    hide QueueOk;
    if CanAttempt(s, e) && t == Attempt(s, e) {
      assert t.waitQueue[i] == c && t.waitQueue[j] == d;
    } else if CanFinish(s, e) && t == Finish(s, e) {
      HeadWakes(s, e, i, j);
    }
  }

  lemma HeadWakes(s: State, e: nat, i: nat, j: nat)
    requires CanFinish(s, e) && i < j < |s.waitQueue| && QueueOk(s)
    requires IsWaiting(Finish(s, e), s.waitQueue[i])
    ensures IsWaiting(Finish(s, e), s.waitQueue[j]) && Ahead(Finish(s, e), s.waitQueue[i], s.waitQueue[j])
  {
    assert i > 0;
    var t := Finish(s, e);
    assert t.waitQueue[i - 1] == s.waitQueue[i] && t.waitQueue[j - 1] == s.waitQueue[j];
    assert s.waitQueue[0] != s.waitQueue[j] && s.pc[s.waitQueue[j]] == Waiting;
  }

  /** In every interleaving waiters are woken in the order in which they came: when
      `d` begins to wait while `c` does, `d` is not woken before `c`. */
  lemma {:induction false} FirstComeFirstWoken(run: seq<State>, j: nat, k: nat, c: nat, d: nat)
    requires IsRun(run) && j < k < |run|
    requires IsWaiting(run[j], c) && !IsWaiting(run[j], d) && IsWaiting(run[j + 1], d)
    requires forall m :: j < m <= k ==> IsWaiting(run[m], c)
    ensures IsWaiting(run[k], d) && Ahead(run[k], c, d)
    decreases k
  {
    hide QueueOk, Ahead, IsWaiting, StepBy, Init, Exclusive, NoLostWakeup;
    assert Step(run[k - 1], run[k]);
    MutualExclusion(run, k - 1);
    var e: nat :| StepBy(run[k - 1], e, run[k]);
    if k == j + 1 {
      JoinsBehind(run[j], e, run[k], c, d);
    } else {
      FirstComeFirstWoken(run, j, k - 1, c, d);
      WokenInTurn(run[k - 1], e, run[k], c, d);
    }
  }

  // ---- every client gets in --------------------------------------------------

  ghost predicate AllDone(s: State) {
    forall c :: 0 <= c < |s.pc| ==> s.pc[c] == Done
  }

  /** No client can move. */
  ghost predicate Stuck(s: State) {
    forall t :: !Step(s, t)
  }

  /** No deadlock: while a client is not done, some client can step. */
  lemma SomeoneCanStep(s: State)
    requires Inv(s) && !AllDone(s)
    ensures !Stuck(s)
  {
    if s.locked {
      var c: nat :| Holds(s, c);
      if s.pc[c] == Locked {
        assert StepBy(s, c, Begin(s, c)) && Step(s, Begin(s, c));
      } else {
        assert StepBy(s, c, Finish(s, c)) && Step(s, Finish(s, c));
      }
    } else {
      var c: nat :| c < |s.pc| && s.pc[c] != Done;
      assert !Holds(s, c);
      var d: nat := c;
      if s.pc[c] == Waiting {
        d :| d < |s.pc| && s.pc[d] == Woken;
      }
      assert StepBy(s, d, Attempt(s, d)) && Step(s, Attempt(s, d));
    }
  }

  function Weight(p: Pc): nat {
    match p
    case Idle => 7
    case Woken => 6
    case Waiting => 5
    case Locked => 4
    case Critical => 3
    case Done => 0
  }

  /** How much work is left. */
  function Work(pc: seq<Pc>): nat {
    if pc == [] then 0 else Work(pc[..|pc| - 1]) + Weight(pc[|pc| - 1])
  }

  lemma {:induction false} WorkUpdate(pc: seq<Pc>, c: nat, p: Pc)
    requires c < |pc|
    ensures Work(pc[c := p]) == Work(pc) - Weight(pc[c]) + Weight(p)
  {
    var n := |pc| - 1;
    if c < n {
      WorkUpdate(pc[..n], c, p);
      assert pc[c := p][..n] == pc[..n][c := p];
    } else {
      assert pc[c := p][..n] == pc[..n];
    }
  }

  lemma StepWorks(s: State, t: State)
    requires Inv(s) && Step(s, t)
    ensures Work(t.pc) < Work(s.pc)
  {
    var c: nat :| StepBy(s, c, t);
    if CanAttempt(s, c) && t == Attempt(s, c) {
      WorkUpdate(s.pc, c, t.pc[c]);
    } else if CanBegin(s, c) && t == Begin(s, c) {
      WorkUpdate(s.pc, c, Critical);
    } else {
      WorkUpdate(s.pc, c, Done);
      if s.waitQueue != [] {
        WorkUpdate(s.pc[c := Done], s.waitQueue[0], Woken);
      }
    }
  }

  lemma {:induction false} WorkBound(pc: seq<Pc>)
    ensures Work(pc) <= 7 * |pc|
  {
    if pc != [] {
      WorkBound(pc[..|pc| - 1]);
    }
  }

  lemma {:induction false} RunWorks(run: seq<State>, i: nat)
    requires IsRun(run) && i < |run|
    ensures Work(run[i].pc) + i <= Work(run[0].pc) && |run[i].pc| == |run[0].pc|
  {
    if i > 0 {
      RunWorks(run, i - 1);
      MutualExclusion(run, i - 1);
      assert Step(run[i - 1], run[i]);
      StepKeeps(run[i - 1], run[i]);
      StepWorks(run[i - 1], run[i]);
    }
  }

  /** No schedule can starve anyone: a run has at most seven steps per client,
      and one that cannot be continued has let every client through. */
  lemma EveryoneGetsIn(run: seq<State>)
    requires IsRun(run)
    ensures |run| <= 7 * |run[0].pc| + 1
    ensures Stuck(run[|run| - 1]) ==> AllDone(run[|run| - 1])
  {
    RunWorks(run, |run| - 1);
    WorkBound(run[0].pc);
    MutualExclusion(run, |run| - 1);
    if !AllDone(run[|run| - 1]) {
      SomeoneCanStep(run[|run| - 1]);
    }
  }

  // ---- the object itself ------------------------------------------------------

  /** The fields the source updates. Its methods are the segments above. */
  class Mutex {
    var locked: bool
    var waitQueue: seq<nat>

    constructor ()
      ensures !locked && waitQueue == []
    {
      locked, waitQueue := false, [];
    }

    /** One pass of the loop in `acquire`, by client `c`. */
    method TryAcquire(c: nat, ghost s: State) returns (acquired: bool)
      requires s.locked == locked && s.waitQueue == waitQueue && CanAttempt(s, c)
      modifies this
      ensures acquired == !old(locked)
      ensures locked == Attempt(s, c).locked && waitQueue == Attempt(s, c).waitQueue
      ensures acquired <==> Holds(Attempt(s, c), c)
    {
      if locked {
        waitQueue := waitQueue + [c];
        return false;
      }
      locked := true;
      return true;
    }

    /** The function `acquire` hands out. */
    method Release(ghost c: nat, ghost s: State) returns (woken: Option<nat>)
      requires s.locked == locked && s.waitQueue == waitQueue && CanFinish(s, c) && Inv(s)
      modifies this
      ensures locked == Finish(s, c).locked && waitQueue == Finish(s, c).waitQueue
      ensures woken.Some? <==> old(waitQueue) != []
      ensures woken.Some? ==> woken.value < |s.pc| && Finish(s, c).pc[woken.value] == Woken
    {
      locked := false;
      woken := None;
      if waitQueue != [] {
        woken := Some(waitQueue[0]);
        waitQueue := waitQueue[1..];
      }
    }
  }
}
