/** The two-level lock of `indexAll` and `sync`: every process serialises its
    own calls with a `Mutex`, and the call inside takes a lock file that holds
    a process id.

    A step is one process doing one thing; processes may die between any two
    steps and ids are not reused. `acquire` is two steps: looking at the file
    and clearing it when stale, then the exclusive create. */
module FileLocks {
  import M = Mutex

  /** What is at the lock path; `Owned(p)` parses as the process id `p`. */
  datatype LockFile = Absent | Garbage | Owned(pid: nat)

  /** How far the call inside the mutex has come. */
  datatype Phase =
    | Outside  // `fileLock.acquire()` not yet called
    | Checked  // found no live owner, about to create the file
    | Held     // created the file; the body of `indexAll` or `sync` runs
    | Over     // released, or acquiring failed

  /** A process with its clients; process ids are positions in `procs`. */
  datatype Proc = Proc(alive: bool, mutex: M.State, phase: Phase)

  datatype World = World(file: LockFile, procs: seq<Proc>)

  predicate Alive(w: World, p: nat) {
    p < |w.procs| && w.procs[p].alive
  }

  predicate LiveOwner(w: World) {
    w.file.Owned? && Alive(w, w.file.pid)
  }

  function WithPhase(w: World, p: nat, phase: Phase): World
    requires p < |w.procs|
  {
    w.(procs := w.procs[p := w.procs[p].(phase := phase)])
  }

  predicate InBody(s: M.State, c: nat) {
    c < |s.pc| && s.pc[c] == M.Critical
  }

  // ---- the steps -----------------------------------------------------------

  predicate CanCheck(w: World, p: nat, c: nat) {
    Alive(w, p) && InBody(w.procs[p].mutex, c) && w.procs[p].phase == Outside
  }

  /** First half of `acquire`: fail if a live process owns the file, else clear
      whatever is there. */
  function Check(w: World, p: nat, c: nat): World
    requires CanCheck(w, p, c)
  {
    if LiveOwner(w) then WithPhase(w, p, Over) else WithPhase(w.(file := Absent), p, Checked)
  }

  predicate CanCreate(w: World, p: nat) { Alive(w, p) && w.procs[p].phase == Checked }

  /** Second half: create the file exclusively, or fail because it exists. */
  function Create(w: World, p: nat): World
    requires CanCreate(w, p)
  {
    if w.file == Absent then WithPhase(w.(file := Owned(p)), p, Held) else WithPhase(w, p, Over)
  }

  predicate CanRelease(w: World, p: nat) { Alive(w, p) && w.procs[p].phase == Held }

  /** `release`: remove the file if it still names this process. */
  function Freed(w: World, p: nat): World
    requires CanRelease(w, p)
  {
    WithPhase(w.(file := if w.file == Owned(p) then Absent else w.file), p, Over)
  }

  predicate CanEnter(w: World, p: nat, c: nat) {
    Alive(w, p) && (M.CanAttempt(w.procs[p].mutex, c) || M.CanBegin(w.procs[p].mutex, c))
  }

  /** A client tries the mutex, or starts the function it wanted to run. */
  function Enter(w: World, p: nat, c: nat): World
    requires CanEnter(w, p, c)
  {
    var s := w.procs[p].mutex;
    var t := if M.CanAttempt(s, c) then M.Attempt(s, c) else M.Begin(s, c);
    w.(procs := w.procs[p := w.procs[p].(mutex := t)])
  }

  predicate CanLeave(w: World, p: nat, c: nat) {
    Alive(w, p) && M.CanFinish(w.procs[p].mutex, c) && w.procs[p].phase == Over
  }

  /** The function returns and `withLock` releases the mutex. */
  function Leave(w: World, p: nat, c: nat): World
    requires CanLeave(w, p, c)
  {
    w.(procs := w.procs[p := w.procs[p].(mutex := M.Finish(w.procs[p].mutex, c), phase := Outside)])
  }

  function Die(w: World, p: nat): World
    requires Alive(w, p)
  {
    w.(procs := w.procs[p := w.procs[p].(alive := false)])
  }

  predicate StepBy(w: World, p: nat, c: nat, v: World) {
    || (CanCheck(w, p, c) && v == Check(w, p, c))
    || (CanCreate(w, p) && v == Create(w, p))
    || (CanRelease(w, p) && v == Freed(w, p))
    || (CanEnter(w, p, c) && v == Enter(w, p, c))
    || (CanLeave(w, p, c) && v == Leave(w, p, c))
    || (Alive(w, p) && v == Die(w, p))
  }

  ghost predicate Step(w: World, v: World) {
    exists p: nat, c: nat :: StepBy(w, p, c, v)
  }

  /** Any file may be lying around, as long as no live process is its owner. */
  ghost predicate Init(w: World) {
    && !LiveOwner(w)
    && forall p :: 0 <= p < |w.procs| ==> M.Init(w.procs[p].mutex) && w.procs[p].phase == Outside
  }

  ghost predicate IsRun(run: seq<World>) {
    |run| > 0 && Init(run[0]) && forall i {:trigger run[i]} :: 0 <= i < |run| - 1 ==> Step(run[i], run[i + 1])
  }

  // ---- what every step keeps --------------------------------------------------

  ghost predicate ProcOk(w: World, p: nat)
    requires p < |w.procs|
  {
    var proc := w.procs[p];
    && M.Inv(proc.mutex)
    && (proc.phase != Outside ==> exists c: nat :: InBody(proc.mutex, c))
    && (proc.alive ==> (proc.phase == Held <==> w.file == Owned(p)))
  }

  /** A live process holds the lock exactly when the file names it. */
  ghost predicate Inv(w: World) {
    forall p :: 0 <= p < |w.procs| ==> ProcOk(w, p)
  }

  /** Client `c` of the live process `p` is running an index or sync body. */
  ghost predicate Indexing(w: World, p: nat, c: nat) {
    Alive(w, p) && w.procs[p].phase == Held && InBody(w.procs[p].mutex, c)
  }

  lemma InitInv(w: World)
    requires Init(w)
    ensures Inv(w)
  {
    forall p | 0 <= p < |w.procs| ensures ProcOk(w, p) {
      assert forall c: nat :: !M.Holds(w.procs[p].mutex, c);
    }
  }

  /** Steps inside one process that leave the file and its phase alone. */
  lemma EnterKeeps(w: World, p: nat, c: nat)
    requires Inv(w) && CanEnter(w, p, c)
    ensures Inv(Enter(w, p, c))
  {
    var v, s := Enter(w, p, c), w.procs[p].mutex;
    assert ProcOk(w, p);
    var t := v.procs[p].mutex;
    assert M.StepBy(s, c, t);
    M.StepKeeps(s, t);
    forall q | 0 <= q < |v.procs| ensures ProcOk(v, q) {
      assert ProcOk(w, q);
      if q == p && w.procs[p].phase != Outside {
        var d: nat :| InBody(s, d);
        assert InBody(t, d);
      }
    }
  }

  lemma LeaveKeeps(w: World, p: nat, c: nat)
    requires Inv(w) && CanLeave(w, p, c)
    ensures Inv(Leave(w, p, c))
  {
    var v := Leave(w, p, c);
    assert ProcOk(w, p);
    assert M.StepBy(w.procs[p].mutex, c, v.procs[p].mutex);
    M.StepKeeps(w.procs[p].mutex, v.procs[p].mutex);
    forall q | 0 <= q < |v.procs| ensures ProcOk(v, q) {
      assert ProcOk(w, q);
    }
  }

  /** Steps that look at or change the lock file. */
  lemma FileKeeps(w: World, p: nat, c: nat, v: World)
    requires Inv(w)
    requires || (CanCheck(w, p, c) && v == Check(w, p, c)) || (CanCreate(w, p) && v == Create(w, p))
             || (CanRelease(w, p) && v == Freed(w, p)) || (Alive(w, p) && v == Die(w, p))
    ensures Inv(v)
  {
    hide M.Inv;
    assert ProcOk(w, p);
    forall q | 0 <= q < |v.procs| ensures ProcOk(v, q) {
      assert ProcOk(w, q);
      assert v.procs[q].mutex == w.procs[q].mutex;
    }
  }

  lemma StepKeeps(w: World, v: World)
    requires Inv(w) && Step(w, v)
    ensures Inv(v)
  {
    hide Inv, M.Inv;
    var p: nat, c: nat :| StepBy(w, p, c, v);
    if CanEnter(w, p, c) && v == Enter(w, p, c) {
      EnterKeeps(w, p, c);
    } else if CanLeave(w, p, c) && v == Leave(w, p, c) {
      LeaveKeeps(w, p, c);
    } else {
      FileKeeps(w, p, c, v);
    }
  }

  lemma {:induction false} RunKeeps(run: seq<World>, i: nat)
    requires IsRun(run) && i < |run|
    ensures Inv(run[i])
  {
    if i == 0 {
      InitInv(run[0]);
    } else {
      RunKeeps(run, i - 1);
      assert Step(run[i - 1], run[i]);
      StepKeeps(run[i - 1], run[i]);
    }
  }

  /** In every run, at every moment, at most one index or sync body is
      running, in all clients of all live processes together. */
  lemma NoTwoBodies(run: seq<World>, i: nat)
    requires IsRun(run) && i < |run|
    ensures forall p: nat, c: nat, q: nat, d: nat ::
      Indexing(run[i], p, c) && Indexing(run[i], q, d) ==> p == q && c == d
  {
    RunKeeps(run, i);
    forall p: nat, c: nat, q: nat, d: nat | Indexing(run[i], p, c) && Indexing(run[i], q, d)
      ensures p == q && c == d
    {
      assert ProcOk(run[i], p) && ProcOk(run[i], q);
      assert run[i].file == Owned(p) && run[i].file == Owned(q);
      assert M.Holds(run[i].procs[p].mutex, c) && M.Holds(run[i].procs[p].mutex, d);
    }
  }

  /** Whatever `p` does about the lock, the file of `q` stays and `p` fails. */
  ghost predicate Respects(w: World, p: nat, q: nat) {
    && (CanCreate(w, p) ==> Create(w, p).file == Owned(q) && Create(w, p).procs[p].phase == Over)
    && (forall c: nat :: CanCheck(w, p, c) ==> Check(w, p, c).file == Owned(q) && Check(w, p, c).procs[p].phase == Over)
    && !CanRelease(w, p)
  }

  /** Releasing never takes the file of another live holder, and a body never
      starts while a live process owns the file. */
  lemma FileIsRespected(run: seq<World>, i: nat)
    requires IsRun(run) && i < |run|
    ensures forall p: nat, q: nat ::
      p != q && Alive(run[i], q) && run[i].file == Owned(q) ==> Respects(run[i], p, q)
  {
    RunKeeps(run, i);
    forall p: nat, q: nat | p != q && Alive(run[i], q) && run[i].file == Owned(q)
      ensures Respects(run[i], p, q)
    {
      if p < |run[i].procs| {
        assert ProcOk(run[i], p);
      }
    }
  }

  /** A file left by a dead process, or one that does not parse, blocks nobody:
      undisturbed, the next `acquire` succeeds. */
  lemma DeadHolderBlocksNobody(w: World, p: nat, c: nat)
    requires CanCheck(w, p, c)
    ensures (CanCreate(Check(w, p, c), p) && Create(Check(w, p, c), p).procs[p].phase == Held) <==> !LiveOwner(w)
  {
  }

  // ---- every call ends --------------------------------------------------------------

  /** A step of a process that goes on. */
  ghost predicate Progress(w: World, v: World) {
    exists p: nat, c: nat :: StepBy(w, p, c, v) && Alive(v, p)
  }

  /** No live process can go on. */
  ghost predicate Halted(w: World) {
    forall v :: !Progress(w, v)
  }

  /** Every client of every process that is alive has run its function. */
  ghost predicate AllReturned(w: World) {
    forall p: nat :: Alive(w, p) ==> M.AllDone(w.procs[p].mutex)
  }

  /** No process waits for ever: while a client of a live process has not
      returned, some live process can go on. */
  lemma SomeoneCanStep(w: World)
    requires Inv(w) && !AllReturned(w)
    ensures !Halted(w)
  {
    hide M.Inv;
    var p: nat :| Alive(w, p) && !M.AllDone(w.procs[p].mutex);
    assert ProcOk(w, p);
    M.SomeoneCanStep(w.procs[p].mutex);
    var t :| M.Step(w.procs[p].mutex, t);
    var c: nat :| M.StepBy(w.procs[p].mutex, c, t);
    if CanEnter(w, p, c) {
      Goes(w, p, c, Enter(w, p, c));
    } else {
      match w.procs[p].phase
      case Outside => Goes(w, p, c, Check(w, p, c));
      case Checked => Goes(w, p, c, Create(w, p));
      case Held => Goes(w, p, c, Freed(w, p));
      case Over => Goes(w, p, c, Leave(w, p, c));
    }
  }

  lemma Goes(w: World, p: nat, c: nat, v: World)
    requires StepBy(w, p, c, v) && Alive(v, p)
    ensures Progress(w, v)
  {
  }

  function PhaseWeight(phase: Phase): nat {
    match phase
    case Outside => 3
    case Checked => 2
    case Held => 1
    case Over => 0
  }

  function ProcWork(proc: Proc): nat {
    if proc.alive then 1 + 4 * M.Work(proc.mutex.pc) + PhaseWeight(proc.phase) else 0
  }

  /** How much work is left in all live processes. */
  function TotalWork(procs: seq<Proc>): nat {
    if procs == [] then 0 else TotalWork(procs[..|procs| - 1]) + ProcWork(procs[|procs| - 1])
  }

  lemma {:induction false} TotalUpdate(procs: seq<Proc>, p: nat, proc: Proc)
    requires p < |procs|
    ensures TotalWork(procs[p := proc]) == TotalWork(procs) - ProcWork(procs[p]) + ProcWork(proc)
  {
    var n := |procs| - 1;
    if p < n {
      TotalUpdate(procs[..n], p, proc);
      assert procs[p := proc][..n] == procs[..n][p := proc];
    } else {
      assert procs[p := proc][..n] == procs[..n];
    }
  }

  /** One process does something, and has less to do afterwards. */
  lemma StepWorks(w: World, v: World)
    requires Inv(w) && Step(w, v)
    ensures TotalWork(v.procs) < TotalWork(w.procs) && |v.procs| == |w.procs|
  {
    hide Inv;
    var p: nat, c: nat :| StepBy(w, p, c, v);
    ProcWorks(w, p, c, v);
    TotalUpdate(w.procs, p, v.procs[p]);
  }

  lemma ProcWorks(w: World, p: nat, c: nat, v: World)
    requires Inv(w) && StepBy(w, p, c, v)
    ensures p < |w.procs| == |v.procs| && v.procs == w.procs[p := v.procs[p]]
    ensures ProcWork(v.procs[p]) < ProcWork(w.procs[p])
  {
    hide M.Inv, M.Work;
    assert ProcOk(w, p);
    if (CanEnter(w, p, c) && v == Enter(w, p, c)) || (CanLeave(w, p, c) && v == Leave(w, p, c)) {
      MutexWorks(w, p, c, v);
    }
  }

  lemma MutexWorks(w: World, p: nat, c: nat, v: World)
    requires p < |w.procs| && M.Inv(w.procs[p].mutex)
    requires (CanEnter(w, p, c) && v == Enter(w, p, c)) || (CanLeave(w, p, c) && v == Leave(w, p, c))
    ensures M.Work(v.procs[p].mutex.pc) < M.Work(w.procs[p].mutex.pc)
  {
    hide M.Inv, M.Work;
    assert M.StepBy(w.procs[p].mutex, c, v.procs[p].mutex);
    M.StepWorks(w.procs[p].mutex, v.procs[p].mutex);
  }

  lemma {:induction false} RunWorks(run: seq<World>, i: nat)
    requires IsRun(run) && i < |run|
    ensures TotalWork(run[i].procs) + i <= TotalWork(run[0].procs)
  {
    hide Step, Inv, Init, TotalWork;
    if i > 0 {
      RunWorks(run, i - 1);
      RunKeeps(run, i - 1);
      assert Step(run[i - 1], run[i]);
      StepWorks(run[i - 1], run[i]);
    }
  }

  /** Whatever the schedule and whoever dies, a run is no longer than the work there
      was, and if no live process can go on every client of the live ones has
      returned: none holds its mutex for ever, or waits for one who does. */
  lemma EveryCallEnds(run: seq<World>)
    requires IsRun(run)
    ensures |run| <= TotalWork(run[0].procs) + 1
    ensures Halted(run[|run| - 1]) ==> AllReturned(run[|run| - 1])
  {
    RunWorks(run, |run| - 1);
    RunKeeps(run, |run| - 1);
    if !AllReturned(run[|run| - 1]) {
      SomeoneCanStep(run[|run| - 1]);
    }
  }

  // ---- the object itself --------------------------------------------------------

  /** The lock path. */
  class LockPath {
    var content: LockFile
    constructor (content: LockFile)
      ensures this.content == content
    {
      this.content := content;
    }
  }

  ghost predicate Lives(w: World, alive: set<nat>) {
    forall p: nat :: p in alive <==> Alive(w, p)
  }

  /** The lock object of one process. Its methods are the steps above, as seen
      from the lock path: `w` is the world they are taken in. */
  class FileLock {
    const path: LockPath
    const pid: nat
    var held: bool

    constructor (path: LockPath, pid: nat)
      ensures this.path == path && this.pid == pid && !held
    {
      this.path, this.pid, held := path, pid, false;
    }

    /** The lookup in `acquire`, given which processes are alive. */
    method CheckAndClear(alive: set<nat>, ghost w: World, ghost c: nat) returns (ok: bool)
      requires w.file == path.content && Lives(w, alive) && CanCheck(w, pid, c)
      modifies path
      ensures path.content == Check(w, pid, c).file
      ensures ok <==> CanCreate(Check(w, pid, c), pid)
    {
      if path.content != Absent {
        if path.content.Owned? && path.content.pid in alive {
          return false;
        }
        path.content := Absent;
      }
      return true;
    }

    /** The exclusive create. */
    method CreateExclusive(ghost w: World) returns (ok: bool)
      requires w.file == path.content && CanCreate(w, pid)
      modifies this, path
      ensures path.content == Create(w, pid).file
      ensures ok <==> Create(w, pid).procs[pid].phase == Held
      ensures held == if ok then true else old(held)
    {
      if path.content != Absent {
        return false;
      }
      path.content := Owned(pid);
      held := true;
      return true;
    }

    /** Both steps with nothing in between. */
    method Acquire(alive: set<nat>, ghost w: World, ghost c: nat) returns (ok: bool)
      requires w.file == path.content && Lives(w, alive) && CanCheck(w, pid, c)
      modifies this, path
      ensures ok <==> !LiveOwner(w)
      ensures path.content == if ok then Owned(pid) else w.file
      ensures held == if ok then true else old(held)
    {
      ok := CheckAndClear(alive, w, c);
      if ok {
        ok := CreateExclusive(Check(w, pid, c));
      }
    }

    method Release(ghost w: World)
      requires w.file == path.content && Alive(w, pid) && (held <==> w.procs[pid].phase == Held)
      modifies this, path
      ensures !held
      ensures path.content == if CanRelease(w, pid) then Freed(w, pid).file else w.file
    {
      if !held {
        return;
      }
      if path.content == Owned(pid) {
        path.content := Absent;
      }
      held := false;
    }
  }
}
