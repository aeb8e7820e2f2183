/** The request table between `indexAll` and its parse worker: requests wait
    for a result, a timeout, or the end of the worker, whichever is first. */
module ParseRequests {
  import opened Wrappers

  const WORKER_RECYCLE_INTERVAL: nat := 250

  datatype Outcome = Resolved | TimedOut | WorkerError | WorkerExit | ShutDown

  /** What can happen, in any order and any number. Workers are numbered as
      spawned; messages and exits may come from workers long replaced. */
  datatype Event =
    | Issue                             // `requestParse`: the next id is taken
    | Result(id: nat)                   // a parse result arrives
    | Timeout(id: nat)                  // the timer of a request fires
    | Error(worker: nat)                // a worker reports an error
    | Exit(worker: nat, code: int)      // a worker ends
    | Recycle                           // `recycleWorker` before a retry
    | Shutdown                          // the end of `indexAll`

  // ---- what should happen to a request ------------------------------------------

  /** How many requests the events issue; their ids count up from 0. */
  function Issued(events: seq<Event>): nat {
    if events == [] then 0
    else Issued(events[..|events| - 1]) + if events[|events| - 1].Issue? then 1 else 0
  }

  /** How an event settles a request that is still open. */
  function Settles(e: Event, id: nat): Option<Outcome> {
    match e
    case Result(i) => if i == id then Some(Resolved) else None
    case Timeout(i) => if i == id then Some(TimedOut) else None
    case Error(_) => Some(WorkerError)
    case Exit(_, code) => if code != 0 then Some(WorkerExit) else None
    case Shutdown => Some(ShutDown)
    case _ => None
  }

  /** The fate of a request: the first event after its issue that settles it.
      Everything later about it is late and has no effect. */
  function Fate(events: seq<Event>, id: nat): Option<Outcome> {
    if events == [] then None
    else
      var before, e := events[..|events| - 1], events[|events| - 1];
      if Fate(before, id).Some? then Fate(before, id)
      else if id < Issued(before) then Settles(e, id)
      else None
  }

  lemma {:induction false} OnlyIssuedHaveFates(events: seq<Event>, id: nat)
    ensures Fate(events, id).Some? ==> id < Issued(events)
  {
    if events != [] {
      OnlyIssuedHaveFates(events[..|events| - 1], id);
    }
  }

  /** The request is waiting: issued and not settled. */
  predicate Open(events: seq<Event>, id: nat) {
    id < Issued(events) && Fate(events, id).None?
  }

  // ---- which worker a request is sent to ---------------------------------------------

  /** The worker in use, how many requests it was sent, and how many workers have
      been spawned. */
  datatype Workers = Workers(current: Option<nat>, count: nat, spawned: nat)

  function WorkersNext(events: seq<Event>, w: Workers, e: Event): Workers {
    match e
    case Issue =>
      var current := if w.count >= WORKER_RECYCLE_INTERVAL then None else w.current;
      var count := if w.count >= WORKER_RECYCLE_INTERVAL then 0 else w.count;
      if current.None? then Workers(Some(w.spawned), count + 1, w.spawned + 1)
      else Workers(current, count + 1, w.spawned)
    case Timeout(id) => if Open(events, id) then Workers(None, 0, w.spawned) else w
    case Exit(worker, _) => if w.current == Some(worker) then Workers(None, 0, w.spawned) else w
    case Recycle => if w.current.None? then w else Workers(None, 0, w.spawned)
    case _ => w
  }

  function WorkersAfter(events: seq<Event>): Workers {
    if events == [] then Workers(None, 0, 0)
    else
      var before := events[..|events| - 1];
      WorkersNext(before, WorkersAfter(before), events[|events| - 1])
  }

  /** The worker a request was posted to. */
  function SentTo(events: seq<Event>, id: nat): Option<nat> {
    if events == [] then None
    else
      var before := events[..|events| - 1];
      if events[|events| - 1].Issue? && Issued(before) == id then WorkersAfter(events).current else SentTo(before, id)
  }

  datatype Settlement = Settlement(id: nat, outcome: Outcome)

  /** The promises settled so far: each at most once, each with its fate, and
      none with a fate forgotten. */
  ghost predicate Settled(log: seq<Settlement>, events: seq<Event>) {
    && (forall i, j :: 0 <= i < j < |log| ==> log[i].id != log[j].id)
    && (forall s :: s in log ==> Fate(events, s.id) == Some(s.outcome))
    && (forall id: nat :: Fate(events, id).Some? ==> Settlement(id, Fate(events, id).value) in log)
  }

  // ---- the table --------------------------------------------------------------------

  class RequestTable {
    var nextId: nat
    var pending: set<nat>           // ids with a promise to settle
    var armed: set<nat>             // ids whose timer is running
    var parseWorker: Option<nat>
    var workerParseCount: nat
    var spawned: nat
    var log: seq<Settlement>        // the promises resolved or rejected
    ghost var posted: map<nat, nat> // requests sent to each worker

    constructor ()
      ensures Valid([])
    {
      nextId, pending, armed, log := 0, {}, {}, [];
      parseWorker, workerParseCount, spawned, posted := None, 0, 0, map[];
    }

    ghost predicate Valid(events: seq<Event>) reads this {
      && nextId == Issued(events)
      && (forall id: nat :: id in pending <==> id < nextId && Fate(events, id).None?)
      && armed == pending
      && Settled(log, events)
      && WorkersOk()
      && Workers(parseWorker, workerParseCount, spawned) == WorkersAfter(events)
    }

    /** No worker is sent more than its share. */
    ghost predicate WorkersOk()
      reads this`parseWorker, this`workerParseCount, this`spawned, this`posted
    {
      && workerParseCount <= WORKER_RECYCLE_INTERVAL
      && (forall w :: w in posted ==> w < spawned && posted[w] <= WORKER_RECYCLE_INTERVAL)
      && (parseWorker.None? ==> workerParseCount == 0)
      && (parseWorker.Some? ==>
            parseWorker.value < spawned &&
            workerParseCount == if parseWorker.value in posted then posted[parseWorker.value] else 0)
    }

    /** Settle one open request and stop its timer. */
    method Settle(id: nat, outcome: Outcome)
      requires id in pending
      modifies this`pending, this`armed, this`log
      ensures pending == old(pending) - {id} && armed == old(armed) - {id}
      ensures log == old(log) + [Settlement(id, outcome)]
    {
      armed := armed - {id};
      pending := pending - {id};
      log := log + [Settlement(id, outcome)];
    }

    /** `rejectAllPending`. */
    method RejectAllPending(outcome: Outcome)
      requires armed == pending
      requires forall i, j :: 0 <= i < j < |log| ==> log[i].id != log[j].id
      requires forall s :: s in log ==> s.id !in pending
      modifies this`pending, this`armed, this`log
      ensures pending == {} && armed == {}
      ensures forall i, j :: 0 <= i < j < |log| ==> log[i].id != log[j].id
      ensures forall s :: s in log <==> s in old(log) || (s.id in old(pending) && s.outcome == outcome)
    {
      while pending != {}
        invariant pending <= old(pending) && armed == pending
        invariant forall i, j :: 0 <= i < j < |log| ==> log[i].id != log[j].id
        invariant forall s :: s in log ==> s.id !in pending
        invariant forall s :: s in log <==>
          s in old(log) || (s.id in old(pending) && s.id !in pending && s.outcome == outcome)
        decreases pending
      {
        var id :| id in pending;
        Settle(id, outcome);
      }
    }

    method RecycleWorker()
      requires WorkersOk()
      modifies this`parseWorker, this`workerParseCount
      ensures WorkersOk() && parseWorker == None && workerParseCount == 0
      ensures old(parseWorker).None? ==> workerParseCount == old(workerParseCount)
    {
      if parseWorker == None {
        return;
      }
      parseWorker, workerParseCount := None, 0;
    }

    /** Recycle a worn worker, and spawn one if there is none. */
    method EnsureWorker()
      requires WorkersOk()
      modifies this`parseWorker, this`workerParseCount, this`spawned
      ensures WorkersOk() && parseWorker.Some? && workerParseCount < WORKER_RECYCLE_INTERVAL
      ensures forall events ::
        Workers(parseWorker, workerParseCount + 1, spawned) ==
        WorkersNext(events, Workers(old(parseWorker), old(workerParseCount), old(spawned)), Issue)
    {
      if workerParseCount >= WORKER_RECYCLE_INTERVAL {
        RecycleWorker();
      }
      if parseWorker == None {
        parseWorker := Some(spawned);
        spawned := spawned + 1;
      }
    }

    /** `requestParse`, up to posting the request. */
    method RequestParse(ghost events: seq<Event>) returns (id: nat)
      requires Valid(events)
      modifies this
      ensures Valid(events + [Issue]) && id == old(nextId) && id in pending
    {
      EnsureWorker();
      id := nextId;
      Next(events, Issue);
      OnlyIssuedHaveFates(events, id);
      hide Fate;
      nextId := nextId + 1;
      workerParseCount := workerParseCount + 1;
      armed := armed + {id};
      pending := pending + {id};
      posted := posted[parseWorker.value := workerParseCount];
    }

    method OnResult(id: nat, ghost events: seq<Event>)
      requires Valid(events)
      modifies this`pending, this`armed, this`log
      ensures Valid(events + [Result(id)])
    {
      Next(events, Result(id));
      OpenOnly(events);
      if id in pending {
        Settle(id, Resolved);
      }
    }

    /** The timer's callback; a timer that was cleared does not fire. */
    method OnTimeout(id: nat, ghost events: seq<Event>)
      requires Valid(events)
      modifies this
      ensures Valid(events + [Timeout(id)])
    {
      Next(events, Timeout(id));
      OpenOnly(events);
      if id in armed {
        parseWorker, workerParseCount := None, 0;
        Settle(id, TimedOut);
      }
    }

    method OnError(worker: nat, ghost events: seq<Event>)
      requires Valid(events)
      modifies this`pending, this`armed, this`log
      ensures Valid(events + [Error(worker)])
    {
      Next(events, Error(worker));
      OpenOnly(events);
      RejectAllPending(WorkerError);
    }

    /** A failing exit, even of a worker already replaced, rejects everything. */
    method OnExit(worker: nat, code: int, ghost events: seq<Event>)
      requires Valid(events)
      modifies this
      ensures Valid(events + [Exit(worker, code)])
    {
      Next(events, Exit(worker, code));
      OpenOnly(events);
      if code != 0 && pending != {} {
        RejectAllPending(WorkerExit);
      }
      if parseWorker == Some(worker) {
        parseWorker, workerParseCount := None, 0;
      }
    }

    method OnShutdown(ghost events: seq<Event>)
      requires Valid(events)
      modifies this`pending, this`armed, this`log
      ensures Valid(events + [Shutdown]) && pending == {} && armed == {}
    {
      Next(events, Shutdown);
      OpenOnly(events);
      RejectAllPending(ShutDown);
    }

    method OnRecycle(ghost events: seq<Event>)
      requires Valid(events)
      modifies this
      ensures Valid(events + [Recycle])
    {
      Next(events, Recycle);
      RecycleWorker();
    }

    lemma OpenOnly(events: seq<Event>)
      requires Valid(events)
      ensures forall s :: s in log ==> s.id !in pending
    {
    }

    lemma Next(events: seq<Event>, e: Event)
      ensures Issued(events + [e]) == Issued(events) + if e.Issue? then 1 else 0
      ensures forall id: nat ::
        (Fate(events + [e], id) ==
         if Fate(events, id).Some? then Fate(events, id)
         else if id < Issued(events) then Settles(e, id) else None)
      ensures WorkersAfter(events + [e]) == WorkersNext(events, WorkersAfter(events), e)
    {
      assert (events + [e])[..|events|] == events;
    }

    method Handle(e: Event, ghost events: seq<Event>)
      requires Valid(events)
      modifies this
      ensures Valid(events + [e])
      ensures e == Shutdown ==> pending == {} && armed == {}
    {
      match e
      case Issue => var id := RequestParse(events);
      case Result(id) => OnResult(id, events);
      case Timeout(id) => OnTimeout(id, events);
      case Error(w) => OnError(w, events);
      case Exit(w, code) => OnExit(w, code, events);
      case Recycle => OnRecycle(events);
      case Shutdown => OnShutdown(events);
    }
  }

  // ---- a replaced worker's exit ---------------------------------------------------------

  /** Each request is awaited before the next is issued or the worker recycled, as
      the loops of `indexAll` do. */
  ghost predicate Sequential(events: seq<Event>) {
    forall i :: 0 <= i < |events| && (events[i].Issue? || events[i].Recycle?) ==>
      forall id: nat :: !Open(events[..i], id)
  }

  /** A worker ends once. */
  ghost predicate ExitsOnce(events: seq<Event>) {
    forall i, j :: 0 <= i < j < |events| && events[i].Exit? && events[j].Exit? ==> events[i].worker != events[j].worker
  }

  ghost predicate Exited(events: seq<Event>, worker: nat) {
    exists i :: 0 <= i < |events| && events[i].Exit? && events[i].worker == worker
  }

  /** One more event. */
  lemma NextEvent(events: seq<Event>, e: Event)
    ensures Issued(events + [e]) == Issued(events) + if e.Issue? then 1 else 0
    ensures forall id: nat :: Open(events + [e], id) <==>
      (Open(events, id) && Settles(e, id).None?) || (e.Issue? && id == Issued(events))
    ensures WorkersAfter(events + [e]) == WorkersNext(events, WorkersAfter(events), e)
    ensures forall id: nat ::
      (SentTo(events + [e], id) ==
       if e.Issue? && Issued(events) == id then WorkersAfter(events + [e]).current else SentTo(events, id))
    ensures forall w :: Exited(events, w) ==> Exited(events + [e], w)
    ensures e.Exit? ==> Exited(events + [e], e.worker)
  {
    assert (events + [e])[..|events|] == events;
    OnlyIssuedHaveFates(events, Issued(events));
    forall w | Exited(events, w) ensures Exited(events + [e], w) {
      var i :| 0 <= i < |events| && events[i].Exit? && events[i].worker == w;
      assert (events + [e])[i] == events[i];
    }
    assert (events + [e])[|events|] == e;
  }

  /** With requests awaited one by one, an open request was sent to the worker in
      use, unless that one has ended since. */
  lemma {:induction false} OpenIsCurrent(events: seq<Event>)
    requires Sequential(events)
    ensures forall id: nat :: Open(events, id) ==>
      && id == Issued(events) - 1 && SentTo(events, id).Some?
      && (WorkersAfter(events).current == SentTo(events, id) ||
          (WorkersAfter(events).current.None? && Exited(events, SentTo(events, id).value)))
  {
    if events != [] {
      var before, e := events[..|events| - 1], events[|events| - 1];
      assert events == before + [e];
      assert Sequential(before) by { SequentialBefore(events); }
      OpenIsCurrent(before);
      NextEvent(before, e);
      hide Open, SentTo, WorkersAfter, Issued, Exited, Sequential;
      if e.Issue? || e.Recycle? {
        NothingOpen(before, e);
      }
    }
  }

  lemma SequentialBefore(events: seq<Event>)
    requires events != [] && Sequential(events)
    ensures Sequential(events[..|events| - 1])
  {
    hide Open;
    var before := events[..|events| - 1];
    assert forall i :: 0 <= i < |before| ==> before[..i] == events[..i];
  }

  lemma NothingOpen(before: seq<Event>, e: Event)
    requires Sequential(before + [e]) && (e.Issue? || e.Recycle?)
    ensures forall id: nat :: !Open(before, id)
  {
    var events := before + [e];
    assert events[|before|] == e && events[..|before|] == before;
  }

  /** A failing exit rejects a request that was sent to another worker exactly
      when the worker that ended is not the one in use: the test that the handler
      makes before it forgets the worker, but not before it rejects. */
  lemma ForeignRejectionIff(events: seq<Event>, worker: nat, code: int)
    requires Sequential(events) && ExitsOnce(events + [Exit(worker, code)])
    ensures
      (exists id: nat ::
         Open(events, id) && Settles(Exit(worker, code), id).Some? && SentTo(events, id) != Some(worker)) <==>
      (code != 0 && (exists id: nat :: Open(events, id)) && WorkersAfter(events).current != Some(worker))
  {
    OpenIsCurrent(events);
    hide Open, SentTo, WorkersAfter, Issued;
    forall i | 0 <= i < |events| && events[i].Exit? ensures events[i].worker != worker {
      assert (events + [Exit(worker, code)])[i] == events[i];
      assert (events + [Exit(worker, code)])[|events|] == Exit(worker, code);
    }
  }

  /** It happens after a recycle: worker 0 answers its request and is recycled, the
      next request goes to worker 1, and then worker 0 ends. */
  const AFTER_RECYCLE: seq<Event> := [Issue, Result(0), Recycle, Issue]

  lemma ReplacedWorkerRejects()
    ensures SentTo(AFTER_RECYCLE, 0) == Some(0) && SentTo(AFTER_RECYCLE, 1) == Some(1)
    ensures Fate(AFTER_RECYCLE + [Exit(0, 1)], 0) == Some(Resolved)
    ensures Fate(AFTER_RECYCLE + [Exit(0, 1)], 1) == Some(WorkerExit)
  {
    var e1: seq<Event> := [Issue];
    var e2, e3 := e1 + [Result(0)], e1 + [Result(0)] + [Recycle];
    assert [] + [Issue] == e1;
    NextEvent([], Issue);
    NextEvent(e1, Result(0));
    NextEvent(e2, Recycle);
    NextEvent(e3, Issue);
    assert e3 + [Issue] == AFTER_RECYCLE;
    assert e1[..0] == [] && e2[..1] == e1 && e3[..2] == e2 && AFTER_RECYCLE[..3] == e3;
    assert (AFTER_RECYCLE + [Exit(0, 1)])[..4] == AFTER_RECYCLE;
    assert Fate(e1, 0) == None && Fate(e2, 0) == Some(Resolved) && Fate(e3, 0) == Some(Resolved);
    assert Issued(e1) == 1 && Issued(e3) == 1 && Issued(AFTER_RECYCLE) == 2;
    OnlyIssuedHaveFates(AFTER_RECYCLE[..3], 1);
    assert Fate(AFTER_RECYCLE, 1) == None && Fate(AFTER_RECYCLE, 0) == Some(Resolved);
  }

  ghost predicate Mentions(log: seq<Settlement>, id: nat) {
    exists i :: 0 <= i < |log| && log[i].id == id
  }

  /** Every order of events, then the shutdown: the promises settled are one
      for each request issued, each with its fate; nothing stays pending. */
  method Run(events: seq<Event>) returns (issued: nat, open: set<nat>, log: seq<Settlement>)
    ensures issued == Issued(events) && open == {}
    ensures Settled(log, events + [Shutdown])
    ensures forall id: nat :: Mentions(log, id) <==> id < issued
    ensures |log| == issued
  {
    var t := new RequestTable();
    for i := 0 to |events|
      invariant fresh(t) && t.Valid(events[..i])
    {
      assert events[..i + 1] == events[..i] + [events[i]];
      t.Handle(events[i], events[..i]);
    }
    assert events[..|events|] == events;
    t.Handle(Shutdown, events);
    issued, open, log := t.nextId, t.pending, t.log;
    t.Next(events, Shutdown);
    forall id: nat ensures Mentions(log, id) <==> id < issued {
      if id < issued {
        assert id !in t.pending;
        assert Settlement(id, Fate(events + [Shutdown], id).value) in log;
      }
      if Mentions(log, id) {
        var i :| 0 <= i < |log| && log[i].id == id;
        assert log[i] in log;
        OnlyIssuedHaveFates(events + [Shutdown], id);
      }
    }
    Count(log, issued);
  }

  /** Distinct ids that are exactly those below `n` are `n` in number. */
  lemma {:induction false} Count(log: seq<Settlement>, n: nat)
    requires forall i, j :: 0 <= i < j < |log| ==> log[i].id != log[j].id
    requires forall id: nat :: Mentions(log, id) <==> id < n
    ensures |log| == n
    decreases n
  {
    if n > 0 {
      assert Mentions(log, n - 1);
      var i :| 0 <= i < |log| && log[i].id == n - 1;
      var rest := log[..i] + log[i + 1..];
      forall id: nat ensures Mentions(rest, id) <==> id < n - 1 {
        MentionsRest(log, i, id);
      }
      Count(rest, n - 1);
    } else if log != [] {
      assert Mentions(log, log[0].id);
    }
  }

  lemma MentionsRest(log: seq<Settlement>, i: nat, id: nat)
    requires i < |log|
    requires forall j, k :: 0 <= j < k < |log| ==> log[j].id != log[k].id
    ensures Mentions(log[..i] + log[i + 1..], id) <==> Mentions(log, id) && id != log[i].id
  {
    var rest := log[..i] + log[i + 1..];
    if Mentions(log, id) && id != log[i].id {
      var j :| 0 <= j < |log| && log[j].id == id;
      assert rest[if j < i then j else j - 1] == log[j];
    }
    if Mentions(rest, id) {
      var j :| 0 <= j < |rest| && rest[j].id == id;
      assert log[if j < i then j else j + 1] == rest[j];
    }
  }
}
