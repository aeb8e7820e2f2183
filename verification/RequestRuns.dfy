/** Runs of the request table read off the order of events: what settles each
    promise, and which workers get requests. */
module RequestRuns {
  import opened Wrappers
  import opened ParseRequests

  // ---- which event settles a promise ---------------------------------------------------

  /** The event at `p` is the issue of request `id`. */
  ghost predicate IssuedAt(events: seq<Event>, id: nat, p: nat) {
    p < |events| && events[p] == Issue && Issued(events[..p]) == id
  }

  /** These, and no others, end the wait for a request. */
  predicate CanEnd(e: Event, id: nat) {
    e == Result(id) || e == Timeout(id) || e.Error? || (e.Exit? && e.code != 0) || e == Shutdown
  }

  /** The event at `k` is the first after the issue of `id` that can end its wait. */
  ghost predicate Decides(events: seq<Event>, id: nat, k: nat) {
    && k < |events| && CanEnd(events[k], id)
    && exists p: nat :: p < k && IssuedAt(events, id, p) && forall j :: p < j < k ==> !CanEnd(events[j], id)
  }

  lemma {:induction false} IssuedBelow(events: seq<Event>, p: nat)
    requires p < |events| && events[p] == Issue
    ensures Issued(events[..p]) < Issued(events)
    decreases |events|
  {
    var n := |events| - 1;
    if p < n {
      assert events[..n][..p] == events[..p];
      IssuedBelow(events[..n], p);
    }
  }

  lemma {:induction false} IssuedSomewhere(events: seq<Event>, id: nat)
    requires id < Issued(events)
    ensures exists p: nat :: IssuedAt(events, id, p)
    decreases |events|
  {
    var n := |events| - 1;
    if id < Issued(events[..n]) {
      IssuedSomewhere(events[..n], id);
      var p: nat :| IssuedAt(events[..n], id, p);
      assert events[..n][..p] == events[..p];
      assert IssuedAt(events, id, p);
    } else {
      assert IssuedAt(events, id, n);
    }
  }

  /** A request is issued once. */
  lemma IssuedOnce(events: seq<Event>, id: nat, p: nat, q: nat)
    requires IssuedAt(events, id, p) && IssuedAt(events, id, q)
    ensures p == q
  {
    if p < q {
      assert events[..q][..p] == events[..p];
      IssuedBelow(events[..q], p);
    } else if q < p {
      assert events[..p][..q] == events[..q];
      IssuedBelow(events[..p], q);
    }
  }

  lemma DecidesBefore(events: seq<Event>, id: nat, n: nat, k: nat)
    requires k < n <= |events|
    ensures Decides(events[..n], id, k) <==> Decides(events, id, k)
  {
    assert forall p :: 0 <= p < n ==> events[..n][p] == events[p] && events[..n][..p] == events[..p];
    if Decides(events[..n], id, k) {
      var p: nat :| p < k && IssuedAt(events[..n], id, p) && forall j :: p < j < k ==> !CanEnd(events[..n][j], id);
      assert IssuedAt(events, id, p) && forall j :: p < j < k ==> !CanEnd(events[j], id);
    }
    if Decides(events, id, k) {
      var p: nat :| p < k && IssuedAt(events, id, p) && forall j :: p < j < k ==> !CanEnd(events[j], id);
      assert IssuedAt(events[..n], id, p) && forall j :: p < j < k ==> !CanEnd(events[..n][j], id);
    }
  }

  lemma DecidesOnce(events: seq<Event>, id: nat, k: nat, l: nat)
    requires Decides(events, id, k) && Decides(events, id, l)
    ensures k == l
  {
    var p: nat :| p < k && IssuedAt(events, id, p) && forall j :: p < j < k ==> !CanEnd(events[j], id);
    var q: nat :| q < l && IssuedAt(events, id, q) && forall j :: q < j < l ==> !CanEnd(events[j], id);
    IssuedOnce(events, id, p, q);
  }

  /** A request waits as long as nothing has decided. */
  lemma {:induction false} DecidedOrOpen(events: seq<Event>, id: nat, p: nat)
    requires IssuedAt(events, id, p) && forall k: nat :: !Decides(events, id, k)
    ensures forall j :: p < j < |events| ==> !CanEnd(events[j], id)
  {
    FirstEnd(events, id, p, p + 1);
  }

  lemma FirstEnd(events: seq<Event>, id: nat, p: nat, k: nat)
    requires IssuedAt(events, id, p) && p < k && forall l: nat :: !Decides(events, id, l)
    requires forall j :: p < j < k && j < |events| ==> !CanEnd(events[j], id)
    ensures forall j :: p < j < |events| ==> !CanEnd(events[j], id)
    decreases |events| - k
  {
    if k < |events| {
      assert !Decides(events, id, k);
      FirstEnd(events, id, p, k + 1);
    }
  }

  /** The fate of a request is what the event that decides it brings. */
  lemma {:induction false} FateDecided(events: seq<Event>, id: nat)
    ensures Fate(events, id).Some? ==> exists k: nat :: Decides(events, id, k)
    ensures forall k: nat :: Decides(events, id, k) ==>
      Settles(events[k], id).Some? && Fate(events, id) == Settles(events[k], id)
    decreases |events|
  {
    if events != [] {
      var n := |events| - 1;
      FateDecided(events[..n], id);
      if Fate(events[..n], id).Some? {
        var k: nat :| Decides(events[..n], id, k);
        DecidesBefore(events, id, n, k);
        forall l: nat | Decides(events, id, l) ensures l == k { DecidesOnce(events, id, k, l); }
      } else {
        assert events == events[..n] + [events[n]];
        FateNow(events[..n], events[n], id);
      }
    }
  }

  lemma FateNow(before: seq<Event>, e: Event, id: nat)
    requires Fate(before, id).None? && forall k: nat :: !Decides(before, id, k)
    ensures var events := before + [e];
      && (Fate(events, id).Some? ==> Decides(events, id, |before|))
      && forall k: nat :: Decides(events, id, k) ==>
           Settles(events[k], id).Some? && Fate(events, id) == Settles(events[k], id)
  {
    var n, events := |before|, before + [e];
    assert events[..n] == before;
    if id < Issued(before) {
      IssuedSomewhere(before, id);
      var p: nat :| IssuedAt(before, id, p);
      DecidedOrOpen(before, id, p);
      assert events[..p] == before[..p] && IssuedAt(events, id, p);
      assert forall j :: p < j < n ==> events[j] == before[j];
    }
    forall k: nat | Decides(events, id, k) ensures k == n && id < Issued(before) {
      if k < n {
        DecidesBefore(events, id, n, k);
      }
      var p: nat :| p < k && IssuedAt(events, id, p) && forall j :: p < j < k ==> !CanEnd(events[j], id);
      assert before[..p] == events[..p];
      IssuedBelow(before, p);
    }
  }

  /** Whatever happens in whatever order, each promise is settled by the first event
      that can, and as that event says: with the result that arrives for it, as timed
      out by its own timer, and as rejected by a worker's error, a failing exit or the
      end of the run. */
  method RunByEvents(events: seq<Event>) returns (log: seq<Settlement>)
    ensures var all := events + [Shutdown];
      && (forall id: nat :: Settlement(id, Resolved) in log <==>
            exists k: nat :: Decides(all, id, k) && all[k] == Result(id))
      && (forall id: nat :: Settlement(id, TimedOut) in log <==>
            exists k: nat :: Decides(all, id, k) && all[k] == Timeout(id))
      && (forall id: nat :: Settlement(id, WorkerError) in log <==>
            exists k: nat :: Decides(all, id, k) && all[k].Error?)
      && (forall id: nat :: Settlement(id, WorkerExit) in log <==>
            exists k: nat :: Decides(all, id, k) && all[k].Exit? && all[k].code != 0)
      && (forall id: nat :: Settlement(id, ShutDown) in log <==>
            exists k: nat :: Decides(all, id, k) && all[k] == Shutdown)
    ensures forall i, j :: 0 <= i < j < |log| ==> log[i].id != log[j].id
  {
    hide Decides, Fate;
    var issued, open;
    issued, open, log := Run(events);
    forall id: nat, o: Outcome { FateSettled(events + [Shutdown], log, id, o); }
  }

  lemma FateSettled(events: seq<Event>, log: seq<Settlement>, id: nat, o: Outcome)
    requires Settled(log, events)
    ensures Settlement(id, o) in log <==> exists k: nat :: Decides(events, id, k) && Brings(events[k], id, o)
  {
    hide Fate;
    FateDecided(events, id);
    if exists k: nat :: Decides(events, id, k) && Brings(events[k], id, o) {
      var k: nat :| Decides(events, id, k) && Brings(events[k], id, o);
      assert Fate(events, id) == Settles(events[k], id) == Some(o);
    }
    if Settlement(id, o) in log {
      assert Fate(events, id) == Some(o);
      var k: nat :| Decides(events, id, k);
    }
  }

  /** The event that goes with an outcome. */
  predicate Brings(e: Event, id: nat, o: Outcome) {
    match o
    case Resolved => e == Result(id)
    case TimedOut => e == Timeout(id)
    case WorkerError => e.Error?
    case WorkerExit => e.Exit? && e.code != 0
    case ShutDown => e == Shutdown
  }

  // ---- which worker gets a request ---------------------------------------------------------

  /** The requests sent to a worker so far. */
  ghost function Share(events: seq<Event>, w: nat): set<nat> {
    set id: nat | id < Issued(events) && SentTo(events, id) == Some(w)
  }

  /** The worker that got the latest request is taken out of use here: a request
      times out, it ends, or it is recycled. */
  ghost predicate RetiredAt(events: seq<Event>, i: nat, w: nat) {
    && i < |events| && Issued(events[..i]) > 0 && SentTo(events[..i], Issued(events[..i]) - 1) == Some(w)
    && match events[i]
       case Timeout(id) => Open(events[..i], id)
       case Exit(worker, _) => worker == w
       case Recycle => true
       case _ => false
  }

  /** What holds of the worker in use after any events. */
  ghost predicate InUse(events: seq<Event>) {
    var ws := WorkersAfter(events);
    && (forall id: nat :: id < Issued(events) ==> SentTo(events, id).Some? && SentTo(events, id).value < ws.spawned)
    && (forall w: nat :: |Share(events, w)| <= WORKER_RECYCLE_INTERVAL)
    && (ws.current.Some? ==>
          && ws.count == |Share(events, ws.current.value)| && Issued(events) > 0
          && SentTo(events, Issued(events) - 1) == ws.current)
    && (ws.current.None? ==> ws.count == 0)
  }

  lemma {:induction false} NotYetSent(events: seq<Event>, id: nat)
    requires id >= Issued(events)
    ensures SentTo(events, id) == None
  {
    if events != [] {
      NotYetSent(events[..|events| - 1], id);
    }
  }

  /** One more request goes to the worker that is then in use. */
  lemma ShareNext(events: seq<Event>, e: Event, w: nat)
    ensures Share(events + [e], w) ==
      Share(events, w) +
      if e.Issue? && WorkersAfter(events + [e]).current == Some(w) then {Issued(events)} else {}
    ensures Issued(events) !in Share(events, w)
  {
    NextEvent(events, e);
    NotYetSent(events, Issued(events));
    hide SentTo, WorkersAfter, Issued, Open;
  }

  lemma {:induction false} AlwaysInUse(events: seq<Event>)
    ensures InUse(events)
  {
    if events == [] {
      forall w: nat ensures Share([], w) == {} {
      }
    } else {
      var before, e := events[..|events| - 1], events[|events| - 1];
      assert events == before + [e];
      AlwaysInUse(before);
      NextEvent(before, e);
      hide SentTo, WorkersAfter, Issued, Open;
      forall w: nat { ShareNext(before, e, w); }
      InUseNext(before, e);
    }
  }

  lemma InUseNext(before: seq<Event>, e: Event)
    requires InUse(before)
    requires WorkersAfter(before + [e]) == WorkersNext(before, WorkersAfter(before), e)
    ensures InUse(before + [e])
  {
    NextEvent(before, e);
    hide SentTo, WorkersAfter, Issued, Open, Share;
    forall w: nat ensures |Share(before + [e], w)| <= WORKER_RECYCLE_INTERVAL {
      ShareNext(before, e, w);
      NewWorkerIdle(before, w);
    }
    var ws := WorkersAfter(before + [e]);
    if ws.current.Some? {
      ShareNext(before, e, ws.current.value);
      NewWorkerIdle(before, ws.current.value);
    }
  }

  /** A worker not spawned yet was sent nothing. */
  lemma NewWorkerIdle(events: seq<Event>, w: nat)
    requires InUse(events)
    ensures w >= WorkersAfter(events).spawned ==> Share(events, w) == {}
  {
    hide SentTo, WorkersAfter, Issued;
  }

  /** No worker is ever sent more than its share of requests. */
  lemma WorkerShare(events: seq<Event>, w: nat)
    ensures |Share(events, w)| <= WORKER_RECYCLE_INTERVAL
  {
    AlwaysInUse(events);
  }

  /** Once out of use a worker stays so. */
  lemma {:induction false} StaysRetired(events: seq<Event>, i: nat, w: nat)
    requires RetiredAt(events, i, w)
    ensures WorkersAfter(events).current != Some(w) && w < WorkersAfter(events).spawned
    decreases |events|
  {
    var n := |events| - 1;
    var before, e := events[..n], events[n];
    assert events == before + [e];
    AlwaysInUse(before);
    NextEvent(before, e);
    hide SentTo, WorkersAfter, Issued, Open;
    if i < n {
      assert before[..i] == events[..i];
      StaysRetired(before, i, w);
    }
  }

  /** A request never goes to a worker taken out of use before: after a time-out, an
      exit or a recycle the next request finds a fresh one. */
  lemma RetiredIsNotUsed(events: seq<Event>, i: nat, w: nat, id: nat, p: nat)
    requires RetiredAt(events, i, w) && IssuedAt(events, id, p) && i < p
    ensures SentTo(events, id) != Some(w)
  {
    var sent := events[..p + 1];
    assert sent[..i] == events[..i] && sent[..p] == events[..p];
    StaysRetired(sent, i, w);
    assert SentTo(sent, id) == WorkersAfter(sent).current;
    SentStays(events, p + 1, id);
  }

  lemma {:induction false} SentStays(events: seq<Event>, n: nat, id: nat)
    requires n <= |events| && id < Issued(events[..n])
    ensures SentTo(events, id) == SentTo(events[..n], id)
    decreases |events|
  {
    if n == |events| {
      assert events[..n] == events;
    } else {
      var before := events[..|events| - 1];
      assert before[..n] == events[..n];
      SentStays(before, n, id);
      IssuedMore(before, n);
    }
  }

  lemma {:induction false} IssuedMore(events: seq<Event>, n: nat)
    requires n <= |events|
    ensures Issued(events[..n]) <= Issued(events)
    decreases |events|
  {
    if n == |events| {
      assert events[..n] == events;
    } else {
      var before := events[..|events| - 1];
      assert before[..n] == events[..n];
      IssuedMore(before, n);
    }
  }

  /** As long as it is in use, and has had less than its share, a worker gets the
      next request as well. */
  lemma {:induction false} KeepsItsWorker(events: seq<Event>, w: nat, p: nat)
    requires p < |events| && events[p] == Issue && WorkersAfter(events[..p + 1]).current == Some(w)
    requires forall i :: p < i < |events| ==> !events[i].Issue? && !RetiredAt(events, i, w)
    ensures SentTo(events + [Issue], Issued(events)) == Some(w) <==> |Share(events, w)| < WORKER_RECYCLE_INTERVAL
  {
    StillInUse(events, w, p, |events|);
    assert events[..|events|] == events;
    AlwaysInUse(events);
    NextEvent(events, Issue);
    hide SentTo, WorkersAfter, Issued, Open;
  }

  lemma {:induction false} StillInUse(events: seq<Event>, w: nat, p: nat, n: nat)
    requires p < n <= |events| && events[p] == Issue && WorkersAfter(events[..p + 1]).current == Some(w)
    requires forall i :: p < i < |events| ==> !events[i].Issue? && !RetiredAt(events, i, w)
    ensures WorkersAfter(events[..n]).current == Some(w)
    decreases n
  {
    if n > p + 1 {
      StillInUse(events, w, p, n - 1);
      var before := events[..n - 1];
      assert events[..n] == before + [events[n - 1]];
      AlwaysInUse(before);
      NextEvent(before, events[n - 1]);
      assert !RetiredAt(events, n - 1, w);
      hide SentTo, WorkersAfter, Issued, Open;
    }
  }
}
