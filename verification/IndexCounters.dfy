/** The three counters of `indexAll`: through the main loop and both retry
    passes they always add up to the files handled. */
module IndexCounters {
  import opened Wrappers

  datatype Severity = ErrorLevel | WarningLevel
  datatype Code = ReadError | SizeExceeded | ParseError | OtherCode

  /** An entry of the error list; `wasm` says that the message names a worker
      exit or a WASM memory error. */
  datatype Entry = Entry(file: nat, code: Code, wasm: bool, severity: Severity)

  /** What happens to one file in the main loop. */
  datatype Attempt =
    | Unreadable
    | Oversized
    | ParseFailed(wasm: bool)
    | Parsed(nodes: nat, errors: seq<Entry>, fileLevelOnly: bool)

  /** What happens to one file in a retry pass. */
  datatype Retry = StillUnreadable | FailedAgain | ParsedNow(nodes: nat, errors: nat)

  datatype Tally = Tally(indexed: int, skipped: int, errored: int, errors: seq<Entry>)

  predicate HasError(errors: seq<Entry>) {
    exists i :: 0 <= i < |errors| && errors[i].severity == ErrorLevel
  }

  /** The counters after one file of the main loop. */
  function CountOne(t: Tally, file: nat, a: Attempt): Tally {
    match a
    case Unreadable =>
      t.(errored := t.errored + 1, errors := t.errors + [Entry(file, ReadError, false, ErrorLevel)])
    case Oversized =>
      t.(skipped := t.skipped + 1, errors := t.errors + [Entry(file, SizeExceeded, false, WarningLevel)])
    case ParseFailed(wasm) =>
      t.(errored := t.errored + 1, errors := t.errors + [Entry(file, ParseError, wasm, ErrorLevel)])
    case Parsed(nodes, errors, fileLevelOnly) =>
      var u := t.(errors := t.errors + errors);
      if nodes > 0 then u.(indexed := u.indexed + 1)
      else if HasError(errors) then u.(errored := u.errored + 1)
      else if fileLevelOnly then u.(indexed := u.indexed + 1)
      else u.(skipped := u.skipped + 1)
  }

  function MainLoop(files: seq<Attempt>): Tally {
    if files == [] then Tally(0, 0, 0, [])
    else CountOne(MainLoop(files[..|files| - 1]), |files| - 1, files[|files| - 1])
  }

  predicate Retryable(e: Entry) {
    e.code == ParseError && e.wasm
  }

  function RetryableOf(errors: seq<Entry>): seq<Entry> {
    if errors == [] then []
    else
      RetryableOf(errors[..|errors| - 1]) +
      if Retryable(errors[|errors| - 1]) then [errors[|errors| - 1]] else []
  }

  predicate Recovers(r: Retry) {
    r.ParsedNow? && (r.nodes > 0 || r.errors == 0)
  }

  /** Remove the first occurrence of an entry, if any. */
  function Remove(errors: seq<Entry>, e: Entry): (r: seq<Entry>)
    ensures |r| == if e in errors then |errors| - 1 else |errors|
  {
    if errors == [] then []
    else if errors[0] == e then errors[1..]
    else
      assert e in errors <==> e in errors[1..];
      [errors[0]] + Remove(errors[1..], e)
  }

  /** How many of the first `n` retries recover their file. */
  function Recovered(retry: nat -> Retry, n: nat): nat {
    if n == 0 then 0 else Recovered(retry, n - 1) + if Recovers(retry(n - 1)) then 1 else 0
  }

  /** The entries whose retry, among the first `n`, makes the worker fail again. */
  function Failing(entries: seq<Entry>, retry: nat -> Retry, n: nat): seq<Entry>
    requires n <= |entries|
  {
    if n == 0 then []
    else Failing(entries, retry, n - 1) + if retry(n - 1).FailedAgain? then [entries[n - 1]] else []
  }

  /** No retry counts twice, as recovered and as failing. */
  lemma {:induction false} RecoveredOrFailing(entries: seq<Entry>, retry: nat -> Retry, n: nat)
    requires n <= |entries|
    ensures Recovered(retry, n) + |Failing(entries, retry, n)| <= n
    ensures (forall i :: 0 <= i < n ==> Recovers(retry(i))) <==> Recovered(retry, n) == n
  {
    if n > 0 {
      RecoveredOrFailing(entries, retry, n - 1);
    }
  }

  /** A retry pass over `entries`; `retry(i)` is the outcome of the i-th, and
      the pass breaks off at `stop` if the run is aborted. */
  method RetryPass(t: Tally, entries: seq<Entry>, retry: nat -> Retry, stop: nat)
      returns (t': Tally, stillFailing: seq<Entry>, recovered: nat)
    ensures t'.indexed == t.indexed + recovered && t'.errored == t.errored - recovered && t'.skipped == t.skipped
    ensures recovered == Recovered(retry, Min(stop, |entries|))
    ensures stillFailing == Failing(entries, retry, Min(stop, |entries|))
  {
    t', stillFailing, recovered := t, [], 0;
    for i := 0 to |entries|
      invariant i <= stop
      invariant t'.indexed == t.indexed + recovered && t'.errored == t.errored - recovered && t'.skipped == t.skipped
      invariant recovered == Recovered(retry, i) && stillFailing == Failing(entries, retry, i)
    {
      if i >= stop {
        break;
      }
      match retry(i) {
        case StillUnreadable =>
        case FailedAgain =>
          stillFailing := stillFailing + [entries[i]];
        case ParsedNow(nodes, errors) =>
          if nodes > 0 || errors == 0 {
            t' := t'.(errors := Remove(t'.errors, entries[i]), errored := t'.errored - 1, indexed := t'.indexed + 1);
            recovered := recovered + 1;
          }
      }
    }
  }

  /** The recoveries of both passes: the second retries what failed in the first. */
  function Recoveries(entries: seq<Entry>, retry1: nat -> Retry, stop1: nat, retry2: nat -> Retry, stop2: nat): nat {
    var n := Min(stop1, |entries|);
    Recovered(retry1, n) + Recovered(retry2, Min(stop2, |Failing(entries, retry1, n)|))
  }

  lemma RecoveriesBound(entries: seq<Entry>, retry1: nat -> Retry, stop1: nat, retry2: nat -> Retry, stop2: nat)
    ensures Recoveries(entries, retry1, stop1, retry2, stop2) <= |entries|
    ensures stop1 >= |entries| && (forall i :: 0 <= i < |entries| ==> Recovers(retry1(i))) ==>
      Recoveries(entries, retry1, stop1, retry2, stop2) == |entries|
  {
    var n := Min(stop1, |entries|);
    var failing := Failing(entries, retry1, n);
    RecoveredOrFailing(entries, retry1, n);
    RecoveredOrFailing(failing, retry2, Min(stop2, |failing|));
  }

  /** How many files the retries move from errored to indexed. */
  function Gained(
    files: seq<Attempt>, hasWorker: bool, retry1: nat -> Retry, stop1: nat, retry2: nat -> Retry, stop2: nat): nat
  {
    if hasWorker then Recoveries(RetryableOf(MainLoop(files).errors), retry1, stop1, retry2, stop2) else 0
  }

  /** The errored count that a full index reports. */
  function Errored(
    files: seq<Attempt>, hasWorker: bool, retry1: nat -> Retry, stop1: nat, retry2: nat -> Retry, stop2: nat): int
  {
    MainLoop(files).errored - Gained(files, hasWorker, retry1, stop1, retry2, stop2)
  }

  /** The main loop and the two retry passes on normal completion. Each file is
      counted once and only once; each recovery moves one from errored to
      indexed; and the errored count stays a count as long as the main loop
      counted at least as many files errored as it found entries to retry. */
  method IndexAll(
    files: seq<Attempt>, hasWorker: bool, retry1: nat -> Retry, stop1: nat, retry2: nat -> Retry, stop2: nat)
      returns (indexed: int, skipped: int, errored: int, recovered: nat)
    ensures indexed + skipped + errored == |files|
    ensures indexed == MainLoop(files).indexed + recovered && skipped == MainLoop(files).skipped
    ensures recovered == Gained(files, hasWorker, retry1, stop1, retry2, stop2)
    ensures errored == Errored(files, hasWorker, retry1, stop1, retry2, stop2)
    ensures |RetryableOf(MainLoop(files).errors)| <= MainLoop(files).errored ==> errored >= 0
    ensures CleanResults(files) ==> errored >= 0
  {
    var t := Tally(0, 0, 0, []);
    for i := 0 to |files|
      invariant t == MainLoop(files[..i]) && t.indexed + t.skipped + t.errored == i && t.errored >= 0
    {
      assert files[..i + 1][..i] == files[..i];
      t := CountOne(t, i, files[i]);
    }
    assert files[..|files|] == files;
    recovered := 0;
    var retryable := RetryableOf(t.errors);
    if |retryable| > 0 && hasWorker {
      var stillFailing;
      t, stillFailing, recovered := RetryPass(t, retryable, retry1, stop1);
      if |stillFailing| > 0 {
        var rest, more;
        t, rest, more := RetryPass(t, stillFailing, retry2, stop2);
        recovered := recovered + more;
      }
    }
    RecoveriesBound(retryable, retry1, stop1, retry2, stop2);
    if CleanResults(files) {
      ErroredCoversRetries(files);
    }
    return t.indexed, t.skipped, t.errored, recovered;
  }

  // ---- which files count as what ---------------------------------------------------------

  /** Unreadable, failed to parse, or parsed to nothing with an error. */
  predicate CountsErrored(a: Attempt) {
    a.Unreadable? || a.ParseFailed? || (a.Parsed? && a.nodes == 0 && HasError(a.errors))
  }

  /** Too big, or parsed to nothing without an error, where symbols were expected. */
  predicate CountsSkipped(a: Attempt) {
    a.Oversized? || (a.Parsed? && a.nodes == 0 && !HasError(a.errors) && !a.fileLevelOnly)
  }

  /** Parsed to symbols, or only to be tracked as a file. */
  predicate CountsIndexed(a: Attempt) {
    a.Parsed? && (a.nodes > 0 || (!HasError(a.errors) && a.fileLevelOnly))
  }

  function Those(files: seq<Attempt>, p: Attempt -> bool): set<nat> {
    set i: nat | i < |files| && p(files[i])
  }

  lemma ThoseNext(files: seq<Attempt>, a: Attempt, p: Attempt -> bool)
    ensures |Those(files + [a], p)| == |Those(files, p)| + if p(a) then 1 else 0
  {
    assert Those(files + [a], p) == Those(files, p) + if p(a) then {|files|} else {};
  }

  /** The main loop counts each file as what it is. */
  lemma {:induction false} CountedAsWhatTheyAre(files: seq<Attempt>)
    ensures MainLoop(files).errored == |Those(files, CountsErrored)|
    ensures MainLoop(files).skipped == |Those(files, CountsSkipped)|
    ensures MainLoop(files).indexed == |Those(files, CountsIndexed)|
  {
    if files != [] {
      var init, last := files[..|files| - 1], files[|files| - 1];
      assert files == init + [last];
      CountedAsWhatTheyAre(init);
      ThoseNext(init, last, CountsErrored);
      ThoseNext(init, last, CountsSkipped);
      ThoseNext(init, last, CountsIndexed);
      hide Those;
    }
  }

  /** The main loop lists what went wrong with each file, and what is to be retried
      are the parse errors for which the worker's memory was to blame. */
  lemma {:induction false} ErrorsListed(files: seq<Attempt>, i: nat)
    requires i < |files|
    ensures var errors := MainLoop(files).errors;
      match files[i]
      case Unreadable => Entry(i, ReadError, false, ErrorLevel) in errors
      case Oversized => Entry(i, SizeExceeded, false, WarningLevel) in errors
      case ParseFailed(wasm) => Entry(i, ParseError, wasm, ErrorLevel) in errors
      case Parsed(_, found, _) => forall e :: e in found ==> e in errors
    decreases |files|
  {
    var n := |files| - 1;
    if i < n {
      ErrorsListed(files[..n], i);
    }
  }

  lemma {:induction false} RetryableAre(errors: seq<Entry>)
    ensures forall e ::
      (multiset(RetryableOf(errors))[e] == if e.code == ParseError && e.wasm then multiset(errors)[e] else 0)
  {
    if errors != [] {
      var init, last := errors[..|errors| - 1], errors[|errors| - 1];
      assert errors == init + [last];
      RetryableAre(init);
    }
  }

  /** No extraction result itself carries an error of the retryable kind. */
  ghost predicate CleanResults(files: seq<Attempt>) {
    forall i :: 0 <= i < |files| && files[i].Parsed? ==> RetryableOf(files[i].errors) == []
  }

  lemma {:induction false} RetryableConcat(a: seq<Entry>, b: seq<Entry>)
    ensures RetryableOf(a + b) == RetryableOf(a) + RetryableOf(b)
  {
    if b == [] {
      assert a + b == a;
    } else {
      RetryableConcat(a, b[..|b| - 1]);
      assert (a + b)[..|a + b| - 1] == a + b[..|b| - 1];
    }
  }

  /** With clean results the files errored never number less than the entries
      to retry, so no run of retries can drive the counter below zero. */
  lemma {:induction false} ErroredCoversRetries(files: seq<Attempt>)
    requires CleanResults(files)
    ensures |RetryableOf(MainLoop(files).errors)| <= MainLoop(files).errored
  {
    if files != [] {
      var before, a := files[..|files| - 1], files[|files| - 1];
      ErroredCoversRetries(before);
      var t := MainLoop(before);
      match a
      case Unreadable => RetryableConcat(t.errors, [Entry(|before|, ReadError, false, ErrorLevel)]);
      case Oversized => RetryableConcat(t.errors, [Entry(|before|, SizeExceeded, false, WarningLevel)]);
      case ParseFailed(wasm) => RetryableConcat(t.errors, [Entry(|before|, ParseError, wasm, ErrorLevel)]);
      case Parsed(_, errors, _) => RetryableConcat(t.errors, errors);
    }
  }

  /** Some outcome of the retries makes a full index report a negative count of
      errored files exactly when it has a worker and the main loop left more
      entries to retry than files errored. */
  lemma NegativeIff(files: seq<Attempt>, hasWorker: bool)
    ensures
      (exists retry1: nat -> Retry, stop1, retry2: nat -> Retry, stop2 ::
         Errored(files, hasWorker, retry1, stop1, retry2, stop2) < 0) <==>
      (hasWorker && |RetryableOf(MainLoop(files).errors)| > MainLoop(files).errored)
  {
    var t := MainLoop(files);
    var retryable := RetryableOf(t.errors);
    var good: nat -> Retry := i => ParsedNow(1, 0);
    RecoveriesBound(retryable, good, |retryable|, good, 0);
    assert hasWorker ==> Errored(files, hasWorker, good, |retryable|, good, 0) == t.errored - |retryable|;
    forall retry1: nat -> Retry, stop1, retry2: nat -> Retry, stop2
      ensures Gained(files, hasWorker, retry1, stop1, retry2, stop2) <= if hasWorker then |retryable| else 0
    {
      RecoveriesBound(retryable, retry1, stop1, retry2, stop2);
    }
    CountNotNegative(files);
  }

  lemma {:induction false} CountNotNegative(files: seq<Attempt>)
    ensures MainLoop(files).errored >= 0
  {
    if files != [] {
      CountNotNegative(files[..|files| - 1]);
    }
  }

  /** One file, indexed with such an error in its result. */
  function IndexedWithError(): seq<Attempt> {
    [Parsed(1, [Entry(0, ParseError, true, ErrorLevel)], false)]
  }

  lemma IndexedFileCanBeRetried()
    ensures MainLoop(IndexedWithError()).indexed == 1 && MainLoop(IndexedWithError()).errored == 0
    ensures |RetryableOf(MainLoop(IndexedWithError()).errors)| == 1
  {
    var e := Entry(0, ParseError, true, ErrorLevel);
    var files := IndexedWithError();
    assert files[..0] == [];
    assert MainLoop(files).errors == [] + [e];
    assert ([] + [e])[..0] == [];
    assert RetryableOf([e]) == RetryableOf([]) + [e];
  }

  /** It is retried, the retry succeeds, and of one file two are reported indexed
      and minus one errored. */
  method CountBelowZero() returns (indexed: int, errored: int)
    ensures indexed == 2 && errored == -1
  {
    IndexedFileCanBeRetried();
    var retryable := RetryableOf(MainLoop(IndexedWithError()).errors);
    var good: nat -> Retry := i => ParsedNow(1, 0);
    RecoveriesBound(retryable, good, 1, good, 0);
    var skipped, recovered;
    indexed, skipped, errored, recovered := IndexAll(IndexedWithError(), true, good, 1, good, 0);
  }
}
