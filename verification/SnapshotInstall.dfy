/** `installSnapshotArtifacts`: replace the graph files of a project by those of
    a verified snapshot, or put the old ones back. Any file operation may throw,
    in which case it has done nothing. */
module SnapshotInstall {
  import opened Wrappers

  /** File names in the index directory: the database, its two sidecars, and
      everything else. */
  datatype Name = Database | Wal | Shm | Other(name: string)

  type Dir = map<Name, string>

  /** `knownGraphFileNames`. */
  const KNOWN: seq<Name> := [Database, Wal, Shm]
  const KNOWN_SET: set<Name> := {Database, Wal, Shm}

  datatype Manifest = Manifest(wal: bool, shm: bool)

  /** The artifacts the manifest lists, in the order they are moved. */
  function Listed(m: Manifest): seq<Name> {
    [Database] + (if m.wal then [Wal] else []) + (if m.shm then [Shm] else [])
  }

  function ListedSet(m: Manifest): set<Name> {
    {Database} + (if m.wal then {Wal} else {}) + (if m.shm then {Shm} else {})
  }

  /** What `afterInstall` leaves behind, and whether it returned normally. */
  datatype Aftermath = Aftermath(files: Dir, ok: bool)

  /** It may create, change or delete graph files, and nothing else. */
  ghost predicate OnlyGraphFiles(after: Dir -> Aftermath) {
    forall d: Dir :: after(d).files - KNOWN_SET == d - KNOWN_SET
  }

  datatype Outcome =
    | Installed       // returned normally
    | NotBegun        // no backup directory could be made
    | BackupFailed    // moving the old files away failed; cleaned up and restored
    | RolledBack      // a later step failed; cleaned up and restored
    | CleanupFailed   // removing the new files failed
    | RestoreFailed   // moving the old files back failed

  function Restrict(d: Dir, names: set<Name>): Dir {
    map n | n in d && n in names :: d[n]
  }

  ghost function FirstOf(names: seq<Name>, n: nat): set<Name>
    requires n <= |names|
  {
    set x | x in names[..n]
  }

  lemma FirstNext(names: seq<Name>, n: nat)
    requires n < |names|
    ensures FirstOf(names, n + 1) == FirstOf(names, n) + {names[n]} && FirstOf(names, 0) == {}
  {
    assert names[..n + 1] == names[..n] + [names[n]];
  }

  lemma FirstAll(names: seq<Name>)
    ensures FirstOf(names, |names|) == set x | x in names
    ensures FirstOf(names, 0) == {}
  {
    assert names[..|names|] == names;
  }

  lemma KnownAll()
    ensures FirstOf(KNOWN, |KNOWN|) == KNOWN_SET
  {
    FirstAll(KNOWN);
    assert KNOWN[0] == Database && KNOWN[1] == Wal && KNOWN[2] == Shm;
    assert forall n :: n in KNOWN <==> n in KNOWN_SET;
  }

  lemma ListedAll(m: Manifest)
    ensures FirstOf(Listed(m), |Listed(m)|) == ListedSet(m)
  {
    FirstAll(Listed(m));
    assert forall n :: n in Listed(m) <==> n in ListedSet(m);
  }

  lemma ListedOnce(m: Manifest, i: nat)
    requires i < |Listed(m)|
    ensures Listed(m)[i] in ListedSet(m) && Listed(m)[i] !in FirstOf(Listed(m), i)
  {
  }

  /** The graph files among the first `n` known names. */
  function Moved(d: Dir, n: nat): set<Name> {
    set i | 0 <= i < n && i < |KNOWN| && KNOWN[i] in d :: KNOWN[i]
  }

  lemma NothingMoved(d: Dir)
    ensures Moved(d, 0) == {} && Restrict(d, {}) == map[] && d - {} == d
  {
  }

  lemma AllMoved(d: Dir)
    ensures Moved(d, |KNOWN|) == KNOWN_SET * d.Keys
  {
    assert KNOWN[0] == Database && KNOWN[1] == Wal && KNOWN[2] == Shm;
  }

  lemma MovedAmong(d: Dir, n: nat)
    ensures Moved(d, n) <= KNOWN_SET * d.Keys
  {
  }

  lemma FewMoved(d: Dir, n: nat)
    ensures Moved(d, n) <= KNOWN_SET * d.Keys && |Moved(d, n)| <= |KNOWN_SET * d.Keys|
    ensures Moved(d, n) != KNOWN_SET * d.Keys ==> |Moved(d, n)| < |KNOWN_SET * d.Keys|
  {
    MovedAmong(d, n);
    SubsetSize(Moved(d, n), KNOWN_SET * d.Keys);
    if Moved(d, n) != KNOWN_SET * d.Keys {
      var x :| x in KNOWN_SET * d.Keys && x !in Moved(d, n);
      SubsetSize(Moved(d, n) + {x}, KNOWN_SET * d.Keys);
    }
  }

  lemma MovedNext(d: Dir, i: nat)
    requires i < |KNOWN|
    ensures KNOWN[i] !in Moved(d, i)
    ensures Moved(d, i + 1) == if KNOWN[i] in d then Moved(d, i) + {KNOWN[i]} else Moved(d, i)
  {
    assert KNOWN[0] == Database && KNOWN[1] == Wal && KNOWN[2] == Shm;
  }

  lemma RestrictNext(d: Dir, done: set<Name>, name: Name)
    requires name in d && name !in done
    ensures name in d - done && (d - done)[name] == d[name] && (d - done) - {name} == d - (done + {name})
    ensures Restrict(d, done)[name := d[name]] == Restrict(d, done + {name})
  {
  }

  /** Moving one more known file to the backup, if it is there. */
  lemma MoveNext(d: Dir, i: nat)
    requires i < |KNOWN|
    ensures var name, moved, next := KNOWN[i], Moved(d, i), Moved(d, i + 1);
      && (name in d <==> name in d - moved)
      && if name in d then
           && |next| == |moved| + 1 && moved != KNOWN_SET * d.Keys
           && (d - moved)[name] == d[name] && Restrict(d, moved)[name := d[name]] == Restrict(d, next)
           && (d - moved) - {name} == d - next
         else next == moved
  {
    MovedNext(d, i);
    FewMoved(d, i + 1);
    hide Moved, Restrict;
    if KNOWN[i] in d {
      RestrictNext(d, Moved(d, i), KNOWN[i]);
    }
  }

  /** Copying one more file of `source` over `base`. */
  lemma OverlayNext(base: Dir, source: Dir, done: set<Name>, name: Name)
    requires name in source
    ensures (base + Restrict(source, done))[name := source[name]] == base + Restrict(source, done + {name})
    ensures (source - done) - {name} == source - (done + {name})
  {
  }

  lemma OverlayNone(base: Dir, source: Dir)
    ensures base + Restrict(source, {}) == base && source - {} == source
  {
  }

  lemma OutsideKept(base: Dir, source: Dir, done: set<Name>)
    requires done <= KNOWN_SET
    ensures (base + Restrict(source, done)) - KNOWN_SET == base - KNOWN_SET
  {
  }

  class Disk {
    var target: Dir
    var backup: Dir
    var staging: Dir
    var clock: nat
    const fails: nat -> bool   // which operations throw

    constructor (target: Dir, staging: Dir, fails: nat -> bool)
      ensures this.target == target && this.staging == staging && this.backup == map[]
      ensures this.fails == fails && clock == 0
    {
      this.target, this.staging, this.backup, this.fails, this.clock := target, staging, map[], fails, 0;
    }

    /** No file operation ever throws. */
    ghost predicate Reliable() {
      forall n :: !fails(n)
    }

    /** Of the file operations still to come, none throws. */
    ghost predicate CleanFrom(n: nat) {
      forall k :: k >= n ==> !fails(k)
    }

    /** Only the operation `n` throws. */
    ghost predicate FailsOnlyAt(n: nat) {
      forall k :: fails(k) <==> k == n
    }

    /** None of the operations from `a` up to `b` throws. */
    ghost predicate Quiet(a: nat, b: nat) {
      forall k :: a <= k < b ==> !fails(k)
    }

    lemma QuietNext(a: nat, b: nat)
      ensures Quiet(a, a)
      ensures a <= b ==> (Quiet(a, b + 1) <==> Quiet(a, b) && !fails(b))
    {
    }

    lemma AllQuiet()
      requires Reliable()
      ensures (forall a, b :: Quiet(a, b)) && forall a :: CleanFrom(a)
    {
    }

    lemma FirstOperation()
      ensures forall n: nat :: FailsOnlyAt(n) ==> (fails(0) <==> n == 0)
      ensures Reliable() ==> !fails(0)
    {
    }

    /** What one throwing operation means for a stretch of them, and for the ones
        behind it. */
    lemma OnlyOne(n: nat, a: nat, b: nat)
      requires FailsOnlyAt(n)
      ensures Quiet(a, b) <==> !(a <= n < b)
      ensures n < b ==> CleanFrom(b)
    {
      assert fails(n);
    }

    method Attempt() returns (ok: bool)
      modifies this`clock
      ensures clock == old(clock) + 1 && (ok <==> !fails(old(clock)))
    {
      ok := !fails(clock);
      clock := clock + 1;
    }

    /** Move one known file to the backup, if it is there. */
    method MoveIfThere(name: Name) returns (ok: bool)
      modifies this`target, this`backup, this`clock
      ensures name !in old(target) ==> ok && target == old(target) && backup == old(backup) && clock == old(clock)
      ensures name in old(target) ==> clock == old(clock) + 1 && (ok <==> !fails(old(clock)))
      ensures name in old(target) ==>
        if ok then target == old(target) - {name} && backup == old(backup)[name := old(target)[name]]
        else target == old(target) && backup == old(backup)
    {
      ok := true;
      if name in target {
        ok := Attempt();  // renameSync
        if ok {
          backup := backup[name := target[name]];
          target := target - {name};
        }
      }
    }

    /** The first `i` known files have gone to the backup. */
    ghost predicate Midway(before: Dir, i: nat) reads this {
      target == before - Moved(before, i) && backup == Restrict(before, Moved(before, i))
    }

    /** The `i`th known file goes to the backup, or the operation throws. */
    method MoveOne(ghost before: Dir, i: nat) returns (ok: bool)
      requires i < |KNOWN| && Midway(before, i)
      modifies this`target, this`backup, this`clock
      ensures Midway(before, if ok then i + 1 else i)
      ensures ok ==> clock + |Moved(before, i)| == old(clock) + |Moved(before, i + 1)|
      ensures !ok ==> clock == old(clock) + 1 && Moved(before, i) != KNOWN_SET * before.Keys
      ensures ok <==> Quiet(old(clock), clock)
      ensures old(clock) <= clock
    {
      hide Moved, Restrict, Quiet;
      MoveNext(before, i);
      QuietNext(clock, clock);
      ok := MoveIfThere(KNOWN[i]);
    }

    lemma QuietSplit(a: nat, b: nat, c: nat)
      requires a <= b <= c
      ensures Quiet(a, c) <==> Quiet(a, b) && Quiet(b, c)
    {
    }

    /** `moveKnownGraphFiles(targetDir, backupDir)`. */
    method MoveKnown() returns (ok: bool, ghost moved: set<Name>)
      requires backup == map[]
      modifies this`target, this`backup, this`clock
      ensures moved <= KNOWN_SET * old(target).Keys
      ensures target == old(target) - moved && backup == Restrict(old(target), moved)
      ensures ok ==> moved == KNOWN_SET * old(target).Keys
      ensures !ok && moved == KNOWN_SET * old(target).Keys ==> moved == {}
      ensures ok ==> clock == old(clock) + 1 + |KNOWN_SET * old(target).Keys|
      ensures old(clock) <= clock <= old(clock) + 1 + |KNOWN_SET * old(target).Keys|
      ensures ok <==> Quiet(old(clock), clock)
    {
      hide Quiet, Moved, Restrict;
      ghost var before, start := target, clock;
      QuietNext(start, start);
      NothingMoved(before);
      moved := Moved(before, 0);
      ok := Attempt();  // mkdirSync
      if !ok {
        return;
      }
      for i := 0 to |KNOWN|
        invariant ok && Midway(before, i) && moved == Moved(before, i)
        invariant clock == start + 1 + |moved| && Quiet(start, clock)
      {
        FewMoved(before, i);
        ghost var now := clock;
        ok := MoveOne(before, i);
        QuietSplit(start, now, clock);
        if !ok {
          return;
        }
        moved := Moved(before, i + 1);
      }
      AllMoved(before);
    }

    /** `moveSnapshotArtifacts(stagingDir, targetDir, manifest)`. */
    method MoveArtifacts(m: Manifest) returns (ok: bool)
      modifies this`target, this`staging, this`clock
      ensures target - KNOWN_SET == old(target) - KNOWN_SET
      ensures ok ==> ListedSet(m) <= old(staging).Keys && target == old(target) + Restrict(old(staging), ListedSet(m))
      ensures ok ==> clock == old(clock) + |Listed(m)| && Quiet(old(clock), clock)
      ensures !ok && ListedSet(m) <= old(staging).Keys ==> !Quiet(old(clock), clock)
      ensures old(clock) <= clock <= old(clock) + |Listed(m)|
    {
      hide Quiet, Restrict, FirstOf, Listed, ListedSet;
      var names := Listed(m);
      ListedAll(m);
      ListedKnown(m);
      FirstAll(names);
      OverlayNone(target, staging);
      QuietNext(clock, clock);
      for i := 0 to |names|
        invariant FirstOf(names, i) <= KNOWN_SET && FirstOf(names, i) <= old(staging).Keys
        invariant target == old(target) + Restrict(old(staging), FirstOf(names, i))
        invariant staging == old(staging) - FirstOf(names, i)
        invariant clock == old(clock) + i && Quiet(old(clock), clock)
      {
        FirstNext(names, i);
        QuietNext(old(clock), clock);
        OutsideKept(old(target), old(staging), FirstOf(names, i));
        ListedOnce(m, i);
        ok := Attempt();  // renameSync
        if !ok || names[i] !in staging {
          return false;
        }
        OverlayNext(old(target), old(staging), FirstOf(names, i), names[i]);
        target := target[names[i] := staging[names[i]]];
        staging := staging - {names[i]};
      }
      OutsideKept(old(target), old(staging), FirstOf(names, |names|));
      ok := true;
    }

    /** `removeKnownGraphFiles(targetDir)`. */
    method RemoveKnown() returns (ok: bool)
      modifies this`target, this`clock
      ensures target - KNOWN_SET == old(target) - KNOWN_SET
      ensures ok ==> target == old(target) - KNOWN_SET
      ensures CleanFrom(old(clock)) ==> ok
      ensures clock >= old(clock)
    {
      hide FirstOf;
      ok := true;
      FirstAll(KNOWN);
      KnownAll();
      for i := 0 to |KNOWN|
        invariant FirstOf(KNOWN, i) <= KNOWN_SET
        invariant target == old(target) - FirstOf(KNOWN, i) && clock >= old(clock)
      {
        FirstNext(KNOWN, i);
        ok := Attempt();  // rmSync
        if !ok {
          return;
        }
        target := target - {KNOWN[i]};
      }
      ok := true;
    }

    /** `restoreKnownGraphFiles(backupDir, targetDir)`. */
    method RestoreKnown() returns (ok: bool)
      requires backup.Keys <= KNOWN_SET
      modifies this`target, this`backup, this`clock
      ensures target - KNOWN_SET == old(target) - KNOWN_SET
      ensures ok ==> target == old(target) + old(backup)
      ensures CleanFrom(old(clock)) ==> ok
    {
      hide FirstOf, Restrict;
      ok := true;
      FirstAll(KNOWN);
      KnownAll();
      OverlayNone(target, backup);
      for i := 0 to |KNOWN|
        invariant FirstOf(KNOWN, i) <= KNOWN_SET
        invariant backup == old(backup) - FirstOf(KNOWN, i)
        invariant target == old(target) + Restrict(old(backup), FirstOf(KNOWN, i)) && clock >= old(clock)
      {
        FirstNext(KNOWN, i);
        OutsideKept(old(target), old(backup), FirstOf(KNOWN, i));
        if KNOWN[i] in backup {
          ok := Attempt();  // renameSync
          if !ok {
            return;
          }
          OverlayNext(old(target), old(backup), FirstOf(KNOWN, i), KNOWN[i]);
          target := target[KNOWN[i] := backup[KNOWN[i]]];
          backup := backup - {KNOWN[i]};
        } else {
          InBackup(old(backup), FirstOf(KNOWN, i), KNOWN[i]);
        }
      }
      OutsideKept(old(target), old(backup), KNOWN_SET);
      RestrictAll(old(backup));
      ok := true;
    }
  }

  lemma ListedKnown(m: Manifest)
    ensures forall n :: n in Listed(m) ==> n in KNOWN_SET
    ensures FirstOf(Listed(m), |Listed(m)|) <= KNOWN_SET
  {
    ListedAll(m);
  }

  lemma RestrictAll(d: Dir)
    requires d.Keys <= KNOWN_SET
    ensures Restrict(d, KNOWN_SET) == d
  {
  }

  /** A file not left in the backup was done already, or never there. */
  lemma InBackup(d: Dir, done: set<Name>, name: Name)
    requires name !in d - done
    ensures Restrict(d, done) == Restrict(d, done + {name}) && d - done == d - (done + {name})
  {
  }

  /** The catch block: clean up and restore, `before` being the directory as
      it was and `moved` what reached the backup. */
  method RollBack(d: Disk, ghost before: Dir, ghost moved: set<Name>, backedUp: bool) returns (r: Outcome)
    requires moved <= KNOWN_SET * before.Keys && d.backup == Restrict(before, moved)
    requires d.target - KNOWN_SET == before - KNOWN_SET
    requires backedUp ==> moved == KNOWN_SET * before.Keys
    modifies d
    ensures d.target - KNOWN_SET == before - KNOWN_SET
    ensures r != Installed && r != NotBegun && (r == RolledBack ==> backedUp) && (r == BackupFailed ==> !backedUp)
    ensures d.CleanFrom(old(d.clock)) ==> r == if backedUp then RolledBack else BackupFailed
    ensures r == RolledBack || r == BackupFailed ==> d.target == before - (KNOWN_SET * before.Keys - moved)
  {
    Restored(before, moved);
    hide Restrict;
    var ok := d.RemoveKnown();
    if !ok {
      return CleanupFailed;
    }
    ok := d.RestoreKnown();
    if !ok {
      return RestoreFailed;
    }
    r := if backedUp then RolledBack else BackupFailed;
  }

  /** Making the two directories and moving the graph files that exist. */
  function BackupSteps(target: Dir): (n: nat)
    ensures n > 0
  {
    2 + |KNOWN_SET * target.Keys|
  }

  /** Nothing but graph files is missing, and some are, if there were any. */
  ghost predicate SomeLost(before: Dir, left: Dir) {
    exists lost: set<Name> ::
      && lost <= KNOWN_SET * before.Keys && left == before - lost
      && (lost == {} <==> KNOWN_SET * before.Keys == {})
  }

  /** What a single failure at operation `n` leads to. */
  ghost predicate AsFailing(r: Outcome, n: nat, backup: nat, m: Manifest, staging: Dir) {
    && (n == 0 ==> r == NotBegun)
    && (0 < n < backup ==> r == BackupFailed)
    && (backup <= n < backup + |Listed(m)| && ListedSet(m) <= staging.Keys ==> r == RolledBack)
  }

  /** Every listed artifact is staged, and `afterInstall` accepts the result. */
  predicate Succeeds(target: Dir, staging: Dir, m: Manifest, after: Dir -> Aftermath) {
    ListedSet(m) <= staging.Keys && after((target - KNOWN_SET) + Restrict(staging, ListedSet(m))).ok
  }

  /** What a single failure at operation `n` does to the try block, which starts
      with operation `start`; `clean` says that nothing throws behind it. */
  ghost predicate Interrupted(
    n: nat, start: nat, target: Dir, staging: Dir, m: Manifest, ok: bool, backedUp: bool, clean: bool)
  {
    var moves := start + 1 + |KNOWN_SET * target.Keys|;
    && (start <= n < moves ==> !ok && !backedUp && clean)
    && (moves <= n < moves + |Listed(m)| && ListedSet(m) <= staging.Keys ==> !ok && backedUp && clean)
  }

  /** The try block. */
  method TryInstall(d: Disk, m: Manifest, after: Dir -> Aftermath)
      returns (ok: bool, backedUp: bool, ghost moved: set<Name>)
    requires d.backup == map[] && OnlyGraphFiles(after)
    modifies d
    ensures moved <= KNOWN_SET * old(d.target).Keys && d.backup == Restrict(old(d.target), moved)
    ensures backedUp ==> moved == KNOWN_SET * old(d.target).Keys
    ensures !backedUp && moved == KNOWN_SET * old(d.target).Keys ==> moved == {}
    ensures d.target - KNOWN_SET == old(d.target) - KNOWN_SET
    ensures ok ==> backedUp && ListedSet(m) <= old(d.staging).Keys
    ensures ok ==>
      d.target == after((old(d.target) - KNOWN_SET) + Restrict(old(d.staging), ListedSet(m))).files
    ensures d.Reliable() ==> backedUp && (ok <==> Succeeds(old(d.target), old(d.staging), m, after))
    ensures forall n: nat :: d.FailsOnlyAt(n) ==>
      Interrupted(n, old(d.clock), old(d.target), old(d.staging), m, ok, backedUp, d.CleanFrom(d.clock))
  {
    hide d.Quiet, d.CleanFrom, d.FailsOnlyAt, d.Reliable, Restrict, ListedSet, Listed, Succeeds;
    ghost var before, staged, start := d.target, d.staging, d.clock;
    if d.Reliable() {
      d.AllQuiet();
    }
    ok, moved := d.MoveKnown();
    ghost var backupDone := d.clock;
    OutsideMoved(before, moved);
    backedUp := ok;
    if ok {
      ok := d.MoveArtifacts(m);
    }
    ghost var moveDone := d.clock;
    forall n: nat | d.FailsOnlyAt(n)
      ensures d.Quiet(start, backupDone) <==> !(start <= n < backupDone)
      ensures n < backupDone ==> d.CleanFrom(backupDone)
      ensures d.Quiet(backupDone, moveDone) <==> !(backupDone <= n < moveDone)
      ensures n < moveDone ==> d.CleanFrom(moveDone)
    {
      d.OnlyOne(n, start, backupDone);
      d.OnlyOne(n, backupDone, moveDone);
    }
    SucceedsIs(before, staged, m, after);
    if ok {
      var aftermath := after(d.target);
      assert aftermath.files - KNOWN_SET == d.target - KNOWN_SET;
      d.target := aftermath.files;
      ok := aftermath.ok;
    }
  }

  lemma SucceedsIs(target: Dir, staging: Dir, m: Manifest, after: Dir -> Aftermath)
    ensures Succeeds(target, staging, m, after) <==>
      ListedSet(m) <= staging.Keys && after((target - KNOWN_SET) + Restrict(staging, ListedSet(m))).ok
  {
  }

  /** `installSnapshotArtifacts`. */
  method Install(d: Disk, m: Manifest, after: Dir -> Aftermath) returns (r: Outcome)
    requires d.backup == map[] && d.clock == 0 && OnlyGraphFiles(after)
    modifies d
    // success: exactly the listed artifacts as `afterInstall` left them, no old sidecar
    ensures r == Installed ==> ListedSet(m) <= old(d.staging).Keys
    ensures r == Installed ==>
      d.target == after((old(d.target) - KNOWN_SET) + Restrict(old(d.staging), ListedSet(m))).files
    // with nothing thrown by the file system, only a missing artifact or
    // `afterInstall` itself can make the installation fail, and then it is undone
    ensures d.Reliable() ==> r == Installed || r == RolledBack
    ensures d.Reliable() ==> (r == Installed <==> Succeeds(old(d.target), old(d.staging), m, after))
    // with one operation throwing: nothing is begun, the backup fails, or the
    // installation is undone, by where in the sequence it is
    ensures forall n: nat :: d.FailsOnlyAt(n) ==> AsFailing(r, n, BackupSteps(old(d.target)), m, old(d.staging))
    // failure after a complete backup: as if nothing had happened
    ensures r == RolledBack || r == NotBegun ==> d.target == old(d.target)
    // failure of the backup itself: graph files that were not yet moved are lost,
    // and there are some unless there was no graph file at all
    ensures r == BackupFailed ==> SomeLost(old(d.target), d.target)
    // files that are not graph files are never touched, and no backup stays behind
    ensures d.target - KNOWN_SET == old(d.target) - KNOWN_SET && d.backup == map[]
  {
    hide d.Quiet, d.CleanFrom, d.FailsOnlyAt, d.Reliable, Restrict, ListedSet, Listed, BackupSteps, Succeeds,
      SomeLost, OnlyGraphFiles, AsFailing, Interrupted;
    if d.Reliable() {
      d.AllQuiet();
    }
    var ok := d.Attempt();  // mkdtempSync
    d.FirstOperation();
    if !ok {
      assert forall n: nat :: d.FailsOnlyAt(n) ==> n == 0;
      AtOnce(BackupSteps(d.target), m, d.staging);
      return NotBegun;
    }
    var backedUp;
    ghost var moved;
    ok, backedUp, moved := TryInstall(d, m, after);
    ghost var tried := d.clock;
    if ok {
      r := Installed;
    } else {
      r := RollBack(d, old(d.target), moved, backedUp);
      if r == RolledBack || r == BackupFailed {
        Lost(old(d.target), moved, d.target);
      }
    }
    d.backup := map[];  // rmSync of the backup directory
    forall n: nat | d.FailsOnlyAt(n) ensures AsFailing(r, n, BackupSteps(old(d.target)), m, old(d.staging)) {
      ByFailure(n, old(d.target), old(d.staging), m, ok, backedUp, d.CleanFrom(tried), r);
    }
  }

  lemma AtOnce(backup: nat, m: Manifest, staging: Dir)
    requires backup > 0
    ensures AsFailing(NotBegun, 0, backup, m, staging)
  {
  }

  lemma ByFailure(
    n: nat, target: Dir, staging: Dir, m: Manifest, ok: bool, backedUp: bool, clean: bool, r: Outcome)
    requires n > 0 && Interrupted(n, 1, target, staging, m, ok, backedUp, clean)
    requires !ok && clean ==> r == if backedUp then RolledBack else BackupFailed
    ensures AsFailing(r, n, BackupSteps(target), m, staging)
  {
  }

  /** What was not moved is what a roll-back cannot bring back. */
  lemma Lost(before: Dir, moved: set<Name>, left: Dir)
    requires moved <= KNOWN_SET * before.Keys && left == before - (KNOWN_SET * before.Keys - moved)
    ensures moved == KNOWN_SET * before.Keys ==> left == before
    ensures moved != KNOWN_SET * before.Keys || KNOWN_SET * before.Keys == {} ==> SomeLost(before, left)
  {
    var all := KNOWN_SET * before.Keys;
    var lost := all - moved;
    assert forall x :: x in all ==> x in lost || x in moved;
  }

  lemma OutsideMoved(before: Dir, moved: set<Name>)
    requires moved <= KNOWN_SET * before.Keys
    ensures (before - moved) - KNOWN_SET == before - KNOWN_SET
    ensures moved == KNOWN_SET * before.Keys ==> before - moved == before - KNOWN_SET
    ensures Restrict(before, moved).Keys <= KNOWN_SET
  {
  }

  /** Removing every graph file and putting the moved ones back. */
  lemma Restored(before: Dir, moved: set<Name>)
    requires moved <= KNOWN_SET * before.Keys
    ensures Restrict(before, moved).Keys <= KNOWN_SET
    ensures (before - KNOWN_SET) + Restrict(before, moved) == before - (KNOWN_SET * before.Keys - moved)
    ensures ((before - KNOWN_SET) + Restrict(before, moved)) - KNOWN_SET == before - KNOWN_SET
  {
  }

  // ---- a backup that fails midway ------------------------------------------------------

  /** The database and its log are there, and moving the second of them away
      throws: the clean-up deletes it, and nothing can bring it back. */
  method FileLost() returns (before: Dir, left: Dir)
    ensures before == map[Database := "pages", Wal := "log"]
    ensures left.Keys < before.Keys
  {
    before := map[Database := "pages", Wal := "log"];
    var d := new Disk(before, map[], n => n == 3);
    assert KNOWN_SET * before.Keys == {Database, Wal};
    assert d.FailsOnlyAt(3) && BackupSteps(before) == 4;
    hide d.Quiet, d.CleanFrom, d.FailsOnlyAt, Restrict, ListedSet, Listed, BackupSteps;
    var r := Install(d, Manifest(false, false), files => Aftermath(files, true));
    left := d.target;
  }
}
