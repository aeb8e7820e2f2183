/** The raw-content index: rows for source files, written when a file is
    stored, and rows for documentation-like files that are not source, mirrored
    from disk by `syncContentOnlyFiles`. */
module ContentIndex {
  import opened Wrappers
  import opened CodeGraph
  import opened Store
  import opened NodeCache
  import opened KeyOrder
  import opened Sync
  import opened Orchestrator
  import opened Layers
  import opened SourceSync
  import opened Records

  /** What the content half of sync reads: which scanned files hold text worth
      indexing, and their text where it is present, not too big and valid. */
  datatype Documents = Documents(scan: seq<Path>, isContentOnly: Path -> bool, texts: map<Path, string>)

  /** The content-only files of this scan: scanned, not source, of the kind. */
  function Current(docs: Documents, sources: seq<Path>): set<Path> {
    set f | f in docs.scan && f !in sources && docs.isContentOnly(f)
  }

  predicate IsSourceRow(db: Db, f: Path) { f in db.content && f in db.files }

  /** Paths of the rows that belong to no tracked file. */
  function NonSource(db: Db): set<Path> {
    db.content.Keys - db.files.Keys
  }

  /** Rows of source files whose text must not be searchable. */
  predicate Unsafe(db: Db, en: Engine, f: Path) {
    IsSourceRow(db, f) && !en.rawSafe(f, db.files[f].language)
  }

  function UnsafeRows(db: Db, en: Engine): set<Path> {
    set f | f in db.content && Unsafe(db, en, f)
  }

  lemma UnsafeIs(db: Db, en: Engine, f: Path)
    requires f in db.content.Keys * db.files.Keys
    ensures f in UnsafeRows(db, en) <==> !en.rawSafe(f, db.files[f].language)
  {
  }

  lemma UnsafeAmong(db: Db, en: Engine)
    ensures UnsafeRows(db, en) <= db.content.Keys * db.files.Keys
  {
  }

  /** `purgeUnsafeSourceContentRows`. */
  method PurgeUnsafe(q: QueryBuilder, en: Engine) returns (purged: nat)
    requires q.Valid()
    modifies q
    ensures q.Valid()
    ensures q.db == old(q.db).(content := old(q.db).content - UnsafeRows(old(q.db), en))
    ensures purged == |UnsafeRows(old(q.db), en)|
  {
    hide Distinct, Without, Sane, UnsafeRows;
    purged := 0;
    var rest := q.db.content.Keys * q.db.files.Keys;
    ghost var before, unsafe := q.db, UnsafeRows(q.db, en);
    UnsafeAmong(before, en);
    DropNone(before.content, unsafe, rest);
    while rest != {}
      invariant q.Valid() && rest <= before.content.Keys * before.files.Keys
      invariant q.db == before.(content := before.content - (unsafe - rest)) && purged == |unsafe - rest|
      decreases rest
    {
      var f :| f in rest;
      assert f in q.db.files && q.db.files == before.files;
      UnsafeIs(before, en, f);
      DropNext(before.content, unsafe, rest, f);
      rest := rest - {f};
      if !en.rawSafe(f, q.db.files[f].language) {
        q.DeleteFileContent(f);
        purged := purged + 1;
      }
    }
    assert unsafe - {} == unsafe;
  }

  lemma DropNone(m: map<Path, string>, a: set<Path>, rest: set<Path>)
    requires a <= rest
    ensures m - (a - rest) == m && |a - rest| == 0
  {
    assert a - rest == {};
  }

  /** Handling one more of the candidates `rest` for the removal of `a`. */
  lemma DropNext(m: map<Path, string>, a: set<Path>, rest: set<Path>, f: Path)
    requires f in rest
    ensures var dropped, next := a - rest, a - (rest - {f});
      if f in a then m - next == (m - dropped) - {f} && |next| == |dropped| + 1 else next == dropped
  {
    assert a - (rest - {f}) == (a - rest) + if f in a then {f} else {};
  }

  /** The index mirrors the documents: its non-source rows are the readable
      current ones with their current text. */
  ghost predicate Mirrors(db: Db, docs: Documents, sources: seq<Path>) {
    && (forall f :: f in NonSource(db) <==> f in Current(docs, sources) && f in docs.texts)
    && (forall f :: f in NonSource(db) ==> db.content[f] == docs.texts[f])
  }

  lemma LessRest(a: set<Path>, rest: set<Path>, f: Path)
    requires f in rest
    ensures a - (rest - {f}) == (a - rest) + if f in a then {f} else {}
  {
  }

  /** First loop of `syncContentOnlyFiles`: rows of files no longer current. */
  method DropStale(q: QueryBuilder, current: set<Path>) returns (removed: nat)
    requires q.Valid()
    modifies q
    ensures q.Valid()
    ensures q.db == old(q.db).(content := old(q.db).content - (NonSource(old(q.db)) - current))
    ensures removed == |NonSource(old(q.db)) - current|
  {
    hide Distinct, Without, Sane, NonSource;
    removed := 0;
    ghost var before, stale := q.db, NonSource(q.db) - current;
    var rest := NonSource(q.db);
    DropNone(before.content, stale, rest);
    while rest != {}
      invariant q.Valid() && rest <= NonSource(before)
      invariant q.db == before.(content := before.content - (stale - rest)) && removed == |stale - rest|
      decreases rest
    {
      var f :| f in rest;
      DropNext(before.content, stale, rest, f);
      rest := rest - {f};
      if f !in current {
        q.DeleteFileContent(f);
        removed := removed + 1;
      }
    }
    assert stale - {} == stale;
  }

  /** What the second loop leaves for a current file. */
  function Refreshed(
    content: map<Path, string>, existing: set<Path>, texts: map<Path, string>, f: Path): map<Path, string>
  {
    if f in texts then content[f := texts[f]]
    else if f in existing then content - {f}
    else content
  }

  /** One current file: `existing` holds the rows found before the loops. */
  method Refresh(q: QueryBuilder, existing: map<Path, string>, texts: map<Path, string>, f: Path)
      returns (added: nat, modified: nat, removed: nat)
    requires q.Valid() && (f in existing ==> f in q.db.content && q.db.content[f] == existing[f])
    modifies q
    ensures q.Valid()
    ensures q.db == old(q.db).(content := Refreshed(old(q.db).content, existing.Keys, texts, f))
    ensures added == if f in texts && f !in existing then 1 else 0
    ensures removed == if f !in texts && f in existing then 1 else 0
    ensures modified == if f in texts && f in existing && existing[f] != texts[f] then 1 else 0
  {
    hide Distinct, Without;
    added, modified, removed := 0, 0, 0;
    if f !in texts {
      if f in existing {
        q.DeleteFileContent(f);
        removed := 1;
      }
    } else if f !in existing {
      q.UpsertFileContent(f, texts[f]);
      added := 1;
    } else if Digest(existing[f]) != Digest(texts[f]) {
      q.UpsertFileContent(f, texts[f]);
      modified := 1;
    } else {
      assert q.db.content[f := texts[f]] == q.db.content;
    }
  }

  /** The rows once the files `done` of the current ones were refreshed. */
  ghost predicate Progress(
    db: Db, before: Db, current: set<Path>, texts: map<Path, string>, done: set<Path>)
  {
    && db == before.(content := db.content)
    && (forall f :: f in db.content <==>
          if f in done then f in texts || (f in before.content && f in before.files)
          else f in before.content && (f in before.files || f in current))
    && (forall f :: f in db.content ==>
          (f in done && f in texts && db.content[f] == texts[f]) ||
          (!(f in done && f in texts) && f in before.content && db.content[f] == before.content[f]))
  }

  lemma RefreshKeeps(
    db: Db, after: Db, before: Db, current: set<Path>, texts: map<Path, string>, done: set<Path>, f: Path)
    requires Progress(db, before, current, texts, done) && f in current && f !in done
    requires after == db.(content := Refreshed(db.content, NonSource(before), texts, f))
    ensures Progress(after, before, current, texts, done + {f})
  {
  }

  /** The current readable files that are tracked as source all the same. */
  function Clashing(db: Db, docs: Documents, sources: seq<Path>): set<Path> {
    Readable(docs, sources) * db.files.Keys
  }

  /** The current files that can be read. */
  function Readable(docs: Documents, sources: seq<Path>): set<Path> {
    Current(docs, sources) * docs.texts.Keys
  }

  /** The rows of current readable files that hold another text. */
  function Outdated(db: Db, docs: Documents, sources: seq<Path>): set<Path> {
    set f | f in NonSource(db) && f in Readable(docs, sources) && db.content[f] != docs.texts[f]
  }

  lemma NonSourceAfter(db: Db, before: Db, docs: Documents, sources: seq<Path>)
    requires Progress(db, before, Current(docs, sources), docs.texts, Current(docs, sources))
    ensures NonSource(db) == Readable(docs, sources) - before.files.Keys
    ensures forall f :: f in NonSource(db) ==> db.content[f] == docs.texts[f]
  {
    hide Current;
  }

  /** What the finished loops mean: the mirror is exact, its size balances the
      counts, and both fail exactly when a current file is tracked as source. */
  lemma Outcomes(db: Db, before: Db, docs: Documents, sources: seq<Path>)
    requires Progress(db, before, Current(docs, sources), docs.texts, Current(docs, sources))
    ensures Mirrors(db, docs, sources) <==> Clashing(before, docs, sources) == {}
    ensures |NonSource(db)| + |Clashing(before, docs, sources)| == |Readable(docs, sources)|
  {
    NonSourceAfter(db, before, docs, sources);
    hide Progress, Current, NonSource;
    var readable := Readable(docs, sources);
    SplitSize(readable, before.files.Keys);
    MirrorsAs(db, docs, sources);
  }

  /** Rows with the right text make a mirror when no readable file is missing. */
  lemma MirrorsAs(db: Db, docs: Documents, sources: seq<Path>)
    requires NonSource(db) <= Readable(docs, sources)
    requires forall f :: f in NonSource(db) ==> db.content[f] == docs.texts[f]
    ensures Mirrors(db, docs, sources) <==> NonSource(db) == Readable(docs, sources)
  {
    hide Current, NonSource;
    if Mirrors(db, docs, sources) {
      assert forall f :: f in NonSource(db) <==> f in Readable(docs, sources);
    }
  }

  lemma SplitSize(a: set<Path>, b: set<Path>)
    ensures |a - b| + |a * b| == |a|
    ensures a - b == a <==> a * b == {}
  {
    assert a == (a - b) + (a * b);
    assert a * b == {} ==> a - b == a;
  }

  lemma MirrorKept(db: Db, before: Db, docs: Documents, sources: seq<Path>)
    requires Progress(db, before, Current(docs, sources), docs.texts, Current(docs, sources))
    requires Mirrors(before, docs, sources) && Clashing(before, docs, sources) == {}
    ensures db == before
  {
    hide Current;
    forall f
      ensures f in db.content <==> f in before.content
      ensures f in db.content ==> db.content[f] == before.content[f]
    {
      assert f in before.content && f !in before.files ==> f in NonSource(before);
      assert f in Current(docs, sources) && f in docs.texts ==> f !in Clashing(before, docs, sources);
    }
    assert db.content == before.content;
  }

  lemma Balance(rows: set<Path>, readable: set<Path>)
    ensures |rows - readable| + |readable| == |rows| + |readable - rows|
  {
    SplitSize(rows, readable);
    SplitSize(readable, rows);
    assert rows * readable == readable * rows;
  }

  /** Second loop of `syncContentOnlyFiles`. */
  method RefreshAll(q: QueryBuilder, existing: map<Path, string>, texts: map<Path, string>, current: set<Path>,
                    ghost before: Db) returns (added: nat, modified: nat, removed: nat)
    requires q.Valid() && Progress(q.db, before, current, texts, {})
    requires existing == map f | f in NonSource(before) :: before.content[f]
    modifies q
    ensures q.Valid() && Progress(q.db, before, current, texts, current)
    ensures removed == Unread(existing.Keys, current, texts.Keys) && added == Unseen(existing.Keys, current, texts.Keys)
    ensures modified == Differing(existing, current, texts)
  {
    hide Distinct, Without, Sane, Progress, Refreshed, Unread, Unseen, Differing, NonSource;
    added, modified, removed := 0, 0, 0;
    assert existing.Keys == NonSource(before);
    NoneYet(existing.Keys, texts.Keys);
    NoneDiffering(existing, texts);
    var rest := current;
    ghost var done: set<Path> := {};
    while rest != {}
      invariant q.Valid() && rest <= current && done == current - rest
      invariant Progress(q.db, before, current, texts, done)
      invariant removed == Unread(existing.Keys, done, texts.Keys) && added == Unseen(existing.Keys, done, texts.Keys)
      invariant modified == Differing(existing, done, texts)
      decreases rest
    {
      var f :| f in rest;
      StillThere(q.db, before, current, texts, done, f);
      ghost var db := q.db;
      var a, m, r := Refresh(q, existing, texts, f);
      RefreshKeeps(db, q.db, before, current, texts, done, f);
      OneMore(existing.Keys, done, texts.Keys, f);
      OneMoreDiffering(existing, done, texts, f);
      LessRest(current, rest, f);
      added, modified, removed := added + a, modified + m, removed + r;
      rest, done := rest - {f}, done + {f};
    }
    assert done == current;
  }

  /** `syncContentOnlyFiles`. */
  method SyncContentOnly(q: QueryBuilder, docs: Documents, sources: seq<Path>)
      returns (added: nat, modified: nat, removed: nat)
    requires q.Valid()
    modifies q
    ensures q.Valid()
    ensures Progress(q.db, old(q.db), Current(docs, sources), docs.texts, Current(docs, sources))
    ensures Mirrors(q.db, docs, sources) <==> Clashing(old(q.db), docs, sources) == {}
    ensures added == |Readable(docs, sources) - NonSource(old(q.db))|
    ensures removed == |NonSource(old(q.db)) - Readable(docs, sources)|
    ensures modified == |Outdated(old(q.db), docs, sources)|
    ensures |NonSource(q.db)| + |Clashing(old(q.db), docs, sources)| + removed == |NonSource(old(q.db))| + added
    ensures Mirrors(old(q.db), docs, sources) && Clashing(old(q.db), docs, sources) == {} ==>
      q.db == old(q.db) && added == 0 && modified == 0 && removed == 0
  {
    hide Distinct, Without, Sane, Mirrors, Clashing, Current, Progress, Outdated, Unread, Unseen, Differing,
      Readable;
    var current := Current(docs, sources);
    ghost var before := q.db;
    var existing := map f | f in NonSource(q.db) :: q.db.content[f];
    assert existing.Keys == NonSource(before);
    var stale := DropStale(q, current);
    Started(q.db, before, current, docs.texts);
    added, modified, removed := RefreshAll(q, existing, docs.texts, current, before);
    removed := removed + stale;
    Outcomes(q.db, before, docs, sources);
    Counts(existing.Keys, docs, sources);
    DifferingIsOutdated(before, existing, docs, sources);
    Balance(existing.Keys, Readable(docs, sources));
    if Mirrors(before, docs, sources) && Clashing(before, docs, sources) == {} {
      NothingToDo(before, docs, sources);
      MirrorKept(q.db, before, docs, sources);
    }
  }

  /** What the counters of the two loops add up to. */
  lemma Counts(rows: set<Path>, docs: Documents, sources: seq<Path>)
    ensures var current, texts := Current(docs, sources), docs.texts.Keys;
      && |rows - current| + Unread(rows, current, texts) == |rows - Readable(docs, sources)|
      && Unseen(rows, current, texts) == |Readable(docs, sources) - rows|
  {
    hide Current;
    MinusBoth(rows, Current(docs, sources), docs.texts.Keys);
  }

  lemma DifferingIsOutdated(before: Db, existing: map<Path, string>, docs: Documents, sources: seq<Path>)
    requires existing == map f | f in NonSource(before) :: before.content[f]
    ensures Differing(existing, Current(docs, sources), docs.texts) == |Outdated(before, docs, sources)|
  {
    hide Current, NonSource;
    forall f ensures f in existing && f in Current(docs, sources) && f in docs.texts && existing[f] != docs.texts[f]
      <==> f in Outdated(before, docs, sources)
    {
    }
    assert (set f | f in existing && f in Current(docs, sources) && f in docs.texts && existing[f] != docs.texts[f])
      == Outdated(before, docs, sources);
  }

  lemma MinusBoth(a: set<Path>, b: set<Path>, c: set<Path>)
    ensures |a - b| + |(a * b) - c| == |a - b * c|
  {
    assert a - b * c == (a - b) + ((a * b) - c);
  }

  lemma Started(db: Db, before: Db, current: set<Path>, texts: map<Path, string>)
    requires db == before.(content := before.content - (NonSource(before) - current))
    ensures Progress(db, before, current, texts, {})
  {
  }

  /** Rows among `done` whose file can no longer be read. */
  ghost function Unread(rows: set<Path>, done: set<Path>, texts: set<Path>): nat {
    |(rows * done) - texts|
  }

  /** Readable files among `done` that had no row. */
  ghost function Unseen(rows: set<Path>, done: set<Path>, texts: set<Path>): nat {
    |(done * texts) - rows|
  }

  /** Files among `done` whose row and text differ. */
  ghost function Differing(existing: map<Path, string>, done: set<Path>, texts: map<Path, string>): nat {
    |set f | f in existing && f in done && f in texts && existing[f] != texts[f]|
  }

  lemma NoneDiffering(existing: map<Path, string>, texts: map<Path, string>)
    ensures Differing(existing, {}, texts) == 0
  {
  }

  lemma OneMoreDiffering(existing: map<Path, string>, done: set<Path>, texts: map<Path, string>, f: Path)
    requires f !in done
    ensures Differing(existing, done + {f}, texts) ==
      Differing(existing, done, texts) + if f in texts && f in existing && existing[f] != texts[f] then 1 else 0
  {
    var before := set x | x in existing && x in done && x in texts && existing[x] != texts[x];
    var after := set x | x in existing && x in done + {f} && x in texts && existing[x] != texts[x];
    if f in texts && f in existing && existing[f] != texts[f] {
      assert after == before + {f};
    } else {
      assert after == before;
    }
  }

  lemma NoneYet(rows: set<Path>, texts: set<Path>)
    ensures Unread(rows, {}, texts) == 0 && Unseen(rows, {}, texts) == 0
  {
  }

  lemma OneMore(rows: set<Path>, done: set<Path>, texts: set<Path>, f: Path)
    requires f !in done
    ensures Unread(rows, done + {f}, texts) == Unread(rows, done, texts) + if f in rows && f !in texts then 1 else 0
    ensures Unseen(rows, done + {f}, texts) == Unseen(rows, done, texts) + if f in texts && f !in rows then 1 else 0
  {
    if f in rows && f !in texts {
      assert (rows * (done + {f})) - texts == ((rows * done) - texts) + {f};
    } else {
      assert (rows * (done + {f})) - texts == (rows * done) - texts;
    }
    OneMoreAdded(rows, done, texts, f);
  }

  lemma OneMoreAdded(rows: set<Path>, done: set<Path>, texts: set<Path>, f: Path)
    requires f !in done
    ensures |((done + {f}) * texts) - rows| == |(done * texts) - rows| + if f in texts && f !in rows then 1 else 0
  {
    if f in texts && f !in rows {
      assert ((done + {f}) * texts) - rows == ((done * texts) - rows) + {f};
    } else {
      assert ((done + {f}) * texts) - rows == (done * texts) - rows;
    }
  }

  lemma StillThere(db: Db, before: Db, current: set<Path>, texts: map<Path, string>, done: set<Path>, f: Path)
    requires Progress(db, before, current, texts, done) && f in current && f !in done
    ensures f in NonSource(before) ==> f in db.content && db.content[f] == before.content[f]
  {
  }

  /** In a mirror there is nothing to drop, add or change. */
  lemma NothingToDo(db: Db, docs: Documents, sources: seq<Path>)
    requires Mirrors(db, docs, sources)
    ensures NonSource(db) == Readable(docs, sources) && Outdated(db, docs, sources) == {}
  {
    hide Current, NonSource;
    assert forall f :: f in NonSource(db) <==> f in Readable(docs, sources);
  }

  /** No source row may be searched that should not be. */
  ghost predicate AllSafe(db: Db, en: Engine) {
    forall f :: !Unsafe(db, en, f)
  }

  /** Nothing for a sync to do. */
  ghost predicate InSync(db: Db, en: Engine, disk: Disk, scan: seq<Path>, docs: Documents) {
    UpToDate(db.files, disk, scan) && AllSafe(db, en) && Mirrors(db, docs, scan)
  }

  /** Mirroring documents that are not tracked leaves source rows as they were. */
  lemma SourceRowsKept(db: Db, before: Db, en: Engine, docs: Documents, sources: seq<Path>)
    requires Progress(db, before, Current(docs, sources), docs.texts, Current(docs, sources))
    requires forall f :: f in before.files ==> f in sources
    requires AllSafe(before, en)
    ensures AllSafe(db, en) && Clashing(before, docs, sources) == {}
  {
    forall f ensures !Unsafe(db, en, f) {
      assert !Unsafe(before, en, f);
    }
  }

  lemma PurgedSafe(db: Db, before: Db, en: Engine)
    requires db == before.(content := before.content - UnsafeRows(before, en))
    ensures AllSafe(db, en)
    ensures AllSafe(before, en) ==> db == before
  {
    if AllSafe(before, en) {
      assert db.content == before.content;
    }
  }

  /** The whole of `sync`. Whatever it starts from, it ends with a mirror of the
      documents and no unsafe source row; on a workable disk the source files end
      up to date unless a change could not be seen, and a faithful graph ends
      faithful unless the contents do not go together; and a database already in
      sync is left exactly as it is. */
  method SyncAll(q: QueryBuilder, en: Engine, disk: Disk, scan: seq<Path>, docs: Documents)
      returns (added: nat, modified: nat, removed: nat, ghost sourced: Db)
    requires q.Valid()
    modifies q
    ensures q.Valid()
    ensures Mirrors(q.db, docs, scan) && AllSafe(q.db, en)
    // `sourced` is the database once the source files are reconciled
    ensures q.db == sourced.(content := q.db.content)
    ensures added == |Scanned(scan, IsAdded(old(q.db).files, disk))| + |Readable(docs, scan) - NonSource(sourced)|
    ensures modified ==
      |Scanned(scan, IsModified(old(q.db).files, disk))| + |UnsafeRows(sourced, en)| + |Outdated(sourced, docs, scan)|
    ensures removed == |GoneFiles(old(q.db).files, disk, scan)| + |NonSource(sourced) - Readable(docs, scan)|
    ensures Workable(old(q.db).files, en, disk, scan) ==>
      (UpToDate(q.db.files, disk, scan) <==> !BlindSpot(old(q.db).files, disk, scan))
    ensures Workable(old(q.db).files, en, disk, scan) && Faithful(old(q.db), en) ==>
      (Faithful(q.db, en) <==> Compatible(en, Recorded(q.db.files)))
    ensures Documented(old(q.db), en) ==> Documented(q.db, en)
    ensures OldOrMatching(old(q.db).files, q.db.files, en, disk, SetOfFiles(scan))
    ensures Workable(old(q.db).files, en, disk, scan) ==> Settled(q.db.files, disk, scan)
    ensures Settled(old(q.db).files, disk, scan) && AllSafe(old(q.db), en) && Mirrors(old(q.db), docs, scan) ==>
      q.db == old(q.db) && added + modified + removed == 0
    ensures InSync(old(q.db), en, disk, scan, docs) && disk.texts.Keys <= disk.stats.Keys ==>
      q.db == old(q.db) && added + modified + removed == 0
  {
    hide Distinct, Without, Sane, Faithful, Workable, BlindSpot, UpToDate, Mirrors, AllSafe, Progress, Compatible,
      Current, Clashing, Readable, Outdated, NonSource, UnsafeRows, Scanned, GoneFiles, Recorded, Rebuilt,
      Settled, RowsTracked, Documented, OldOrMatching;
    if UpToDate(q.db.files, disk, scan) && disk.texts.Keys <= disk.stats.Keys {
      UpToDateSettled(q.db.files, disk, scan);
    }
    added, modified, removed := SyncSources(q, en, disk, scan);
    sourced := q.db;
    var purged := PurgeUnsafe(q, en);
    ghost var safe := q.db;
    PurgedSafe(safe, sourced, en);
    PurgedRest(safe, sourced, en, docs, scan);
    var a, m, r := SyncContentOnly(q, docs, scan);
    SourceRowsKept(q.db, safe, en, docs, scan);
    if Documented(sourced, en) {
      NothingUnsafe(sourced, en);
      MirroredDocumented(q.db, sourced, en, docs, scan);
    }
    GraphKept(q.db, safe, docs, scan);
    FaithfulApart(sourced, q.db, en);
    added, modified, removed := added + a, modified + purged + m, removed + r;
  }

  /** Where the tables are documented there is nothing to purge. */
  lemma NothingUnsafe(db: Db, en: Engine)
    requires Documented(db, en)
    ensures AllSafe(db, en)
  {
    forall f ensures !Unsafe(db, en, f) {
      if f in db.files {
        assert Searchable(db, en, f);
      }
    }
  }

  /** Mirroring documents leaves the rows of source files alone. */
  lemma MirroredDocumented(db: Db, before: Db, en: Engine, docs: Documents, sources: seq<Path>)
    requires Progress(db, before, Current(docs, sources), docs.texts, Current(docs, sources))
    requires Documented(before, en) && forall f :: f in before.files ==> f in sources
    ensures Documented(db, en)
  {
    hide Documented;
    DocumentedApart(before, db, en);
  }

  /** Faithfulness does not look at the raw content. */
  lemma FaithfulApart(db: Db, after: Db, en: Engine)
    requires after == db.(content := after.content)
    ensures Faithful(after, en) <==> Faithful(db, en)
  {
    hide Faithful;
    if Faithful(db, en) {
      ContentApart(db, after, en);
    }
    if Faithful(after, en) {
      ContentApart(after, db, en);
    }
  }

  lemma GraphKept(db: Db, before: Db, docs: Documents, sources: seq<Path>)
    requires Progress(db, before, Current(docs, sources), docs.texts, Current(docs, sources))
    ensures db.nodes == before.nodes && db.edges == before.edges && db.files == before.files
  {
  }

  /** Purging source rows is no business of the documents. */
  lemma PurgedRest(db: Db, before: Db, en: Engine, docs: Documents, sources: seq<Path>)
    requires db == before.(content := before.content - UnsafeRows(before, en))
    ensures NonSource(db) == NonSource(before) && Outdated(db, docs, sources) == Outdated(before, docs, sources)
    ensures AllSafe(before, en) ==> UnsafeRows(before, en) == {}
  {
    hide Readable;
  }

  /** A second sync of an unchanged disk finds nothing and changes nothing,
      whatever was extracted and whatever change went unseen; the first one left
      all in line with the disk exactly when none did. */
  method SyncTwice(db: Db, en: Engine, disk: Disk, scan: seq<Path>, docs: Documents)
      returns (first: Db, second: Db, changes: nat)
    requires Sane(db) && Workable(db.files, en, disk, scan)
    ensures InSync(first, en, disk, scan, docs) <==> !BlindSpot(db.files, disk, scan)
    ensures Faithful(db, en) ==> (Faithful(first, en) <==> Compatible(en, Recorded(first.files)))
    ensures second == first && changes == 0
  {
    hide Sane, Faithful, BlindSpot, UpToDate, Mirrors, AllSafe, Compatible, Recorded, Workable, Readable, Outdated,
      NonSource, UnsafeRows, Scanned, GoneFiles, Distinct, Settled;
    var q := new QueryBuilder(db);
    var a, m, r;
    ghost var sourced;
    a, m, r, sourced := SyncAll(q, en, disk, scan, docs);
    first := q.db;
    a, m, r, sourced := SyncAll(q, en, disk, scan, docs);
    second, changes := q.db, a + m + r;
  }

  // ---- a document tracked as a source file --------------------------------------------------

  /** One document, which the file table holds as well. */
  function TrackedDocument(record: FileRecord): Db {
    Db(map[], [], map["notes.md" := record], map[])
  }

  function OneDocument(): Documents {
    Documents(["notes.md"], f => true, map["notes.md" := "text"])
  }

  /** It is added on every pass, and the mirror never holds it. */
  method DocumentTracked(record: FileRecord) returns (db: Db, added: nat, again: nat)
    ensures Clashing(TrackedDocument(record), OneDocument(), []) == {"notes.md"}
    ensures !Mirrors(db, OneDocument(), []) && added == 1 && again == 1
  {
    ClashSetting(record);
    hide Distinct, Without, Mirrors, Clashing, Progress, Outdated, NonSource, Readable, Sane, TrackedDocument,
      OneDocument;
    var q := new QueryBuilder(TrackedDocument(record));
    var m, r;
    added, m, r := SyncContentOnly(q, OneDocument(), []);
    ghost var once := q.db;
    GraphKept(once, TrackedDocument(record), OneDocument(), []);
    SameClash(q.db, TrackedDocument(record), OneDocument(), []);
    again, m, r := SyncContentOnly(q, OneDocument(), []);
    db := q.db;
  }

  lemma ClashSetting(record: FileRecord)
    ensures var db, docs := TrackedDocument(record), OneDocument();
      && Sane(db) && Clashing(db, docs, []) == {"notes.md"} && Readable(docs, []) <= db.files.Keys
      && |Readable(docs, [])| == 1 && |Readable(docs, []) - NonSource(db)| == 1
  {
    var db, docs := TrackedDocument(record), OneDocument();
    assert "notes.md" in docs.scan;
    assert Readable(docs, []) == {"notes.md"} && NonSource(db) == {};
  }

  lemma SameClash(db: Db, before: Db, docs: Documents, sources: seq<Path>)
    requires db.files == before.files && Readable(docs, sources) <= before.files.Keys
    ensures Clashing(db, docs, sources) == Clashing(before, docs, sources)
    ensures Readable(docs, sources) - NonSource(db) == Readable(docs, sources)
  {
  }
}
