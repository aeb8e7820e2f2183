/** `indexAll`, its main loop: every scanned file is read and parsed, whatever its
    language, and stored. */
module FullIndex {
  import opened Wrappers
  import opened CodeGraph
  import opened Store
  import opened NodeCache
  import opened Reindex
  import opened Sync
  import opened Orchestrator
  import opened Layers
  import opened Records

  /** What `indexAll` stores for a file: unlike `indexFile` it does not ask
      whether the language is supported. */
  function BulkOutcome(en: Engine, file: Path, text: string, size: nat): Option<Extraction> {
    if size > MAX_FILE_SIZE then Some(Extraction([], [], 1))
    else
      var r := en.extract(file, text, en.language(file, text));
      if |r.nodes| > 0 || r.errors == 0 then Some(r) else None
  }

  /** The table after one turn of the loop. */
  function BulkIndexed(db: Db, en: Engine, disk: Disk, file: Path): Db {
    if !Present(disk, file) then db
    else
      var src := Read(en, disk, file);
      var outcome := BulkOutcome(en, file, src.text, src.size);
      if outcome.None? then db else Stored(db, file, src, outcome.value, Safe(en, disk, file))
  }

  function BulkRun(db: Db, en: Engine, disk: Disk, fs: seq<Path>): Db {
    if fs == [] then db else BulkIndexed(BulkRun(db, en, disk, fs[..|fs| - 1]), en, disk, fs[|fs| - 1])
  }

  /** It keeps the tables documented, and each record is an old one or says what is
      on disk. */
  lemma {:induction false} BulkRecords(base: Db, en: Engine, disk: Disk, fs: seq<Path>)
    ensures Documented(base, en) ==> Documented(BulkRun(base, en, disk, fs), en)
    ensures OldOrMatching(base.files, BulkRun(base, en, disk, fs).files, en, disk, SetOfFiles(fs))
  {
    if fs != [] {
      var init, file := fs[..|fs| - 1], fs[|fs| - 1];
      assert fs == init + [file] && SetOfFiles(fs) == SetOfFiles(init) + {file};
      BulkRecords(base, en, disk, init);
      BulkRecord(BulkRun(base, en, disk, init), base.files, en, disk, SetOfFiles(init), file);
    }
  }

  lemma BulkRecord(db: Db, base: map<Path, FileRecord>, en: Engine, disk: Disk, fs: set<Path>, file: Path)
    requires OldOrMatching(base, db.files, en, disk, fs)
    ensures Documented(db, en) ==> Documented(BulkIndexed(db, en, disk, file), en)
    ensures OldOrMatching(base, BulkIndexed(db, en, disk, file).files, en, disk, fs + {file})
  {
    hide Stored, Documented;
    if Present(disk, file) {
      var src := Read(en, disk, file);
      var outcome := BulkOutcome(en, file, src.text, src.size);
      if outcome.Some? {
        StoredRecord(db, base, en, disk, fs, file, src, outcome.value, Safe(en, disk, file));
        if Documented(db, en) {
          StoredDocumented(db, en, file, src, outcome.value, Safe(en, disk, file));
        }
      }
    }
  }

  /** The main loop of `indexAll`. */
  method IndexEverything(q: QueryBuilder, en: Engine, disk: Disk, scan: seq<Path>)
    requires q.Valid()
    modifies q
    ensures q.Valid() && q.db == BulkRun(old(q.db), en, disk, scan)
    ensures Documented(old(q.db), en) ==> Documented(q.db, en)
    ensures OldOrMatching(old(q.db).files, q.db.files, en, disk, SetOfFiles(scan))
  {
    hide Distinct, Sane, Stored, Documented, OldOrMatching;
    BulkRecords(q.db, en, disk, scan);
    for i := 0 to |scan|
      invariant q.Valid() && q.db == BulkRun(old(q.db), en, disk, scan[..i])
    {
      var file := scan[i];
      assert scan[..i + 1][..i] == scan[..i];
      if !Present(disk, file) {
        continue;
      }
      var src := Read(en, disk, file);
      if src.size > MAX_FILE_SIZE {
        StoreExtractionResult(q, file, src, Extraction([], [], 1), Safe(en, disk, file));
        continue;
      }
      var r := en.extract(file, src.text, src.language);
      if |r.nodes| > 0 || r.errors == 0 {
        StoreExtractionResult(q, file, src, r, Safe(en, disk, file));
      }
    }
    assert scan[..|scan|] == scan;
  }

  /** Both ways of indexing store the same for this file. */
  predicate SameOutcome(en: Engine, disk: Disk, file: Path)
    requires Present(disk, file)
  {
    var src := Read(en, disk, file);
    Outcome(en, file, src.text, src.size) == BulkOutcome(en, file, src.text, src.size)
  }

  /** They do unless the language is unsupported and extraction makes something
      of the file all the same. */
  lemma SameOutcomeIff(en: Engine, disk: Disk, file: Path)
    requires Present(disk, file)
    ensures var src := Read(en, disk, file); var r := en.extract(file, src.text, src.language);
      SameOutcome(en, disk, file) <==>
        !(src.size <= MAX_FILE_SIZE && !en.supported(src.language) && (|r.nodes| > 0 || r.errors == 0))
  {
  }

  lemma SameTable(db: Db, en: Engine, disk: Disk, file: Path)
    requires Present(disk, file) ==> SameOutcome(en, disk, file)
    ensures BulkIndexed(db, en, disk, file) == Indexed(db, en, disk, file)
    ensures file !in disk.texts ==> Indexed(db, en, disk, file) == db
  {
    hide Outcome, BulkOutcome, Stored;
  }

  /** Then indexing everything is what a sync does that finds nothing recorded:
      the same tables, whatever was there before. */
  lemma {:induction false} BulkIsRun(db: Db, en: Engine, disk: Disk, scan: seq<Path>)
    requires forall f :: f in scan && Present(disk, f) ==> SameOutcome(en, disk, f)
    ensures BulkRun(db, en, disk, scan) == IndexedRun(db, en, disk, Scanned(scan, IsChanged(map[], disk)))
  {
    if scan != [] {
      var init, last := scan[..|scan| - 1], scan[|scan| - 1];
      assert scan == init + [last];
      BulkIsRun(db, en, disk, init);
      SameTable(BulkRun(db, en, disk, init), en, disk, last);
      hide Indexed, BulkIndexed, SameOutcome;
      var found := Scanned(init, IsChanged(map[], disk));
      if last in disk.texts {
        assert (found + [last])[..|found|] == found;
      } else {
        assert found + [] == found;
      }
    }
  }
}
