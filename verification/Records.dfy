/** What the tables say of a source file: its record, and its raw text where that
    may be searched. */
module Records {
  import opened CodeGraph
  import opened Store
  import opened Reindex
  import opened Sync

  /** The record describes the content it has the digest of. */
  ghost predicate Described(db: Db, en: Engine, f: Path)
    requires f in db.files
  {
    var r := db.files[f];
    && r.language == en.language(f, r.contentHash.of)
    && r.nodeCount == if r.size > MAX_FILE_SIZE then 0 else |en.extract(f, r.contentHash.of, r.language).nodes|
  }

  /** The raw text can be searched exactly when its language allows it and it is not
      too big, and then it is the text recorded. */
  ghost predicate Searchable(db: Db, en: Engine, f: Path)
    requires f in db.files
  {
    var r := db.files[f];
    && (f in db.content <==> en.rawSafe(f, r.language) && r.size <= MAX_FILE_SIZE)
    && (f in db.content ==> db.content[f] == r.contentHash.of)
  }

  /** Both hold of every tracked file. */
  ghost predicate Documented(db: Db, en: Engine) {
    forall f :: f in db.files ==> Described(db, en, f) && Searchable(db, en, f)
  }

  /** What storing hands over belongs together. */
  ghost predicate Consistent(en: Engine, file: Path, src: Source, ex: Extraction, safe: bool) {
    && src.language == en.language(file, src.text) && safe == en.rawSafe(file, src.language)
    && |ex.nodes| == if src.size > MAX_FILE_SIZE then 0 else |en.extract(file, src.text, src.language).nodes|
  }

  /** Storing a file keeps the tables documented, changed or not. */
  lemma StoredDocumented(db: Db, en: Engine, file: Path, src: Source, ex: Extraction, safe: bool)
    requires Documented(db, en) && Consistent(en, file, src, ex, safe)
    ensures Documented(Stored(db, file, src, ex, safe), en)
  {
    StoredTables(db, file, src, ex, safe);
    hide Stored;
    var after := Stored(db, file, src, ex, safe);
    forall f | f in after.files ensures Described(after, en, f) && Searchable(after, en, f) {
      if f in db.files {
        assert Described(db, en, f) && Searchable(db, en, f);
      }
    }
  }

  lemma StoredTables(db: Db, file: Path, src: Source, ex: Extraction, safe: bool)
    ensures var after := Stored(db, file, src, ex, safe);
      var same := file in db.files && db.files[file].contentHash == Digest(src.text);
      && after.files == (if same then db.files else db.files[file := Record(src, ex)])
      && after.content ==
         (if same then if safe then db.content else db.content - {file}
          else if src.size <= MAX_FILE_SIZE && safe then db.content[file := src.text]
          else db.content - {file})
  {
    hide Regraphed;
    RegraphedNodes(db, file, ex);
  }

  lemma RemovedDocumented(db: Db, en: Engine, file: Path)
    requires Documented(db, en)
    ensures Documented(RemoveFile(db, file), en)
  {
    hide Keep;
    var after := RemoveFile(db, file);
    forall f | f in after.files ensures Described(after, en, f) && Searchable(after, en, f) {
      assert Described(db, en, f) && Searchable(db, en, f);
    }
  }

  /** Only the records and the rows of tracked files matter. */
  lemma DocumentedApart(db: Db, after: Db, en: Engine)
    requires Documented(db, en) && after.files == db.files
    requires forall f :: f in db.files ==>
      (f in after.content <==> f in db.content) && (f in db.content ==> after.content[f] == db.content[f])
    ensures Documented(after, en)
  {
    forall f | f in after.files ensures Described(after, en, f) && Searchable(after, en, f) {
      assert Described(db, en, f) && Searchable(db, en, f);
    }
  }

  lemma NothingDocumented(db: Db, en: Engine)
    requires db.files == map[]
    ensures Documented(db, en)
  {
  }

  /** The record is that of the file as it is on disk. */
  ghost predicate Matches(en: Engine, disk: Disk, f: Path, r: FileRecord) {
    && f in disk.stats && f in disk.texts
    && r.contentHash == Digest(disk.texts[f]) && r.language == en.language(f, disk.texts[f])
    && r.size == disk.stats[f].size && r.modifiedAt == disk.stats[f].mtime
  }

  /** Each record is an old one or matches the disk. */
  ghost predicate OldOrMatching(
    before: map<Path, FileRecord>, after: map<Path, FileRecord>, en: Engine, disk: Disk, fs: set<Path>)
  {
    forall f :: f in after ==>
      (f in before && after[f] == before[f]) || (f in fs && Matches(en, disk, f, after[f]))
  }

  lemma StoredRecord(
    db: Db, base: map<Path, FileRecord>, en: Engine, disk: Disk, fs: set<Path>, file: Path, src: Source, ex: Extraction,
    safe: bool)
    requires OldOrMatching(base, db.files, en, disk, fs) && file in disk.stats && file in disk.texts
    requires src == Source(
      disk.texts[file], en.language(file, disk.texts[file]), disk.stats[file].size, disk.stats[file].mtime)
    ensures OldOrMatching(base, Stored(db, file, src, ex, safe).files, en, disk, fs + {file})
  {
    hide Regraphed;
    RegraphedNodes(db, file, ex);
  }
}
