/** `ExtractionOrchestrator`: the loops that keep the database in line with the
    files on disk. */
module Orchestrator {
  import opened Wrappers
  import opened CodeGraph
  import opened Store
  import opened NodeCache
  import opened Reindex
  import opened Sync
  import opened KeyOrder
  import opened Layers
  import opened Records

  /** The lookup table from (kind, name) to the id of the last such node. */
  method IndexByKindName(ns: seq<Node>) returns (ids: map<(NodeKind, string), Id>)
    ensures forall k, name :: (k, name) in ids <==> FindTarget(ns, k, name).Some?
    ensures forall k, name :: (k, name) in ids ==> ids[(k, name)] == FindTarget(ns, k, name).value
  {
    ids := map[];
    for i := 0 to |ns|
      invariant forall k, name :: (k, name) in ids <==> FindTarget(ns[..i], k, name).Some?
      invariant forall k, name :: (k, name) in ids ==> ids[(k, name)] == FindTarget(ns[..i], k, name).value
    {
      assert ns[..i + 1][..i] == ns[..i];
      ids := ids[(ns[i].kind, ns[i].name) := ns[i].id];
    }
    assert ns[..|ns|] == ns;
  }

  /** Point the rows at the new nodes; `before` supplies the kind and name that
      the query returned with each row. */
  method Reinserted(before: Db, ns: seq<Node>, rows: seq<Edge>) returns (r: seq<Edge>)
    requires forall e :: e in rows ==> e.target in before.nodes
    ensures r == Replay(before, ns, rows)
  {
    var ids := IndexByKindName(ns);
    r := [];
    for i := 0 to |rows|
      invariant r == Replay(before, ns, rows[..i])
    {
      assert rows[..i + 1][..i] == rows[..i];
      var e := rows[i];
      var key := (before.nodes[e.target].kind, before.nodes[e.target].name);
      if key in ids {
        r := r + [e.(target := ids[key])];
      }
    }
    assert rows[..|rows|] == rows;
  }

  /** `storeExtractionResult`. */
  method StoreExtractionResult(q: QueryBuilder, file: Path, src: Source, ex: Extraction, safe: bool)
    requires q.Valid()
    modifies q
    ensures q.Valid() && q.db == Stored(old(q.db), file, src, ex, safe)
  {
    hide Keep, PutNodes, AddEdges, FileNodes, Distinct, Without;
    var before := q.db;
    var existing := file in before.files;
    if existing && before.files[file].contentHash == Digest(src.text) {
      if !safe {
        q.DeleteFileContent(file);
      }
      return;
    }
    var rows := if existing then CrossFileRows(before, file, before.edges) else [];
    if existing {
      q.DeleteFile(file);
    }
    var ns := ValidNodes(ex.nodes);
    q.InsertNodes(ns);
    q.InsertEdges(OwnEdges(Ids(ns), ex.edges));
    var reinserted := Reinserted(before, ns, rows);
    q.InsertEdges(reinserted);
    assert q.db == Regraphed(before, file, ex);
    q.UpsertFile(file, Record(src, ex));
    if src.size <= MAX_FILE_SIZE && safe {
      q.UpsertFileContent(file, src.text);
    } else {
      q.DeleteFileContent(file);
    }
  }

  /** The file read at indexing time, with the language detected for it. */
  function Read(en: Engine, disk: Disk, file: Path): Source
    requires file in disk.texts && file in disk.stats
  {
    Source(disk.texts[file], en.language(file, disk.texts[file]), disk.stats[file].size, disk.stats[file].mtime)
  }

  function Safe(en: Engine, disk: Disk, file: Path): bool
    requires file in disk.texts
  {
    en.rawSafe(file, en.language(file, disk.texts[file]))
  }

  predicate Present(disk: Disk, file: Path) {
    file in disk.stats && file in disk.texts
  }

  /** The table after `indexFile`: unreadable files and failed extractions
      change nothing. */
  function Indexed(db: Db, en: Engine, disk: Disk, file: Path): Db {
    if !Present(disk, file) then db
    else
      var src := Read(en, disk, file);
      var outcome := Outcome(en, file, src.text, src.size);
      if outcome.None? then db else Stored(db, file, src, outcome.value, Safe(en, disk, file))
  }

  method IndexFile(q: QueryBuilder, en: Engine, disk: Disk, file: Path)
    requires q.Valid()
    modifies q
    ensures q.Valid() && q.db == Indexed(old(q.db), en, disk, file)
  {
    if !Present(disk, file) {
      return;
    }
    var src := Read(en, disk, file);
    var outcome := Outcome(en, file, src.text, src.size);
    if outcome.Some? {
      StoreExtractionResult(q, file, src, outcome.value, Safe(en, disk, file));
    }
  }

  // ---- reconciling the source files ---------------------------------------------------

  /** Size and whole-millisecond modification time are as recorded. */
  predicate Unmoved(stat: Stat, record: FileRecord) {
    stat.size == record.size && stat.mtime.Floor == record.modifiedAt.Floor
  }

  /** A scanned file that sync reads and finds new or different: its size or
      modification time moved, and then its digest too. */
  predicate Changed(files: map<Path, FileRecord>, disk: Disk, f: Path) {
    && f in disk.texts
    && (f in files ==>
          && f in disk.stats
          && !Unmoved(disk.stats[f], files[f])
          && files[f].contentHash != Digest(disk.texts[f]))
  }

  function IsAdded(files: map<Path, FileRecord>, disk: Disk): Path -> bool {
    (f: Path) => Changed(files, disk, f) && f !in files
  }

  function IsModified(files: map<Path, FileRecord>, disk: Disk): Path -> bool {
    (f: Path) => Changed(files, disk, f) && f in files
  }

  function IsChanged(files: map<Path, FileRecord>, disk: Disk): Path -> bool {
    (f: Path) => Changed(files, disk, f)
  }

  /** The scanned files that satisfy `p`, in the order of the scan. */
  function Scanned(fs: seq<Path>, p: Path -> bool): (r: seq<Path>)
    ensures forall f :: f in r <==> f in fs && p(f)
  {
    if fs == [] then []
    else
      assert fs == fs[..|fs| - 1] + [fs[|fs| - 1]];
      Scanned(fs[..|fs| - 1], p) + if p(fs[|fs| - 1]) then [fs[|fs| - 1]] else []
  }

  lemma ScannedNext(fs: seq<Path>, p: Path -> bool, i: nat)
    requires i < |fs|
    ensures Scanned(fs[..i + 1], p) == Scanned(fs[..i], p) + if p(fs[i]) then [fs[i]] else []
  {
    assert fs[..i + 1][..i] == fs[..i];
  }

  predicate Gone(disk: Disk, scan: seq<Path>, f: Path) {
    f !in scan || f !in disk.stats
  }

  /** The files recorded are the scanned ones present, with current digests. */
  ghost predicate UpToDate(files: map<Path, FileRecord>, disk: Disk, scan: seq<Path>) {
    && (forall f :: f in files <==> !Gone(disk, scan, f))
    && (forall f :: f in files ==> f in disk.texts && files[f].contentHash == Digest(disk.texts[f]))
  }

  /** What sync counts on: a readable disk, and extraction that succeeds on
      whatever changed. */
  ghost predicate Workable(files: map<Path, FileRecord>, en: Engine, disk: Disk, scan: seq<Path>) {
    && (forall f :: f in disk.texts <==> f in disk.stats)
    && (forall f :: f in disk.texts ==> disk.stats[f].size == en.bytes(disk.texts[f]))
    && (forall f :: f in scan && Changed(files, disk, f) ==>
          Outcome(en, f, disk.texts[f], disk.stats[f].size).Some?)
  }

  /** A change that kept size and modification time: sync does not see it. */
  ghost predicate BlindSpot(files: map<Path, FileRecord>, disk: Disk, scan: seq<Path>) {
    exists f :: f in scan && f in files && f in disk.stats && f in disk.texts
      && Unmoved(disk.stats[f], files[f]) && files[f].contentHash != Digest(disk.texts[f])
  }

  /** `getAllFiles`. */
  method ListFiles(files: map<Path, FileRecord>) returns (fs: seq<Path>)
    ensures forall f :: f in fs <==> f in files
    ensures Distinct(fs)
  {
    fs := [];
    var rest := files.Keys;
    while rest != {}
      invariant rest <= files.Keys
      invariant forall f :: f in fs <==> f in files && f !in rest
      invariant Distinct(fs)
      decreases rest
    {
      var f :| f in rest;
      fs := fs + [f];
      rest := rest - {f};
    }
  }

  /** The tracked files that are no longer present source files. */
  function GoneFiles(files: map<Path, FileRecord>, disk: Disk, scan: seq<Path>): set<Path> {
    set f | f in files && Gone(disk, scan, f)
  }

  /** Removing one tracked file, seen from the file table. */
  method RemoveTracked(q: QueryBuilder, ghost en: Engine, file: Path)
    requires q.Valid()
    modifies q
    ensures q.Valid() && q.db.files == old(q.db).files - {file}
    ensures q.db.nodes == Kept(old(q.db).nodes, {file})
    ensures Faithful(old(q.db), en) ==> Faithful(q.db, en)
    ensures Documented(old(q.db), en) ==> Documented(q.db, en)
  {
    hide Keep, Distinct, Without, Faithful, FileNodes, Documented;
    if Documented(q.db, en) {
      RemovedDocumented(q.db, en, file);
    }
    if Faithful(q.db, en) {
      RemoveKeepsFaithful(q.db, en, file);
    }
    RemovedRows(q.db, file);
    q.DeleteFile(file);
  }

  lemma RemovedRows(db: Db, file: Path)
    ensures RemoveFile(db, file).nodes == Kept(db.nodes, {file})
  {
  }

  lemma KeptTwice(nodes: Table, a: set<Path>, b: set<Path>)
    ensures Kept(Kept(nodes, a), b) == Kept(nodes, a + b) && Kept(nodes, {}) == nodes
  {
  }

  /** First loop of `sync`. */
  method RemoveGone(q: QueryBuilder, ghost en: Engine, disk: Disk, scan: seq<Path>) returns (removed: nat)
    requires q.Valid()
    modifies q
    ensures q.Valid()
    ensures removed == |GoneFiles(old(q.db).files, disk, scan)|
    ensures q.db.nodes == Kept(old(q.db).nodes, GoneFiles(old(q.db).files, disk, scan))
    ensures q.db.files == map f | f in old(q.db).files && !Gone(disk, scan, f) :: old(q.db).files[f]
    ensures Faithful(old(q.db), en) ==> Faithful(q.db, en)
    ensures Documented(old(q.db), en) ==> Documented(q.db, en)
    ensures (forall f :: f in old(q.db).files ==> !Gone(disk, scan, f)) ==> q.db == old(q.db) && removed == 0
  {
    hide Distinct, Without, Sane, Faithful, Gone, GoneFiles, GoneAmong, Kept, Documented;
    var tracked := ListFiles(q.db.files);
    removed := 0;
    NoneGone(disk, scan, tracked);
    KeptTwice(q.db.nodes, {}, {});
    for i := 0 to |tracked|
      invariant q.Valid()
      invariant removed == |GoneAmong(disk, scan, tracked, i)|
      invariant q.db.files == old(q.db).files - GoneAmong(disk, scan, tracked, i)
      invariant q.db.nodes == Kept(old(q.db).nodes, GoneAmong(disk, scan, tracked, i))
      invariant Faithful(old(q.db), en) ==> Faithful(q.db, en)
      invariant Documented(old(q.db), en) ==> Documented(q.db, en)
      invariant removed == 0 ==> q.db == old(q.db)
    {
      GoneNext(disk, scan, tracked, i);
      if Gone(disk, scan, tracked[i]) {
        MinusOneMore(old(q.db).files, GoneAmong(disk, scan, tracked, i), tracked[i]);
        KeptTwice(old(q.db).nodes, GoneAmong(disk, scan, tracked, i), {tracked[i]});
        RemoveTracked(q, en, tracked[i]);
        removed := removed + 1;
      }
    }
    AllGone(old(q.db).files, disk, scan, tracked);
  }

  /** The gone ones among the first `n` files listed. */
  function GoneAmong(disk: Disk, scan: seq<Path>, fs: seq<Path>, n: nat): set<Path> {
    set i | 0 <= i < n && i < |fs| && Gone(disk, scan, fs[i]) :: fs[i]
  }

  lemma NoneGone(disk: Disk, scan: seq<Path>, fs: seq<Path>)
    ensures GoneAmong(disk, scan, fs, 0) == {}
  {
  }

  lemma GoneNext(disk: Disk, scan: seq<Path>, fs: seq<Path>, i: nat)
    requires i < |fs| && Distinct(fs)
    ensures GoneAmong(disk, scan, fs, i + 1) ==
      GoneAmong(disk, scan, fs, i) + if Gone(disk, scan, fs[i]) then {fs[i]} else {}
    ensures fs[i] !in GoneAmong(disk, scan, fs, i)
  {
    hide Gone;
  }

  lemma MinusOneMore(files: map<Path, FileRecord>, gone: set<Path>, f: Path)
    ensures (files - gone) - {f} == files - (gone + {f})
  {
  }

  lemma AllGone(files: map<Path, FileRecord>, disk: Disk, scan: seq<Path>, fs: seq<Path>)
    requires forall f :: f in fs <==> f in files
    ensures GoneAmong(disk, scan, fs, |fs|) == GoneFiles(files, disk, scan)
    ensures (forall f :: f in files ==> !Gone(disk, scan, f)) <==> GoneFiles(files, disk, scan) == {}
    ensures files - GoneFiles(files, disk, scan) == map f | f in files && !Gone(disk, scan, f) :: files[f]
  {
    hide Gone;
    assert forall f :: f in GoneFiles(files, disk, scan) <==> f in files && Gone(disk, scan, f);
  }

  /** The adds and modifications, found without touching the database. */
  method Classify(files: map<Path, FileRecord>, disk: Disk, scan: seq<Path>)
      returns (toIndex: seq<Path>, added: seq<Path>, modified: seq<Path>)
    ensures toIndex == Scanned(scan, IsChanged(files, disk))
    ensures added == Scanned(scan, IsAdded(files, disk))
    ensures modified == Scanned(scan, IsModified(files, disk))
  {
    hide Unmoved, Scanned;
    toIndex, added, modified := [], [], [];
    NoneScanned(files, disk);
    for i := 0 to |scan|
      invariant toIndex == Scanned(scan[..i], IsChanged(files, disk))
      invariant added == Scanned(scan[..i], IsAdded(files, disk))
      invariant modified == Scanned(scan[..i], IsModified(files, disk))
    {
      var f := scan[i];
      ScannedNext(scan, IsChanged(files, disk), i);
      ScannedNext(scan, IsAdded(files, disk), i);
      ScannedNext(scan, IsModified(files, disk), i);
      if f in files {
        if f !in disk.stats {
          continue;
        }
        if Unmoved(disk.stats[f], files[f]) {
          continue;
        }
      }
      if f !in disk.texts {
        continue;
      }
      var contentHash := Digest(disk.texts[f]);
      if f !in files {
        toIndex, added := toIndex + [f], added + [f];
      } else if files[f].contentHash != contentHash {
        toIndex, modified := toIndex + [f], modified + [f];
      }
    }
    assert scan[..|scan|] == scan;
  }

  lemma NoneScanned(files: map<Path, FileRecord>, disk: Disk)
    ensures Scanned([], IsChanged(files, disk)) == [] && Scanned([], IsAdded(files, disk)) == []
    ensures Scanned([], IsModified(files, disk)) == []
  {
  }

  /** `getChangedSourceFiles`: what a sync would do to the source graph. */
  method GetChangedSourceFiles(files: map<Path, FileRecord>, disk: Disk, scan: seq<Path>)
      returns (added: seq<Path>, modified: seq<Path>, removed: seq<Path>)
    ensures forall f :: f in removed <==> f in files && Gone(disk, scan, f)
    ensures added == Scanned(scan, IsAdded(files, disk))
    ensures modified == Scanned(scan, IsModified(files, disk))
    ensures UpToDate(files, disk, scan) && (forall f :: f in disk.texts ==> f in disk.stats) ==>
      added == [] && modified == [] && removed == []
  {
    var tracked := ListFiles(files);
    removed := [];
    for i := 0 to |tracked|
      invariant forall f :: f in removed <==> f in tracked[..i] && Gone(disk, scan, f)
    {
      assert tracked[..i + 1] == tracked[..i] + [tracked[i]];
      if Gone(disk, scan, tracked[i]) {
        removed := removed + [tracked[i]];
      }
    }
    assert tracked[..|tracked|] == tracked;
    var toIndex;
    toIndex, added, modified := Classify(files, disk, scan);
    assert added != [] ==> added[0] in added;
    assert modified != [] ==> modified[0] in modified;
    assert removed != [] ==> removed[0] in removed;
  }

  /** The files can be read, and extracting them succeeds. */
  ghost predicate Extractable(en: Engine, disk: Disk, fs: seq<Path>) {
    forall f :: f in fs ==>
      Present(disk, f) && disk.stats[f].size == en.bytes(disk.texts[f])
      && Outcome(en, f, disk.texts[f], disk.stats[f].size).Some?
  }

  /** The file table once the first `i` files were indexed. */
  ghost predicate FilesUpTo(
    files: map<Path, FileRecord>, base: map<Path, FileRecord>, disk: Disk, fs: seq<Path>, i: nat)
    requires i <= |fs|
  {
    && (forall f :: f in files <==> f in base || f in fs[..i])
    && (forall f :: f in fs[..i] ==> f in disk.texts && f in files && files[f].contentHash == Digest(disk.texts[f]))
    && (forall f :: f in base && f !in fs[..i] ==> f in files && files[f] == base[f])
  }

  /** What the layers rest on: each row belongs to a tracked file, the files to
      index have new content, and what is extracted from it names its file. */
  ghost predicate Layerable(base: Db, en: Engine, disk: Disk, fs: seq<Path>)
  {
    && (forall f :: f in fs ==> f in disk.texts)
    && (forall id :: id in base.nodes ==> base.nodes[id].filePath in base.files)
    && (forall f :: f in fs && f in base.files ==> base.files[f].contentHash != Digest(disk.texts[f]))
    && (forall f, id :: f in fs && id in Rows(en, f, disk.texts[f]) ==> Rows(en, f, disk.texts[f])[id].filePath == f)
  }

  /** The symbols once the first `i` files were indexed. */
  ghost predicate NodesUpTo(nodes: Table, base: Table, en: Engine, disk: Disk, fs: seq<Path>, i: nat)
    requires i <= |fs|
  {
    && (forall f :: f in fs ==> f in disk.texts)
    && nodes == Kept(base, SetOfFiles(fs[..i])) + Layered(en, disk.texts, fs[..i])
  }

  lemma NothingYet(base: Db, en: Engine, disk: Disk, fs: seq<Path>)
    requires Extractable(en, disk, fs)
    ensures FilesUpTo(base.files, base.files, disk, fs, 0) && NodesUpTo(base.nodes, base.nodes, en, disk, fs, 0)
  {
    KeptTwice(base.nodes, {}, {});
    assert fs[..0] == [] && SetOfFiles([]) == {};
  }

  lemma IndexedFilesNext(db: Db, base: map<Path, FileRecord>, en: Engine, disk: Disk, fs: seq<Path>, i: nat)
    requires i < |fs| && Extractable(en, disk, fs) && FilesUpTo(db.files, base, disk, fs, i)
    ensures FilesUpTo(Indexed(db, en, disk, fs[i]).files, base, disk, fs, i + 1)
  {
    hide Outcome, Stored, Extractable;
    assert fs[i] in fs && fs[..i + 1] == fs[..i] + [fs[i]];
    assert Present(disk, fs[i]) && Outcome(en, fs[i], disk.texts[fs[i]], disk.stats[fs[i]].size).Some? by {
      AtOne(en, disk, fs, i);
    }
    var src := Read(en, disk, fs[i]);
    StoredFiles(db, fs[i], src, Outcome(en, fs[i], src.text, src.size).value, Safe(en, disk, fs[i]));
  }

  lemma AtOne(en: Engine, disk: Disk, fs: seq<Path>, i: nat)
    requires i < |fs| && Extractable(en, disk, fs)
    ensures Present(disk, fs[i]) && disk.stats[fs[i]].size == en.bytes(disk.texts[fs[i]])
    ensures Outcome(en, fs[i], disk.texts[fs[i]], disk.stats[fs[i]].size).Some?
    ensures forall f :: f in fs ==> f in disk.texts
  {
  }

  /** Indexing a file leaves its rows alone if it has them already, and else
      drops what it had and puts its new rows in. */
  lemma IndexedRows(db: Db, en: Engine, disk: Disk, file: Path)
    requires Present(disk, file) && disk.stats[file].size == en.bytes(disk.texts[file])
    requires Outcome(en, file, disk.texts[file], disk.stats[file].size).Some?
    ensures Indexed(db, en, disk, file).nodes ==
      if file in db.files && db.files[file].contentHash == Digest(disk.texts[file]) then db.nodes
      else (if file in db.files then db.nodes - FileNodes(db, file) else db.nodes) + Rows(en, file, disk.texts[file])
  {
    hide Outcome, Regraphed;
    RegraphedNodes(db, file, Outcome(en, file, disk.texts[file], disk.stats[file].size).value);
  }

  lemma IndexedNodesNext(db: Db, base: Db, en: Engine, disk: Disk, fs: seq<Path>, i: nat)
    requires i < |fs| && Extractable(en, disk, fs)
    requires Layerable(base, en, disk, fs)
    requires FilesUpTo(db.files, base.files, disk, fs, i) && NodesUpTo(db.nodes, base.nodes, en, disk, fs, i)
    ensures NodesUpTo(Indexed(db, en, disk, fs[i]).nodes, base.nodes, en, disk, fs, i + 1)
  {
    hide Outcome, Rows, Extractable, Layered, Indexed, Kept, FileNodes;
    var f, done := fs[i], SetOfFiles(fs[..i]);
    AtOne(en, disk, fs, i);
    IndexedRows(db, en, disk, f);
    LayeredNext(en, disk.texts, fs, i);
    var layered, rows := Layered(en, disk.texts, fs[..i]), Rows(en, f, disk.texts[f]);
    if f in fs[..i] {
      assert done + {f} == done;
    } else {
      assert forall g :: g in fs[..i] ==> g in fs;
      LayeredPaths(en, disk.texts, fs[..i]);
      if f in db.files {
        assert f in base.files && f in fs;
        FileNodesAre(db, f);
        LayOver(base.nodes, done, layered, f, rows, db.nodes, FileNodes(db, f));
      } else {
        LayOn(base.nodes, done, layered, f, rows, db.nodes);
      }
    }
  }

  lemma FileNodesAre(db: Db, file: Path)
    ensures forall id :: id in FileNodes(db, file) <==> id in db.nodes && db.nodes[id].filePath == file
  {
  }

  /** The table after indexing these files one after the other. */
  function IndexedRun(db: Db, en: Engine, disk: Disk, fs: seq<Path>): Db {
    if fs == [] then db else Indexed(IndexedRun(db, en, disk, fs[..|fs| - 1]), en, disk, fs[|fs| - 1])
  }

  lemma RunNext(db: Db, en: Engine, disk: Disk, fs: seq<Path>, i: nat)
    requires i < |fs|
    ensures IndexedRun(db, en, disk, fs[..i + 1]) == Indexed(IndexedRun(db, en, disk, fs[..i]), en, disk, fs[i])
  {
    assert fs[..i + 1][..i] == fs[..i];
  }

  /** What such a run makes of the file table and of the symbols. */
  lemma {:induction false} RunUpTo(base: Db, en: Engine, disk: Disk, fs: seq<Path>, i: nat)
    requires i <= |fs| && Extractable(en, disk, fs)
    ensures var after := IndexedRun(base, en, disk, fs[..i]);
      && FilesUpTo(after.files, base.files, disk, fs, i)
      && (Layerable(base, en, disk, fs) ==> NodesUpTo(after.nodes, base.nodes, en, disk, fs, i))
    decreases i
  {
    hide Outcome, Extractable, Layerable, FilesUpTo, NodesUpTo, Indexed;
    if i == 0 {
      NothingYet(base, en, disk, fs);
    } else {
      RunUpTo(base, en, disk, fs, i - 1);
      RunNext(base, en, disk, fs, i - 1);
      var db := IndexedRun(base, en, disk, fs[..i - 1]);
      IndexedFilesNext(db, base.files, en, disk, fs, i - 1);
      if Layerable(base, en, disk, fs) {
        IndexedNodesNext(db, base, en, disk, fs, i - 1);
      }
    }
  }

  /** Whatever is indexed, the tables stay documented, and each record is an old one
      or says what is on disk. */
  lemma {:induction false} RunRecords(base: Db, en: Engine, disk: Disk, fs: seq<Path>)
    ensures Documented(base, en) ==> Documented(IndexedRun(base, en, disk, fs), en)
    ensures OldOrMatching(base.files, IndexedRun(base, en, disk, fs).files, en, disk, SetOfFiles(fs))
  {
    if fs != [] {
      var init, file := fs[..|fs| - 1], fs[|fs| - 1];
      assert fs == init + [file] && SetOfFiles(fs) == SetOfFiles(init) + {file};
      RunRecords(base, en, disk, init);
      IndexedRecord(IndexedRun(base, en, disk, init), base.files, en, disk, SetOfFiles(init), file);
    }
  }

  lemma IndexedRecord(
    db: Db, base: map<Path, FileRecord>, en: Engine, disk: Disk, fs: set<Path>, file: Path)
    requires OldOrMatching(base, db.files, en, disk, fs)
    ensures Documented(db, en) ==> Documented(Indexed(db, en, disk, file), en)
    ensures OldOrMatching(base, Indexed(db, en, disk, file).files, en, disk, fs + {file})
  {
    hide Stored, Documented;
    if Present(disk, file) {
      var src := Read(en, disk, file);
      var outcome := Outcome(en, file, src.text, src.size);
      if outcome.Some? {
        StoredRecord(db, base, en, disk, fs, file, src, outcome.value, Safe(en, disk, file));
        if Documented(db, en) {
          StoredDocumented(db, en, file, src, outcome.value, Safe(en, disk, file));
        }
      }
    }
  }

  lemma RunTables(base: Db, en: Engine, disk: Disk, fs: seq<Path>)
    requires Extractable(en, disk, fs)
    ensures var after := IndexedRun(base, en, disk, fs);
      && FilesUpTo(after.files, base.files, disk, fs, |fs|)
      && (Layerable(base, en, disk, fs) ==> NodesUpTo(after.nodes, base.nodes, en, disk, fs, |fs|))
  {
    assert fs[..|fs|] == fs;
    hide *;
    RunUpTo(base, en, disk, fs, |fs|);
  }

  /** Index the changed files one after the other. */
  method IndexAllOf(q: QueryBuilder, en: Engine, disk: Disk, toIndex: seq<Path>)
    requires q.Valid()
    modifies q
    ensures q.Valid() && q.db == IndexedRun(old(q.db), en, disk, toIndex)
    ensures forall f :: f in q.db.files ==> f in old(q.db).files || f in toIndex
    ensures Extractable(en, disk, toIndex) ==>
      FilesUpTo(q.db.files, old(q.db).files, disk, toIndex, |toIndex|)
    ensures Extractable(en, disk, toIndex) && Layerable(old(q.db), en, disk, toIndex) ==>
      NodesUpTo(q.db.nodes, old(q.db).nodes, en, disk, toIndex, |toIndex|)
  {
    hide Distinct, Without, Extractable, Layerable, FilesUpTo, NodesUpTo, Sane, Indexed;
    ghost var base := q.db;
    for i := 0 to |toIndex|
      invariant q.Valid() && q.db == IndexedRun(base, en, disk, toIndex[..i])
      invariant forall f :: f in q.db.files ==> f in base.files || f in toIndex[..i]
    {
      assert toIndex[..i + 1] == toIndex[..i] + [toIndex[i]];
      RunNext(base, en, disk, toIndex, i);
      IndexedFiles(q.db, en, disk, toIndex[i]);
      IndexFile(q, en, disk, toIndex[i]);
    }
    assert toIndex[..|toIndex|] == toIndex;
    if Extractable(en, disk, toIndex) {
      RunTables(base, en, disk, toIndex);
    }
  }

  lemma IndexedFiles(db: Db, en: Engine, disk: Disk, file: Path)
    ensures forall f :: f in Indexed(db, en, disk, file).files ==> f in db.files || f == file
  {
    hide Outcome, Regraphed;
    if Present(disk, file) {
      var src := Read(en, disk, file);
      var outcome := Outcome(en, file, src.text, src.size);
      if outcome.Some? {
        RegraphedNodes(db, file, outcome.value);
      }
    }
  }
}
