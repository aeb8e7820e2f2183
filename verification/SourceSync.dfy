/** `sync` on the source files: what it makes of the file table and of the graph,
    and when the graph is what indexing from nothing would give. */
module SourceSync {
  import opened CodeGraph
  import opened Store
  import opened NodeCache
  import opened Sync
  import opened Layers
  import opened Orchestrator
  import opened Records

  /** The files a sync indexes, in the order of the scan. */
  function ToIndex(files: map<Path, FileRecord>, disk: Disk, scan: seq<Path>): seq<Path> {
    Scanned(scan, IsChanged(files, disk))
  }

  /** What the scanned files hold. */
  function Contents(disk: Disk, scan: seq<Path>): map<Path, string> {
    map f | f in disk.texts && f in scan :: disk.texts[f]
  }

  /** The graph after a sync: what belonged to files neither gone nor changed,
      with the rows of the changed files on top, each over those before it. */
  ghost predicate Rebuilt(before: Db, after: Db, en: Engine, disk: Disk, scan: seq<Path>) {
    var changed := ToIndex(before.files, disk, scan);
    && (forall f :: f in changed ==> f in disk.texts)
    && after.nodes ==
       Kept(before.nodes, GoneFiles(before.files, disk, scan) + SetOfFiles(changed)) + Layered(en, disk.texts, changed)
  }

  /** Every symbol belongs to a tracked file. */
  ghost predicate RowsTracked(db: Db) {
    forall id :: id in db.nodes ==> db.nodes[id].filePath in db.files
  }

  lemma FaithfulTracked(db: Db, en: Engine)
    requires Faithful(db, en)
    ensures RowsTracked(db)
  {
  }

  /** Nothing tracked is gone, and no scanned file looks changed. */
  ghost predicate Settled(files: map<Path, FileRecord>, disk: Disk, scan: seq<Path>) {
    && (forall f :: f in files ==> !Gone(disk, scan, f))
    && (forall f :: f in scan ==> !Changed(files, disk, f))
  }

  /** The source half of `sync`. On a workable disk the file table ends up to date
      exactly when no change hid behind an unmoved size and modification time,
      whatever was extracted. A faithful database ends faithful exactly when the
      contents it then records can all be in the graph at once. The symbols are
      those of the files left alone with the changed ones' on top, shared ids or
      not. And where nothing looks changed, nothing is; a sync leaves it so. */
  method SyncSources(q: QueryBuilder, en: Engine, disk: Disk, scan: seq<Path>)
      returns (added: nat, modified: nat, removed: nat)
    requires q.Valid()
    modifies q
    ensures q.Valid()
    ensures forall f :: f in q.db.files ==> f in scan
    ensures added == |Scanned(scan, IsAdded(old(q.db).files, disk))|
    ensures modified == |Scanned(scan, IsModified(old(q.db).files, disk))|
    ensures removed == |GoneFiles(old(q.db).files, disk, scan)|
    ensures Workable(old(q.db).files, en, disk, scan) ==>
      (UpToDate(q.db.files, disk, scan) <==> !BlindSpot(old(q.db).files, disk, scan))
    ensures Workable(old(q.db).files, en, disk, scan) && Faithful(old(q.db), en) ==>
      (Faithful(q.db, en) <==> Compatible(en, Recorded(q.db.files)))
    ensures
      Workable(old(q.db).files, en, disk, scan) && RowsTracked(old(q.db)) && NamesOwnFile(en, Contents(disk, scan)) ==>
      Rebuilt(old(q.db), q.db, en, disk, scan) && RowsTracked(q.db)
    ensures Documented(old(q.db), en) ==> Documented(q.db, en)
    ensures OldOrMatching(old(q.db).files, q.db.files, en, disk, SetOfFiles(scan))
    ensures Workable(old(q.db).files, en, disk, scan) ==> Settled(q.db.files, disk, scan)
    ensures Settled(old(q.db).files, disk, scan) ==>
      q.db == old(q.db) && added == 0 && modified == 0 && removed == 0
    ensures UpToDate(old(q.db).files, disk, scan) && disk.texts.Keys <= disk.stats.Keys ==>
      q.db == old(q.db) && added == 0 && modified == 0 && removed == 0
  {
    hide Faithful, Outcome, Sane, Kept, NodesUpTo, FilesUpTo, Layerable, Extractable, UpToDate, BlindSpot, Workable,
      NamesOwnFile, Compatible, Recorded, Rebuilt, Scanned, Contents, Settled, RowsTracked,
      Documented, OldOrMatching;
    ghost var before := q.db;
    var files := q.db.files;
    removed := RemoveGone(q, en, disk, scan);
    var toIndex, adds, changes := Classify(files, disk, scan);
    added, modified := |adds|, |changes|;
    ghost var pruned := q.db;
    IndexAllOf(q, en, disk, toIndex);
    RunRecords(pruned, en, disk, toIndex);
    RecordsFrom(before.files, pruned.files, q.db.files, en, disk, scan);
    ScannedGone(before.files, pruned.files, disk, scan);
    if UpToDate(before.files, disk, scan) && disk.texts.Keys <= disk.stats.Keys {
      UpToDateSettled(before.files, disk, scan);
    }
    if Settled(before.files, disk, scan) {
      NothingChanged(before.files, disk, scan);
    }
    if Workable(before.files, en, disk, scan) {
      WorkableExtracts(before.files, en, disk, scan);
      Reconciled(before.files, pruned.files, q.db.files, en, disk, scan);
      Synced(before, pruned, q.db, en, disk, scan);
    }
  }

  /** What a sync makes of the graph, from what indexing makes of it. */
  lemma Synced(before: Db, pruned: Db, after: Db, en: Engine, disk: Disk, scan: seq<Path>)
    requires Workable(before.files, en, disk, scan) && Sane(after)
    requires Faithful(before, en) ==> Faithful(pruned, en)
    requires pruned.files == map f | f in before.files && !Gone(disk, scan, f) :: before.files[f]
    requires pruned.nodes == Kept(before.nodes, GoneFiles(before.files, disk, scan))
    requires var toIndex := ToIndex(before.files, disk, scan);
      && FilesUpTo(after.files, pruned.files, disk, toIndex, |toIndex|)
      && (Layerable(pruned, en, disk, toIndex) ==> NodesUpTo(after.nodes, pruned.nodes, en, disk, toIndex, |toIndex|))
    ensures Faithful(before, en) ==> (Faithful(after, en) <==> Compatible(en, Recorded(after.files)))
    ensures RowsTracked(before) && NamesOwnFile(en, Contents(disk, scan)) ==>
      Rebuilt(before, after, en, disk, scan) && RowsTracked(after)
  {
    var toIndex := ToIndex(before.files, disk, scan);
    WorkableExtracts(before.files, en, disk, scan);
    NewContent(before.files, pruned.files, disk, scan);
    hide Faithful, Workable, FilesUpTo, NodesUpTo, Layerable, ToIndex, RowsTracked, NamesOwnFile, Kept, GoneFiles, Gone;
    if Faithful(before, en) {
      FaithfulIff(pruned, after, en, disk, toIndex);
    }
    if RowsTracked(before) && NamesOwnFile(en, Contents(disk, scan)) {
      IsRebuilt(before, pruned, after, en, disk, scan);
    }
  }

  lemma NewContent(files: map<Path, FileRecord>, pruned: map<Path, FileRecord>, disk: Disk, scan: seq<Path>)
    requires pruned == map f | f in files && !Gone(disk, scan, f) :: files[f]
    ensures forall f :: f in ToIndex(files, disk, scan) ==> f in disk.texts && f in scan
    ensures forall f :: f in ToIndex(files, disk, scan) && f in pruned ==>
      pruned[f].contentHash != Digest(disk.texts[f])
  {
  }

  lemma UpToDateSettled(files: map<Path, FileRecord>, disk: Disk, scan: seq<Path>)
    requires UpToDate(files, disk, scan) && disk.texts.Keys <= disk.stats.Keys
    ensures Settled(files, disk, scan)
  {
    hide Unmoved;
  }

  lemma RecordsFrom(
    files: map<Path, FileRecord>, pruned: map<Path, FileRecord>, after: map<Path, FileRecord>, en: Engine, disk: Disk,
    scan: seq<Path>)
    requires pruned == map f | f in files && !Gone(disk, scan, f) :: files[f]
    requires OldOrMatching(pruned, after, en, disk, SetOfFiles(ToIndex(files, disk, scan)))
    ensures OldOrMatching(files, after, en, disk, SetOfFiles(scan))
  {
    hide Changed, Gone, Matches;
  }

  /** Nothing to add, change or remove. */
  lemma NothingChanged(files: map<Path, FileRecord>, disk: Disk, scan: seq<Path>)
    requires Settled(files, disk, scan)
    ensures ToIndex(files, disk, scan) == [] && Scanned(scan, IsAdded(files, disk)) == []
    ensures Scanned(scan, IsModified(files, disk)) == [] && GoneFiles(files, disk, scan) == {}
    ensures forall f :: f in files ==> !Gone(disk, scan, f)
  {
    hide Changed;
    ScannedNone(scan, IsChanged(files, disk));
    ScannedNone(scan, IsAdded(files, disk));
    ScannedNone(scan, IsModified(files, disk));
  }

  lemma {:induction false} ScannedNone(fs: seq<Path>, p: Path -> bool)
    requires forall f :: f in fs ==> !p(f)
    ensures Scanned(fs, p) == []
  {
    if fs != [] {
      assert fs == fs[..|fs| - 1] + [fs[|fs| - 1]];
      ScannedNone(fs[..|fs| - 1], p);
    }
  }

  /** What is left of the file table and what is to be indexed was scanned. */
  lemma ScannedGone(files: map<Path, FileRecord>, pruned: map<Path, FileRecord>, disk: Disk, scan: seq<Path>)
    requires pruned == map f | f in files && !Gone(disk, scan, f) :: files[f]
    ensures forall f :: f in pruned ==> f in scan
    ensures forall f :: f in ToIndex(files, disk, scan) ==> f in scan
  {
  }

  lemma WorkableExtracts(files: map<Path, FileRecord>, en: Engine, disk: Disk, scan: seq<Path>)
    requires Workable(files, en, disk, scan)
    ensures Extractable(en, disk, ToIndex(files, disk, scan))
  {
    hide Outcome, Unmoved;
  }

  /** Kept, indexed and dropped files together are the present ones, and
      current unless a change was not seen. */
  lemma Reconciled(
    files: map<Path, FileRecord>, pruned: map<Path, FileRecord>, after: map<Path, FileRecord>, en: Engine, disk: Disk,
    scan: seq<Path>)
    requires Workable(files, en, disk, scan)
    requires pruned == map f | f in files && !Gone(disk, scan, f) :: files[f]
    requires var toIndex := ToIndex(files, disk, scan); FilesUpTo(after, pruned, disk, toIndex, |toIndex|)
    ensures UpToDate(after, disk, scan) <==> !BlindSpot(files, disk, scan)
    ensures Settled(after, disk, scan)
  {
    hide Outcome, Unmoved, Scanned;
    var toIndex := ToIndex(files, disk, scan);
    assert toIndex[..|toIndex|] == toIndex;
    SettledNow(files, pruned, after, disk, scan);
    if BlindSpot(files, disk, scan) {
      var f :| f in scan && f in files && f in disk.stats && f in disk.texts
        && Unmoved(disk.stats[f], files[f]) && files[f].contentHash != Digest(disk.texts[f]);
      assert f in after && after[f] == files[f];
    } else {
      forall f
        ensures f in after <==> !Gone(disk, scan, f)
        ensures f in after ==> f in disk.texts && after[f].contentHash == Digest(disk.texts[f])
      {
        if f in scan && f in disk.stats && f in files && f !in toIndex {
          assert Unmoved(disk.stats[f], files[f]) || files[f].contentHash == Digest(disk.texts[f]);
        }
      }
    }
  }

  lemma SettledNow(
    files: map<Path, FileRecord>, pruned: map<Path, FileRecord>, after: map<Path, FileRecord>, disk: Disk,
    scan: seq<Path>)
    requires forall f :: f in disk.texts <==> f in disk.stats
    requires pruned == map f | f in files && !Gone(disk, scan, f) :: files[f]
    requires var toIndex := ToIndex(files, disk, scan); FilesUpTo(after, pruned, disk, toIndex, |toIndex|)
    ensures Settled(after, disk, scan)
  {
    hide Unmoved, Scanned;
    var toIndex := ToIndex(files, disk, scan);
    assert toIndex[..|toIndex|] == toIndex;
    forall f | f in scan ensures !Changed(after, disk, f) {
      if f in disk.texts && f !in toIndex {
        assert !Changed(files, disk, f);
      }
    }
  }

  // ---- when the graph comes out faithful -------------------------------------------------

  /** One row of the graph after indexing compatible contents. */
  lemma RowAfter(pruned: Db, after: Db, en: Engine, disk: Disk, toIndex: seq<Path>, f: Path, id: Id)
    requires Faithful(pruned, en) && Compatible(en, Recorded(after.files))
    requires FilesUpTo(after.files, pruned.files, disk, toIndex, |toIndex|)
    requires NodesUpTo(after.nodes, pruned.nodes, en, disk, toIndex, |toIndex|)
    requires f in after.files
    ensures var rows := Rows(en, f, after.files[f].contentHash.of);
      && (id in after.nodes && after.nodes[id].filePath == f <==> id in rows)
      && (id in rows ==> after.nodes[id] == rows[id])
    ensures id in after.nodes ==> after.nodes[id].filePath in after.files
  {
    hide Rows, Outcome, Layered, Sane, Owner;
    var texts := Recorded(after.files);
    assert toIndex[..|toIndex|] == toIndex;
    LayeredByOwner(en, disk.texts, toIndex, id);
    assert forall g :: g in toIndex ==> g in texts && texts[g] == disk.texts[g];
    assert forall g :: g in pruned.files && g !in toIndex ==> g in texts && texts[g] == pruned.files[g].contentHash.of;
    if f !in toIndex {
      assert FileFaithful(pruned, en, f);
      assert id in FileRows(pruned, f) <==> id in Rows(en, f, texts[f]);
    }
  }

  /** A sync of a faithful database ends faithful exactly when no two files it
      then records share a symbol's id and each names its own file. */
  lemma FaithfulIff(pruned: Db, after: Db, en: Engine, disk: Disk, toIndex: seq<Path>)
    requires Faithful(pruned, en) && Sane(after) && Extractable(en, disk, toIndex)
    requires forall f :: f in toIndex && f in pruned.files ==> pruned.files[f].contentHash != Digest(disk.texts[f])
    requires FilesUpTo(after.files, pruned.files, disk, toIndex, |toIndex|)
    requires Layerable(pruned, en, disk, toIndex) ==>
      NodesUpTo(after.nodes, pruned.nodes, en, disk, toIndex, |toIndex|)
    ensures Faithful(after, en) <==> Compatible(en, Recorded(after.files))
  {
    if Faithful(after, en) {
      FaithfulIsCompatible(after, en);
    }
    if Compatible(en, Recorded(after.files)) {
      CompatibleLayers(pruned, after, en, disk, toIndex);
      hide Outcome, Rows, Sane, NodesUpTo, FilesUpTo, Compatible;
      forall f | f in after.files ensures FileFaithful(after, en, f) {
        forall id { RowAfter(pruned, after, en, disk, toIndex, f, id); }
        SameAt(FileRows(after, f), Rows(en, f, after.files[f].contentHash.of));
        Succeeded(pruned, after, en, disk, toIndex, f);
      }
      forall id | id in after.nodes ensures after.nodes[id].filePath in after.files {
        InSomeFile(pruned, after, en, disk, toIndex, id);
      }
    }
  }

  lemma CompatibleLayers(pruned: Db, after: Db, en: Engine, disk: Disk, toIndex: seq<Path>)
    requires Faithful(pruned, en) && Compatible(en, Recorded(after.files))
    requires FilesUpTo(after.files, pruned.files, disk, toIndex, |toIndex|)
    requires forall f :: f in toIndex && f in disk.texts && f in pruned.files ==>
      pruned.files[f].contentHash != Digest(disk.texts[f])
    ensures Layerable(pruned, en, disk, toIndex)
  {
    hide Rows, Sane, FileFaithful;
    assert toIndex[..|toIndex|] == toIndex;
    var texts := Recorded(after.files);
    assert forall g :: g in toIndex ==> g in texts && texts[g] == disk.texts[g];
  }

  /** What is recorded was extracted. */
  lemma Succeeded(pruned: Db, after: Db, en: Engine, disk: Disk, toIndex: seq<Path>, f: Path)
    requires Faithful(pruned, en) && Extractable(en, disk, toIndex) && f in after.files
    requires FilesUpTo(after.files, pruned.files, disk, toIndex, |toIndex|)
    ensures var text := after.files[f].contentHash.of; Outcome(en, f, text, en.bytes(text)).Some?
  {
    hide Outcome, Rows, Sane;
    assert toIndex[..|toIndex|] == toIndex;
    if f !in toIndex {
      assert FileFaithful(pruned, en, f);
    }
  }

  lemma InSomeFile(pruned: Db, after: Db, en: Engine, disk: Disk, toIndex: seq<Path>, id: Id)
    requires Layerable(pruned, en, disk, toIndex)
    requires FilesUpTo(after.files, pruned.files, disk, toIndex, |toIndex|)
    requires NodesUpTo(after.nodes, pruned.nodes, en, disk, toIndex, |toIndex|)
    ensures id in after.nodes ==> after.nodes[id].filePath in after.files
  {
    hide Rows, Outcome, Layered, Sane, Owner;
    assert toIndex[..|toIndex|] == toIndex;
    LayeredPaths(en, disk.texts, toIndex);
  }

  lemma IsRebuilt(before: Db, pruned: Db, after: Db, en: Engine, disk: Disk, scan: seq<Path>)
    requires RowsTracked(before) && NamesOwnFile(en, Contents(disk, scan))
    requires pruned.files == map f | f in before.files && !Gone(disk, scan, f) :: before.files[f]
    requires pruned.nodes == Kept(before.nodes, GoneFiles(before.files, disk, scan))
    requires var toIndex := ToIndex(before.files, disk, scan);
      && FilesUpTo(after.files, pruned.files, disk, toIndex, |toIndex|)
      && (Layerable(pruned, en, disk, toIndex) ==> NodesUpTo(after.nodes, pruned.nodes, en, disk, toIndex, |toIndex|))
    ensures Rebuilt(before, after, en, disk, scan) && RowsTracked(after)
  {
    var toIndex := ToIndex(before.files, disk, scan);
    TrackedLayers(before, pruned, en, disk, scan);
    forall id | id in after.nodes ensures after.nodes[id].filePath in after.files {
      InSomeFile(pruned, after, en, disk, toIndex, id);
    }
    hide Rows, Outcome, Layered, Kept, GoneFiles, FilesUpTo, Layerable, ToIndex;
    assert toIndex[..|toIndex|] == toIndex;
    KeptTwice(before.nodes, GoneFiles(before.files, disk, scan), SetOfFiles(toIndex));
  }

  lemma TrackedLayers(before: Db, pruned: Db, en: Engine, disk: Disk, scan: seq<Path>)
    requires RowsTracked(before) && NamesOwnFile(en, Contents(disk, scan))
    requires pruned.files == map f | f in before.files && !Gone(disk, scan, f) :: before.files[f]
    requires pruned.nodes == Kept(before.nodes, GoneFiles(before.files, disk, scan))
    ensures Layerable(pruned, en, disk, ToIndex(before.files, disk, scan))
  {
    NewContent(before.files, pruned.files, disk, scan);
    hide Rows, Outcome, ToIndex;
    var texts := Contents(disk, scan);
    assert forall f :: f in ToIndex(before.files, disk, scan) ==> f in texts && texts[f] == disk.texts[f];
  }
}
