/** Incremental against from-scratch indexing. */
module FromScratch {
  import opened Wrappers
  import opened CodeGraph
  import opened Store
  import opened NodeCache
  import opened Reindex
  import opened Sync
  import opened Layers
  import opened Orchestrator
  import opened SourceSync
  import opened FullIndex
  import opened Records

  /** Two faithful databases up to date with the same disk, however each got
      there, track the same files with the same digests and hold the same
      symbols. */
  lemma SameDiskSameGraph(a: Db, b: Db, en: Engine, disk: Disk, scan: seq<Path>)
    requires Faithful(a, en) && UpToDate(a.files, disk, scan)
    requires Faithful(b, en) && UpToDate(b.files, disk, scan)
    ensures a.files.Keys == b.files.Keys && a.nodes == b.nodes
    ensures forall f :: f in a.files ==> a.files[f].contentHash == b.files[f].contentHash
  {
    FaithfulDetermines(a, b, en);
  }

  /** Whenever a changed file has an id, the last of the files scanned that has
      it is the last of the changed ones that has it. */
  ghost predicate SameOwners(en: Engine, texts: map<Path, string>, all: seq<Path>, changed: seq<Path>)
    requires forall f :: f in all || f in changed ==> f in texts
  {
    forall id :: Owner(en, texts, changed, id).Some? ==> Owner(en, texts, all, id) == Owner(en, texts, changed, id)
  }

  /** What an up-to-date sync leaves alone was extracted from what is on disk. */
  lemma UnchangedFile(db: Db, en: Engine, disk: Disk, scan: seq<Path>, f: Path)
    requires Faithful(db, en) && Workable(db.files, en, disk, scan) && !BlindSpot(db.files, disk, scan)
    requires f in scan && f in disk.texts && f !in ToIndex(db.files, disk, scan)
    ensures f in db.files && f !in GoneFiles(db.files, disk, scan)
    ensures FileRows(db, f) == Rows(en, f, disk.texts[f])
  {
    hide Outcome, Rows, Sane, FileRows, Unmoved;
    assert FileFaithful(db, en, f);
  }

  /** A row that a sync leaves alone belongs to such a file. */
  lemma KeptRow(db: Db, en: Engine, disk: Disk, scan: seq<Path>, id: Id)
    requires Faithful(db, en) && Workable(db.files, en, disk, scan)
    requires id in Kept(db.nodes, GoneFiles(db.files, disk, scan) + SetOfFiles(ToIndex(db.files, disk, scan)))
    ensures var f := db.nodes[id].filePath; f in scan && f in disk.texts && f !in ToIndex(db.files, disk, scan)
  {
    hide Outcome, Rows, Sane, FileFaithful, Unmoved;
  }

  /** One id in the graph of an incremental sync and of a sync from nothing. */
  lemma SameRowIff(db: Db, inc: Db, scratch: Db, en: Engine, disk: Disk, scan: seq<Path>, id: Id)
    requires Faithful(db, en) && Workable(db.files, en, disk, scan) && !BlindSpot(db.files, disk, scan)
    requires NamesOwnFile(en, Contents(disk, scan))
    requires Rebuilt(db, inc, en, disk, scan) && Rebuilt(Nothing(), scratch, en, disk, scan)
    ensures id in inc.nodes <==> id in scratch.nodes
    ensures var all, changed := ToIndex(map[], disk, scan), ToIndex(db.files, disk, scan);
      && (forall f :: f in all || f in changed ==> f in disk.texts)
      && (id in inc.nodes ==>
           (inc.nodes[id] == scratch.nodes[id] <==>
            (Owner(en, disk.texts, changed, id).Some? ==>
             Owner(en, disk.texts, all, id) == Owner(en, disk.texts, changed, id))))
  {
    var all, changed := ToIndex(map[], disk, scan), ToIndex(db.files, disk, scan);
    var kept := Kept(db.nodes, GoneFiles(db.files, disk, scan) + SetOfFiles(changed));
    RebuiltNodes(db, inc, scratch, en, disk, scan);
    hide *;
    LayeredByOwner(en, disk.texts, changed, id);
    LayeredByOwner(en, disk.texts, all, id);
    OwnedPath(db.files, en, disk, scan, id);
    if id in kept {
      KeptIs(db, disk, scan, id);
      KeptRow(db, en, disk, scan, id);
      UnchangedFile(db, en, disk, scan, db.nodes[id].filePath);
      FileRow(db, db.nodes[id].filePath, id);
    }
    var o := Owner(en, disk.texts, all, id);
    if o.Some? && o.value !in changed {
      UnchangedFile(db, en, disk, scan, o.value);
      FileRow(db, o.value, id);
      KeptIs(db, disk, scan, id);
    }
  }

  lemma RebuiltNodes(db: Db, inc: Db, scratch: Db, en: Engine, disk: Disk, scan: seq<Path>)
    requires Rebuilt(db, inc, en, disk, scan) && Rebuilt(Nothing(), scratch, en, disk, scan)
    ensures forall f :: f in ToIndex(map[], disk, scan) <==> f in scan && f in disk.texts
    ensures forall f :: f in ToIndex(db.files, disk, scan) ==> f in ToIndex(map[], disk, scan)
    ensures var changed := ToIndex(db.files, disk, scan);
      inc.nodes ==
        Kept(db.nodes, GoneFiles(db.files, disk, scan) + SetOfFiles(changed)) + Layered(en, disk.texts, changed)
    ensures scratch.nodes == Layered(en, disk.texts, ToIndex(map[], disk, scan))
  {
    hide Layered, Changed, Scanned;
    AllScanned(db.files, disk, scan);
  }

  lemma KeptIs(db: Db, disk: Disk, scan: seq<Path>, id: Id)
    ensures var kept := Kept(db.nodes, GoneFiles(db.files, disk, scan) + SetOfFiles(ToIndex(db.files, disk, scan)));
      && (id in kept <==> id in db.nodes && db.nodes[id].filePath !in GoneFiles(db.files, disk, scan)
                          && db.nodes[id].filePath !in ToIndex(db.files, disk, scan))
      && (id in kept ==> kept[id] == db.nodes[id])
  {
    hide GoneFiles, ToIndex;
  }

  lemma OwnedPath(files: map<Path, FileRecord>, en: Engine, disk: Disk, scan: seq<Path>, id: Id)
    requires NamesOwnFile(en, Contents(disk, scan))
    ensures forall f :: f in scan && f in disk.texts && id in Rows(en, f, disk.texts[f]) ==>
      Rows(en, f, disk.texts[f])[id].filePath == f
  {
    hide Rows;
    var texts := Contents(disk, scan);
    assert forall f :: f in scan && f in disk.texts ==> f in texts && texts[f] == disk.texts[f];
  }

  lemma FileRow(db: Db, f: Path, id: Id)
    ensures id in FileRows(db, f) <==> id in db.nodes && db.nodes[id].filePath == f
    ensures id in FileRows(db, f) ==> FileRows(db, f)[id] == db.nodes[id]
  {
  }

  lemma AllScanned(files: map<Path, FileRecord>, disk: Disk, scan: seq<Path>)
    ensures forall f :: f in ToIndex(map[], disk, scan) <==> f in scan && f in disk.texts
    ensures forall f :: f in ToIndex(files, disk, scan) ==> f in ToIndex(map[], disk, scan)
  {
  }

  function Nothing(): Db {
    Db(map[], [], map[], map[])
  }

  /** Incremental and from-scratch indexing leave the same symbols exactly when
      the files that share ids come out in the same order of precedence. */
  lemma SameGraphIff(db: Db, inc: Db, scratch: Db, en: Engine, disk: Disk, scan: seq<Path>)
    requires Faithful(db, en) && Workable(db.files, en, disk, scan) && !BlindSpot(db.files, disk, scan)
    requires NamesOwnFile(en, Contents(disk, scan))
    requires Rebuilt(db, inc, en, disk, scan) && Rebuilt(Nothing(), scratch, en, disk, scan)
    ensures var all, changed := ToIndex(map[], disk, scan), ToIndex(db.files, disk, scan);
      && (forall f :: f in all || f in changed ==> f in disk.texts)
      && (inc.nodes == scratch.nodes <==> SameOwners(en, disk.texts, all, changed))
  {
    AllScanned(db.files, disk, scan);
    forall id { SameRowIff(db, inc, scratch, en, disk, scan, id); }
    hide Faithful, Workable, BlindSpot, NamesOwnFile, Rebuilt, Owner, ToIndex, Rows, Contents;
    var all, changed := ToIndex(map[], disk, scan), ToIndex(db.files, disk, scan);
    if SameOwners(en, disk.texts, all, changed) {
      SameAt(inc.nodes, scratch.nodes);
    }
    if inc.nodes == scratch.nodes {
      forall id | Owner(en, disk.texts, changed, id).Some?
        ensures Owner(en, disk.texts, all, id) == Owner(en, disk.texts, changed, id)
      {
        OwnedIsThere(db, inc, en, disk, scan, id);
      }
    }
  }

  lemma OwnedIsThere(db: Db, inc: Db, en: Engine, disk: Disk, scan: seq<Path>, id: Id)
    requires Rebuilt(db, inc, en, disk, scan)
    requires forall f :: f in ToIndex(db.files, disk, scan) ==> f in disk.texts
    requires Owner(en, disk.texts, ToIndex(db.files, disk, scan), id).Some?
    ensures id in inc.nodes
  {
    hide Rows, Owner, Layered;
    LayeredByOwner(en, disk.texts, ToIndex(db.files, disk, scan), id);
  }

  /** On a disk where everything can be extracted, `indexAll` does from nothing
      what a sync would. */
  lemma FirstIndex(scratch: Db, en: Engine, disk: Disk, scan: seq<Path>)
    requires Workable(map[], en, disk, scan) && Sane(scratch)
    requires scratch == BulkRun(Nothing(), en, disk, scan)
    ensures UpToDate(scratch.files, disk, scan)
    ensures Faithful(scratch, en) <==> Compatible(en, Recorded(scratch.files))
    ensures NamesOwnFile(en, Contents(disk, scan)) ==> Rebuilt(Nothing(), scratch, en, disk, scan)
  {
    var toIndex := ToIndex(map[], disk, scan);
    SameOutcomes(en, disk, scan);
    BulkIsRun(Nothing(), en, disk, scan);
    WorkableExtracts(map[], en, disk, scan);
    RunTables(Nothing(), en, disk, toIndex);
    NothingFaithful(en);
    NoBlindSpot(disk, scan);
    NothingGone(disk, scan);
    hide Workable, UpToDate, Faithful, Compatible, NamesOwnFile, Rebuilt, FilesUpTo, NodesUpTo, Layerable, BulkRun,
      IndexedRun, ToIndex, BlindSpot, Settled, Kept, GoneFiles, Extractable, Sane;
    Reconciled(map[], map[], scratch.files, en, disk, scan);
    Synced(Nothing(), Nothing(), scratch, en, disk, scan);
  }

  lemma SameOutcomes(en: Engine, disk: Disk, scan: seq<Path>)
    requires Workable(map[], en, disk, scan)
    ensures forall f :: f in scan && Present(disk, f) ==> SameOutcome(en, disk, f)
  {
    forall f | f in scan && Present(disk, f) ensures SameOutcome(en, disk, f) {
      SameOutcomeIff(en, disk, f);
    }
  }

  lemma NothingGone(disk: Disk, scan: seq<Path>)
    ensures (map f | f in Nothing().files && !Gone(disk, scan, f) :: Nothing().files[f]) == map[]
    ensures Kept(Nothing().nodes, GoneFiles(Nothing().files, disk, scan)) == map[]
    ensures RowsTracked(Nothing())
  {
  }

  /** Syncing a faithful index, and indexing all from nothing: the files and digests
      always agree; each graph is faithful exactly when the contents can all be
      in it at once, and then they are the same; and in any case they are the
      same exactly when files that share ids come in the same precedence. */
  method SyncEqualsScratch(db: Db, en: Engine, disk: Disk, scan: seq<Path>) returns (incremental: Db, scratch: Db)
    requires Faithful(db, en)
    requires Workable(db.files, en, disk, scan) && !BlindSpot(db.files, disk, scan)
    requires Workable(map[], en, disk, scan)
    ensures UpToDate(incremental.files, disk, scan) && UpToDate(scratch.files, disk, scan)
    ensures Recorded(incremental.files) == Recorded(scratch.files) == Contents(disk, scan)
    ensures Faithful(incremental, en) <==> Compatible(en, Contents(disk, scan))
    ensures Faithful(scratch, en) <==> Compatible(en, Contents(disk, scan))
    ensures Compatible(en, Contents(disk, scan)) ==> incremental.nodes == scratch.nodes
    ensures Documented(scratch, en) && (Documented(db, en) ==> Documented(incremental, en))
    ensures NamesOwnFile(en, Contents(disk, scan)) ==>
      var all, changed := ToIndex(map[], disk, scan), ToIndex(db.files, disk, scan);
      && (forall f :: f in all || f in changed ==> f in disk.texts)
      && (incremental.nodes == scratch.nodes <==> SameOwners(en, disk.texts, all, changed))
  {
    hide Faithful, Rebuilt, ToIndex, SameOwners, Sane, RowsTracked, Settled, BulkRun, Documented, OldOrMatching;
    FaithfulSane(db, en);
    FaithfulTracked(db, en);
    var q := new QueryBuilder(db);
    var a, m, r := SyncSources(q, en, disk, scan);
    incremental := q.db;
    var p := new QueryBuilder(Nothing());
    NothingDocumented(p.db, en);
    IndexEverything(p, en, disk, scan);
    scratch := p.db;
    FirstIndex(scratch, en, disk, scan);
    CurrentContents(db.files, incremental.files, en, disk, scan);
    CurrentContents(db.files, scratch.files, en, disk, scan);
    hide Workable, BlindSpot, Compatible, NamesOwnFile, Recorded, Contents;
    if Compatible(en, Contents(disk, scan)) {
      SameDiskSameGraph(incremental, scratch, en, disk, scan);
    }
    if NamesOwnFile(en, Contents(disk, scan)) {
      SameGraphIff(db, incremental, scratch, en, disk, scan);
    }
  }

  lemma NothingFaithful(en: Engine)
    ensures Faithful(Nothing(), en) && Sane(Nothing())
  {
  }

  lemma NoBlindSpot(disk: Disk, scan: seq<Path>)
    ensures !BlindSpot(map[], disk, scan)
  {
  }

  /** Up to date, the file table records what the disk holds. */
  lemma CurrentContents(
    before: map<Path, FileRecord>, files: map<Path, FileRecord>, en: Engine, disk: Disk, scan: seq<Path>)
    requires Workable(before, en, disk, scan) && UpToDate(files, disk, scan)
    ensures Recorded(files) == Contents(disk, scan)
  {
    hide Outcome;
    forall f ensures f in Recorded(files) <==> f in Contents(disk, scan) {
    }
  }

  // ---- two workflow files that name one tool ---------------------------------------------

  /** Workflow files with one rule, which runs bwa if the text says so. */
  function Workflows(): Engine {
    Engine((f, text) => "snakemake", language => true,
      (f, text, language) => if text == "bwa" then RuleRunningBwa(f) else Extraction([], [], 0),
      (f, language) => true, text => |text|)
  }

  function Known(text: string): FileRecord {
    FileRecord(Digest(text), "snakemake", |text|, 0.0, 2)
  }

  /** `b.smk` alone, indexed. */
  function OnlyB(): Db {
    Db(map["b.smk" := Rule("b.smk"), "workflow-tool:bwa" := Bwa("b.smk")], [Runs("b.smk")],
       map["b.smk" := Known("bwa")], map[])
  }

  /** `a.smk` has been added, and runs the same tool. */
  function BothRunBwa(): Disk {
    Disk(map["a.smk" := Stat(3, 1.0), "b.smk" := Stat(3, 0.0)], map["a.smk" := "bwa", "b.smk" := "bwa"])
  }

  lemma TwoRows(a: Node, b: Node)
    requires Insertable(a) && Insertable(b)
    ensures RowsOf(ValidNodes([a, b])) == map[a.id := a, b.id := b]
  {
    hide Insertable;
    assert [a, b][..1] == [a] && [a][..0] == [];
    assert ValidNodes([a]) == [a];
    assert ValidNodes([a, b]) == [a] + [b];
    assert ([a] + [b])[..1] == [a];
    assert RowsOf([a]) == map[a.id := a];
  }

  lemma BwaRows(f: Path)
    requires f != ""
    ensures Outcome(Workflows(), f, "bwa", 3) == Some(RuleRunningBwa(f))
    ensures Rows(Workflows(), f, "bwa") == map[f := Rule(f), "workflow-tool:bwa" := Bwa(f)]
  {
    TwoRows(Rule(f), Bwa(f));
    hide RowsOf, ValidNodes;
    assert |RuleRunningBwa(f).nodes| > 0;
  }

  lemma TwoPaths()
    ensures "a.smk" != "b.smk" && "a.smk" != "" && "b.smk" != ""
    ensures "a.smk" != "workflow-tool:bwa" && "b.smk" != "workflow-tool:bwa"
  {
    assert "a.smk"[0] == 'a' && "b.smk"[0] == 'b';
  }

  lemma OnlyBFaithful()
    ensures Faithful(OnlyB(), Workflows())
  {
    TwoPaths();
    BwaRows("b.smk");
    hide Outcome, Rows;
    assert OnlyB().edges == [Runs("b.smk")];
    assert FileRows(OnlyB(), "b.smk") == OnlyB().nodes;
  }

  lemma BothWorkable(files: map<Path, FileRecord>)
    ensures Workable(files, Workflows(), BothRunBwa(), ["a.smk", "b.smk"])
  {
    BothReadable();
    TwoPaths();
    BwaRows("a.smk");
    BwaRows("b.smk");
    hide Outcome, Rows, Changed, Workflows, BothRunBwa;
  }

  lemma BothReadable()
    ensures var disk := BothRunBwa();
      && disk.texts.Keys == {"a.smk", "b.smk"} == disk.stats.Keys
      && (forall f :: f in disk.texts ==> disk.texts[f] == "bwa" && disk.stats[f].size == 3)
      && Workflows().bytes("bwa") == 3
  {
  }

  lemma ScannedTwo(a: Path, b: Path, p: Path -> bool)
    ensures Scanned([a, b], p) == (if p(a) then [a] else []) + (if p(b) then [b] else [])
  {
    assert [a, b][..1] == [a] && [a][..0] == [];
    assert Scanned([a], p) == [] + if p(a) then [a] else [];
  }

  /** To a sync from nothing both files are new, to the other one only `a.smk`. */
  lemma BothChanged()
    ensures Changed(map[], BothRunBwa(), "a.smk") && Changed(map[], BothRunBwa(), "b.smk")
    ensures Changed(OnlyB().files, BothRunBwa(), "a.smk") && !Changed(OnlyB().files, BothRunBwa(), "b.smk")
    ensures !BlindSpot(OnlyB().files, BothRunBwa(), ["a.smk", "b.smk"])
  {
    TwoPaths();
    hide Rule, Bwa, Runs;
    assert Unmoved(BothRunBwa().stats["b.smk"], OnlyB().files["b.smk"]);
  }

  lemma WhoIsChanged()
    ensures ToIndex(map[], BothRunBwa(), ["a.smk", "b.smk"]) == ["a.smk", "b.smk"]
    ensures ToIndex(OnlyB().files, BothRunBwa(), ["a.smk", "b.smk"]) == ["a.smk"]
  {
    BothChanged();
    hide Changed, OnlyB, BothRunBwa, Scanned, BlindSpot;
    ScannedTwo("a.smk", "b.smk", IsChanged(map[], BothRunBwa()));
    ScannedTwo("a.smk", "b.smk", IsChanged(OnlyB().files, BothRunBwa()));
  }

  lemma OwnerOfTwo(en: Engine, texts: map<Path, string>, a: Path, b: Path, id: Id)
    requires a in texts && b in texts && a != b
    requires id in Rows(en, a, texts[a]) && id in Rows(en, b, texts[b])
    ensures Owner(en, texts, [a, b], id) == Some(b) && Owner(en, texts, [a], id) == Some(a)
  {
    assert [a, b][..1] == [a];
  }

  lemma WhoOwnsBwa()
    ensures var en, texts := Workflows(), BothRunBwa().texts;
      && Owner(en, texts, ["a.smk", "b.smk"], "workflow-tool:bwa") == Some("b.smk")
      && Owner(en, texts, ["a.smk"], "workflow-tool:bwa") == Some("a.smk")
  {
    TwoPaths();
    BwaRows("a.smk");
    BwaRows("b.smk");
    hide Rows, Outcome, Workflows;
    OwnerOfTwo(Workflows(), BothRunBwa().texts, "a.smk", "b.smk", "workflow-tool:bwa");
  }

  lemma NamesTwo(en: Engine, texts: map<Path, string>, a: Path, b: Path, id: Id)
    requires texts.Keys == {a, b} && a != b
    requires forall x :: x in Rows(en, a, texts[a]) ==> Rows(en, a, texts[a])[x].filePath == a
    requires forall x :: x in Rows(en, b, texts[b]) ==> Rows(en, b, texts[b])[x].filePath == b
    requires id in Rows(en, a, texts[a]) && id in Rows(en, b, texts[b])
    ensures NamesOwnFile(en, texts) && !Compatible(en, texts)
  {
    hide Rows;
  }

  lemma BothNameThemselves()
    ensures NamesOwnFile(Workflows(), Contents(BothRunBwa(), ["a.smk", "b.smk"]))
    ensures !Compatible(Workflows(), Contents(BothRunBwa(), ["a.smk", "b.smk"]))
  {
    TwoPaths();
    BwaRows("a.smk");
    BwaRows("b.smk");
    hide Rows, Outcome, Workflows, RuleRunningBwa, NamesOwnFile, Compatible;
    var texts := map["a.smk" := "bwa", "b.smk" := "bwa"];
    assert Contents(BothRunBwa(), ["a.smk", "b.smk"]) == texts;
    NamesTwo(Workflows(), texts, "a.smk", "b.smk", "workflow-tool:bwa");
  }

  /** Adding a workflow file that names a known tool: everything is up to date,
      and yet neither graph is faithful and the two are different. */
  method SharedToolDiffers() returns (incremental: Db, scratch: Db)
    ensures UpToDate(incremental.files, BothRunBwa(), ["a.smk", "b.smk"])
    ensures Recorded(incremental.files) == Recorded(scratch.files)
    ensures !Faithful(incremental, Workflows()) && !Faithful(scratch, Workflows())
    ensures incremental.nodes != scratch.nodes
  {
    OnlyBFaithful();
    BothWorkable(OnlyB().files);
    BothWorkable(map[]);
    BothChanged();
    WhoIsChanged();
    WhoOwnsBwa();
    BothNameThemselves();
    hide *;
    incremental, scratch := SyncEqualsScratch(OnlyB(), Workflows(), BothRunBwa(), ["a.smk", "b.smk"]);
    NotSame(Workflows(), BothRunBwa().texts, ["a.smk", "b.smk"], ["a.smk"], "workflow-tool:bwa");
  }

  lemma NotSame(en: Engine, texts: map<Path, string>, all: seq<Path>, changed: seq<Path>, id: Id)
    requires forall f :: f in all || f in changed ==> f in texts
    requires Owner(en, texts, changed, id).Some? && Owner(en, texts, all, id) != Owner(en, texts, changed, id)
    ensures !SameOwners(en, texts, all, changed)
  {
  }

  // ---- a change nobody sees ------------------------------------------------------------------

  /** `b.smk` with another text of the same length and the old time stamp. */
  function RewrittenInPlace(): Disk {
    Disk(map["b.smk" := Stat(3, 0.0)], map["b.smk" := "STA"])
  }

  lemma UnseenSetting()
    ensures BlindSpot(OnlyB().files, RewrittenInPlace(), ["b.smk"])
    ensures Workable(OnlyB().files, Workflows(), RewrittenInPlace(), ["b.smk"])
  {
    hide Rule, Bwa, Runs, Outcome;
    assert "bwa"[0] == 'b' && "STA"[0] == 'S';
    var files, disk := OnlyB().files, RewrittenInPlace();
    assert "b.smk" in ["b.smk"];
    assert Unmoved(disk.stats["b.smk"], files["b.smk"]) && files["b.smk"].contentHash == Digest("bwa");
    assert Workflows().bytes("STA") == 3;
  }

  /** Sync does not see it, and the file stays recorded with its old content. */
  method UnseenChange() returns (after: Db)
    ensures BlindSpot(OnlyB().files, RewrittenInPlace(), ["b.smk"])
    ensures !UpToDate(after.files, RewrittenInPlace(), ["b.smk"])
  {
    OnlyBFaithful();
    FaithfulSane(OnlyB(), Workflows());
    UnseenSetting();
    hide *;
    var q := new QueryBuilder(OnlyB());
    var a, m, r := SyncSources(q, Workflows(), RewrittenInPlace(), ["b.smk"]);
    after := q.db;
  }
}
