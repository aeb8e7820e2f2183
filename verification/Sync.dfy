/** `sync`: bring the index in line with the files on disk, reading and parsing
    only what may have changed. */
module Sync {
  import opened Wrappers
  import opened CodeGraph
  import opened Store
  import opened Reindex

  datatype Stat = Stat(size: nat, mtime: real)

  /** The files as they are during one sync: those that can be stat-ed, and
      the text of those that can be read. */
  datatype Disk = Disk(stats: map<Path, Stat>, texts: map<Path, string>)

  /** Language detection and extraction, as functions of path and content;
      `rawSafe` admits a file's text to the raw-content index. */
  datatype Engine = Engine(
    language: (Path, string) -> string, supported: string -> bool,
    extract: (Path, string, string) -> Extraction, rawSafe: (Path, string) -> bool, bytes: string -> nat)

  /** What `indexFile` stores for a file, if anything: an oversized file gets an
      empty record, a failed extraction nothing. */
  function Outcome(en: Engine, file: Path, text: string, size: nat): Option<Extraction> {
    var language := en.language(file, text);
    if size > MAX_FILE_SIZE then Some(Extraction([], [], 1))
    else if !en.supported(language) then None
    else
      var r := en.extract(file, text, language);
      if |r.nodes| > 0 || r.errors == 0 then Some(r) else None
  }

  // ---- databases that say what extraction says ------------------------------------

  function FileRows(db: Db, file: Path): map<Id, Node> {
    map id | id in db.nodes && db.nodes[id].filePath == file :: db.nodes[id]
  }

  /** The rows that extracting `text` from the file ends with. */
  function Rows(en: Engine, file: Path, text: string): map<Id, Node> {
    var r := Outcome(en, file, text, en.bytes(text));
    if r.Some? then RowsOf(ValidNodes(r.value.nodes)) else map[]
  }

  /** What is stored for a file is what extraction makes of it, all of it, if the file
      is small enough and its language supported, and if it makes anything of it. */
  lemma OutcomeIs(en: Engine, file: Path, text: string, size: nat)
    ensures var language := en.language(file, text);
      var r := en.extract(file, text, language);
      var made := |r.nodes| > 0 || r.errors == 0;
      && (Outcome(en, file, text, size).None? <==> size <= MAX_FILE_SIZE && (!en.supported(language) || !made))
      && (size <= MAX_FILE_SIZE && en.supported(language) && made ==> Outcome(en, file, text, size).value == r)
      && (size > MAX_FILE_SIZE ==> Outcome(en, file, text, size).value.nodes == [])
  {
  }

  /** The symbols of a file: of each id the last usable node extracted for it. */
  lemma RowsAre(en: Engine, file: Path, text: string, id: Id)
    ensures var language := en.language(file, text);
      var row := LastRow(en.extract(file, text, language).nodes, id);
      var used := row.Some? && en.bytes(text) <= MAX_FILE_SIZE && en.supported(language);
      (id in Rows(en, file, text) <==> used) && (used ==> Rows(en, file, text)[id] == row.value)
  {
    OutcomeIs(en, file, text, en.bytes(text));
    hide Outcome, RowsOf, ValidNodes, LastRow;
    var nodes := en.extract(file, text, en.language(file, text)).nodes;
    LastRowIs(nodes, id);
    NoRows(id);
    if nodes == [] {
      LastRowIs([], id);
    }
  }

  lemma NoRows(id: Id)
    ensures RowsOf(ValidNodes([])) == map[] && LastRow([], id) == None
  {
  }

  /** The content each file was recorded with. */
  function Recorded(files: map<Path, FileRecord>): map<Path, string> {
    map f | f in files :: files[f].contentHash.of
  }

  ghost predicate FileFaithful(db: Db, en: Engine, file: Path)
    requires file in db.files
  {
    var text := db.files[file].contentHash.of;
    Outcome(en, file, text, en.bytes(text)).Some? && FileRows(db, file) == Rows(en, file, text)
  }

  /** Every symbol belongs to a tracked file, and every tracked file has exactly
      the symbols extracted from the content it was recorded with. */
  ghost predicate Faithful(db: Db, en: Engine) {
    && Sane(db)
    && (forall id :: id in db.nodes ==> db.nodes[id].filePath in db.files)
    && (forall f :: f in db.files ==> FileFaithful(db, en, f))
  }

  /** What is extracted from these contents says that it belongs to its file. */
  ghost predicate NamesOwnFile(en: Engine, texts: map<Path, string>) {
    forall f, id :: f in texts && id in Rows(en, f, texts[f]) ==> Rows(en, f, texts[f])[id].filePath == f
  }

  /** No two of the files have a symbol of one id. */
  ghost predicate NoSharedId(en: Engine, texts: map<Path, string>) {
    forall f, g, id :: f in texts && g in texts && id in Rows(en, f, texts[f]) && id in Rows(en, g, texts[g]) ==> f == g
  }

  /** The contents can all be in the graph at once. */
  ghost predicate Compatible(en: Engine, texts: map<Path, string>) {
    NamesOwnFile(en, texts) && NoSharedId(en, texts)
  }

  /** Only compatible contents have a faithful database. */
  lemma FaithfulIsCompatible(db: Db, en: Engine)
    requires Faithful(db, en)
    ensures Compatible(en, Recorded(db.files))
  {
    hide Rows, Outcome, Sane;
    var texts := Recorded(db.files);
    forall f, id | f in texts && id in Rows(en, f, texts[f])
      ensures id in db.nodes && db.nodes[id] == Rows(en, f, texts[f])[id] && db.nodes[id].filePath == f
    {
      assert FileFaithful(db, en, f);
      assert id in FileRows(db, f);
    }
  }

  /** The graph a faithful database holds is fixed by its files and hashes. */
  lemma FaithfulDetermines(a: Db, b: Db, en: Engine)
    requires Faithful(a, en) && Faithful(b, en)
    requires a.files.Keys == b.files.Keys
    requires forall f :: f in a.files ==> a.files[f].contentHash == b.files[f].contentHash
    ensures a.nodes == b.nodes
  {
    hide Faithful;
    forall id
      ensures id in a.nodes <==> id in b.nodes
      ensures id in a.nodes ==> a.nodes[id] == b.nodes[id]
    {
      if id in a.nodes {
        SameRow(a, b, en, id);
      } else if id in b.nodes {
        SameRow(b, a, en, id);
      }
    }
  }

  lemma SameRow(a: Db, b: Db, en: Engine, id: Id)
    requires Faithful(a, en) && Faithful(b, en) && id in a.nodes
    requires a.files.Keys == b.files.Keys
    requires forall f :: f in a.files ==> a.files[f].contentHash == b.files[f].contentHash
    ensures id in b.nodes && b.nodes[id] == a.nodes[id]
  {
    var f := a.nodes[id].filePath;
    assert FileFaithful(a, en, f) && FileFaithful(b, en, f);
    assert id in FileRows(a, f);
    assert FileRows(b, f)[id] == FileRows(a, f)[id];
  }

  lemma RemoveKeepsFaithful(db: Db, en: Engine, file: Path)
    requires Faithful(db, en)
    ensures Faithful(RemoveFile(db, file), en)
  {
    hide Outcome, Keep, Rows, Sane, FileRows;
    var after := RemoveFile(db, file);
    assert Sane(db);
    RemovedSane(db, file);
    forall f | f in after.files ensures FileFaithful(after, en, f) {
      assert FileFaithful(db, en, f);
      OtherRows(db, file, f);
    }
  }

  lemma OtherRows(db: Db, file: Path, f: Path)
    requires f != file
    ensures FileRows(RemoveFile(db, file), f) == FileRows(db, f)
  {
  }

  /** Storing an extraction records the file's content and touches no other
      record. It keeps the database faithful if the content was recorded before,
      and else exactly when it takes no other file's symbol. */
  lemma StoreKeepsFaithful(db: Db, en: Engine, file: Path, src: Source, safe: bool)
    requires Faithful(db, en) && src.size == en.bytes(src.text)
    requires Outcome(en, file, src.text, src.size).Some?
    requires OwnFile(file, Outcome(en, file, src.text, src.size).value)
    ensures var ex := Outcome(en, file, src.text, src.size).value;
      var after := Stored(db, file, src, ex, safe);
      && file in after.files && after.files[file].contentHash == Digest(src.text)
      && after.files.Keys == db.files.Keys + {file}
      && (forall f :: f in db.files && f != file ==> after.files[f] == db.files[f])
      && (Faithful(after, en) <==>
            (file in db.files && db.files[file].contentHash == Digest(src.text)) || !Steals(db, file, ex))
  {
    var ex := Outcome(en, file, src.text, src.size).value;
    StoredFiles(db, file, src, ex, safe);
    if file in db.files && db.files[file].contentHash == Digest(src.text) {
      ContentApart(db, Stored(db, file, src, ex, safe), en);
    } else {
      FaithfulIffNoTheft(db, en, file, src, safe);
    }
  }

  /** The file table after storing, whatever was extracted. */
  lemma StoredFiles(db: Db, file: Path, src: Source, ex: Extraction, safe: bool)
    ensures var after := Stored(db, file, src, ex, safe);
      && file in after.files && after.files[file].contentHash == Digest(src.text)
      && after.files.Keys == db.files.Keys + {file}
      && forall f :: f in db.files && f != file ==> after.files[f] == db.files[f]
  {
    hide Regraphed;
    RegraphedNodes(db, file, ex);
  }

  /** Storing a changed file keeps the database faithful exactly when the file
      takes no other file's symbol. */
  lemma FaithfulIffNoTheft(db: Db, en: Engine, file: Path, src: Source, safe: bool)
    requires Faithful(db, en) && src.size == en.bytes(src.text)
    requires file in db.files ==> db.files[file].contentHash != Digest(src.text)
    requires Outcome(en, file, src.text, src.size).Some?
    requires OwnFile(file, Outcome(en, file, src.text, src.size).value)
    ensures var ex := Outcome(en, file, src.text, src.size).value;
      Faithful(Stored(db, file, src, ex, safe), en) <==> !Steals(db, file, ex)
  {
    hide Outcome, Keep, RowsOf, Keyed, NoDangling, Regraphed, Faithful, OwnFile, Steals;
    var ex := Outcome(en, file, src.text, src.size).value;
    var after := Stored(db, file, src, ex, safe);
    StoredSane(db, file, src, ex, safe) by { FaithfulSane(db, en); }
    RegraphedNodes(db, file, ex);
    if Steals(db, file, ex) {
      if Faithful(after, en) {
        TheftShows(db, after, en, file, ex);
      }
    } else {
      RegraphKeepsFaithful(db, after, en, file, ex);
    }
  }

  /** The file that lost a symbol no longer has what was extracted from it. */
  lemma TheftShows(db: Db, after: Db, en: Engine, file: Path, ex: Extraction)
    requires OwnFile(file, ex)
    requires after.nodes ==
      (if file in db.files then db.nodes - FileNodes(db, file) else db.nodes) + RowsOf(ValidNodes(ex.nodes))
    requires forall f :: f in db.files && f != file ==> f in after.files && after.files[f] == db.files[f]
    ensures Faithful(db, en) && Steals(db, file, ex) ==> !Faithful(after, en)
  {
    hide Outcome, Sane, RowsOf;
    if Faithful(db, en) && Steals(db, file, ex) {
      var ns := ValidNodes(ex.nodes);
      var n :| n in ns && n.id in db.nodes && db.nodes[n.id].filePath != file;
      var g := db.nodes[n.id].filePath;
      RowsOfKeys(ns);
      assert FileFaithful(db, en, g) && n.id in FileRows(db, g);
      assert after.nodes[n.id] == RowsOf(ns)[n.id] && RowsOf(ns)[n.id] in ns;
      assert n.id !in FileRows(after, g);
      assert !FileFaithful(after, en, g);
    }
  }

  lemma FaithfulSane(db: Db, en: Engine)
    requires Faithful(db, en)
    ensures Sane(db)
  {
  }

  /** Faithfulness is about nodes, edges and file records only. */
  lemma ContentApart(db: Db, after: Db, en: Engine)
    requires Faithful(db, en)
    requires after.nodes == db.nodes && after.edges == db.edges && after.files == db.files
    ensures Faithful(after, en)
  {
    forall f | f in after.files ensures FileFaithful(after, en, f) {
      assert FileFaithful(db, en, f);
      assert FileRows(after, f) == FileRows(db, f);
    }
  }

  lemma RegraphKeepsFaithful(db: Db, after: Db, en: Engine, file: Path, ex: Extraction)
    requires Faithful(db, en) && Sane(after)
    requires OwnFile(file, ex) && !Steals(db, file, ex)
    requires after.nodes ==
      (if file in db.files then db.nodes - FileNodes(db, file) else db.nodes) + RowsOf(ValidNodes(ex.nodes))
    requires file in after.files && after.files.Keys == db.files.Keys + {file}
    requires forall f :: f in db.files && f != file ==> after.files[f] == db.files[f]
    requires var text := after.files[file].contentHash.of; Outcome(en, file, text, en.bytes(text)) == Some(ex)
    ensures Faithful(after, en)
  {
    hide Outcome, Keyed, NoDangling, RowsOf, Steals, OwnFile, FileRows;
    NewRows(db, after, file, ex);
    forall f | f in after.files && f != file ensures FileFaithful(after, en, f) {
      assert FileFaithful(db, en, f);
    }
  }

  /** By file, the rows after storing are the extracted ones and the old ones. */
  lemma NewRows(db: Db, after: Db, file: Path, ex: Extraction)
    requires OwnFile(file, ex) && !Steals(db, file, ex)
    requires forall id :: id in db.nodes ==> db.nodes[id].filePath in db.files
    requires after.nodes ==
      (if file in db.files then db.nodes - FileNodes(db, file) else db.nodes) + RowsOf(ValidNodes(ex.nodes))
    ensures FileRows(after, file) == RowsOf(ValidNodes(ex.nodes))
    ensures forall f :: f != file ==> FileRows(after, f) == FileRows(db, f)
    ensures forall id :: id in after.nodes ==> after.nodes[id].filePath in db.files.Keys + {file}
  {
    RowsOfKeys(ValidNodes(ex.nodes));
    hide RowsOf, Insertable, ValidNodes;
    Overlay(db, after, file, RowsOf(ValidNodes(ex.nodes)));
  }

  lemma Overlay(db: Db, after: Db, file: Path, rows: map<Id, Node>)
    requires forall id :: id in rows ==> rows[id].filePath == file
    requires forall id :: id in rows && id in db.nodes ==> db.nodes[id].filePath == file
    requires forall id :: id in db.nodes ==> db.nodes[id].filePath in db.files
    requires after.nodes == (if file in db.files then db.nodes - FileNodes(db, file) else db.nodes) + rows
    ensures FileRows(after, file) == rows
    ensures forall f :: f != file ==> FileRows(after, f) == FileRows(db, f)
    ensures forall id :: id in after.nodes ==> after.nodes[id].filePath in db.files.Keys + {file}
  {
    forall id
      ensures id in after.nodes && after.nodes[id].filePath == file <==> id in rows
      ensures id in rows ==> after.nodes[id] == rows[id]
      ensures id in after.nodes && after.nodes[id].filePath != file <==> id in db.nodes && db.nodes[id].filePath != file
      ensures id in after.nodes && id !in rows ==> id in db.nodes && after.nodes[id] == db.nodes[id]
    {
      OverlayRow(db, after, file, rows, id);
    }
    hide FileNodes;
    forall f | f != file ensures FileRows(after, f) == FileRows(db, f) {
      SameRowsOf(db, after, f);
    }
  }

  lemma SameRowsOf(db: Db, after: Db, f: Path)
    requires forall id :: id in db.nodes && db.nodes[id].filePath == f ==>
      id in after.nodes && after.nodes[id] == db.nodes[id]
    requires forall id :: id in after.nodes && after.nodes[id].filePath == f ==>
      id in db.nodes && db.nodes[id].filePath == f
    ensures FileRows(after, f) == FileRows(db, f)
  {
  }

  /** What the overlay does to one id. */
  lemma OverlayRow(db: Db, after: Db, file: Path, rows: map<Id, Node>, id: Id)
    requires id in rows ==> rows[id].filePath == file
    requires id in rows && id in db.nodes ==> db.nodes[id].filePath == file
    requires id in db.nodes ==> db.nodes[id].filePath in db.files
    requires after.nodes == (if file in db.files then db.nodes - FileNodes(db, file) else db.nodes) + rows
    ensures id in after.nodes && after.nodes[id].filePath == file <==> id in rows
    ensures id in rows ==> after.nodes[id] == rows[id]
    ensures id in after.nodes && after.nodes[id].filePath != file <==> id in db.nodes && db.nodes[id].filePath != file
    ensures id in after.nodes && id !in rows ==> id in db.nodes && after.nodes[id] == db.nodes[id]
  {
  }
}
