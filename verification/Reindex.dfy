/** What storing one file's extraction does to the tables: delete what the file
    had, insert what it has now, and replay the edges other files had into it. */
module Reindex {
  import opened Wrappers
  import opened CodeGraph
  import opened Store

  const MAX_FILE_SIZE: nat := 1024 * 1024

  /** What parsing a file yields; `errors` counts the problems reported. */
  datatype Extraction = Extraction(nodes: seq<Node>, edges: seq<Edge>, errors: nat)

  /** What is stored for a file besides its graph. */
  datatype Source = Source(text: string, language: string, size: nat, mtime: real)

  function ValidNodes(ns: seq<Node>): (r: seq<Node>)
    ensures forall n :: n in r <==> n in ns && Insertable(n)
  {
    if ns == [] then []
    else
      assert ns == ns[..|ns| - 1] + [ns[|ns| - 1]];
      var rest := ValidNodes(ns[..|ns| - 1]);
      if Insertable(ns[|ns| - 1]) then rest + [ns[|ns| - 1]] else rest
  }

  function Ids(ns: seq<Node>): set<Id> {
    set n | n in ns :: n.id
  }

  /** Extracted edges between nodes that were actually inserted. */
  function OwnEdges(ids: set<Id>, es: seq<Edge>): (r: seq<Edge>)
    ensures forall e :: multiset(r)[e] == if e.source in ids && e.target in ids then multiset(es)[e] else 0
    ensures forall e :: e in r <==> e in es && e.source in ids && e.target in ids
  {
    if es == [] then []
    else
      assert es == es[..|es| - 1] + [es[|es| - 1]];
      var e := es[|es| - 1];
      var rest := OwnEdges(ids, es[..|es| - 1]);
      if e.source in ids && e.target in ids then rest + [e] else rest
  }

  /** An edge, `contains` apart, from a symbol of another file into `file`. */
  predicate CrossFileInto(db: Db, file: Path, e: Edge) {
    && e.kind != Contains && e.source in db.nodes && e.target in db.nodes
    && db.nodes[e.target].filePath == file && db.nodes[e.source].filePath != file
  }

  /** `getCrossFileIncomingEdgesWithTarget`. */
  function CrossFileRows(db: Db, file: Path, es: seq<Edge>): (r: seq<Edge>)
    ensures forall e :: multiset(r)[e] == if CrossFileInto(db, file, e) then multiset(es)[e] else 0
    ensures forall e :: e in r <==> e in es && CrossFileInto(db, file, e)
  {
    if es == [] then []
    else
      assert es == es[..|es| - 1] + [es[|es| - 1]];
      var rest := CrossFileRows(db, file, es[..|es| - 1]);
      if CrossFileInto(db, file, es[|es| - 1]) then rest + [es[|es| - 1]] else rest
  }

  /** The new node that stands for an old one: the last of its kind and name. */
  function FindTarget(ns: seq<Node>, kind: NodeKind, name: string): (r: Option<Id>)
    ensures r.Some? <==> exists n :: n in ns && n.kind == kind && n.name == name
    ensures r.Some? ==> exists n :: n in ns && n.kind == kind && n.name == name && n.id == r.value
  {
    if ns == [] then None
    else
      assert ns == ns[..|ns| - 1] + [ns[|ns| - 1]];
      var n := ns[|ns| - 1];
      if n.kind == kind && n.name == name then Some(n.id) else FindTarget(ns[..|ns| - 1], kind, name)
  }

  /** The node at `i` is the last with this kind and name. */
  ghost predicate LastMatch(ns: seq<Node>, kind: NodeKind, name: string, i: nat) {
    && i < |ns| && ns[i].kind == kind && ns[i].name == name
    && forall j :: i < j < |ns| ==> ns[j].kind != kind || ns[j].name != name
  }

  /** Of several new nodes with the kind and the name it is the last. */
  lemma {:induction false} TargetIsLast(ns: seq<Node>, kind: NodeKind, name: string, i: nat)
    requires LastMatch(ns, kind, name, i)
    ensures FindTarget(ns, kind, name) == Some(ns[i].id)
  {
    hide FindTarget;
    var n := |ns| - 1;
    FindNext(ns, kind, name);
    if i < n {
      TargetIsLast(ns[..n], kind, name, i);
    }
  }

  lemma FindNext(ns: seq<Node>, kind: NodeKind, name: string)
    requires ns != []
    ensures var n := ns[|ns| - 1];
      FindTarget(ns, kind, name) ==
      if n.kind == kind && n.name == name then Some(n.id) else FindTarget(ns[..|ns| - 1], kind, name)
  {
  }

  /** The node that now stands for the old target of `e`. */
  function NewTarget(db: Db, ns: seq<Node>, e: Edge): Option<Id>
    requires e.target in db.nodes
  {
    FindTarget(ns, db.nodes[e.target].kind, db.nodes[e.target].name)
  }

  /** The rows, pointed at the new nodes; those without one are dropped. */
  function Replay(db: Db, ns: seq<Node>, rows: seq<Edge>): (r: seq<Edge>)
    requires forall e :: e in rows ==> e.target in db.nodes
    ensures forall x :: x in r <==>
      exists e :: e in rows && NewTarget(db, ns, e).Some? && x == e.(target := NewTarget(db, ns, e).value)
  {
    if rows == [] then []
    else
      var init, e := rows[..|rows| - 1], rows[|rows| - 1];
      assert rows == init + [e];
      var rest := Replay(db, ns, init);
      if NewTarget(db, ns, e).Some? then rest + [e.(target := NewTarget(db, ns, e).value)] else rest
  }

  /** The graph after storing an extraction for a file not stored as is. */
  function Regraphed(db: Db, file: Path, ex: Extraction): Db {
    var tracked := file in db.files;
    var rows := if tracked then CrossFileRows(db, file, db.edges) else [];
    var ns := ValidNodes(ex.nodes);
    var inserted := PutNodes(if tracked then RemoveFile(db, file) else db, ns);
    AddEdges(AddEdges(inserted, OwnEdges(Ids(ns), ex.edges)), Replay(db, ns, rows))
  }

  function Record(src: Source, ex: Extraction): FileRecord {
    FileRecord(Digest(src.text), src.language, src.size, src.mtime, |ex.nodes|)
  }

  /** `storeExtractionResult`; `safe` decides on raw-content indexing. */
  function Stored(db: Db, file: Path, src: Source, ex: Extraction, safe: bool): Db {
    if file in db.files && db.files[file].contentHash == Digest(src.text) then
      if safe then db else db.(content := db.content - {file})
    else
      var graph := Regraphed(db, file, ex);
      graph.(files := graph.files[file := Record(src, ex)],
             content := if src.size <= MAX_FILE_SIZE && safe then graph.content[file := src.text]
                        else graph.content - {file})
  }

  // ---- nothing dangles ---------------------------------------------------------

  lemma RegraphedSane(db: Db, file: Path, ex: Extraction)
    requires Sane(db)
    ensures Sane(Regraphed(db, file, ex))
  {
    hide Keep, PutNodes, AnchoredOnly, Keyed, NoDangling;
    var base := if file in db.files then RemoveFile(db, file) else db;
    var ns := ValidNodes(ex.nodes);
    DropSane(db, FileNodes(db, file));
    RemovedSane(db, file);
    PutAllSane(base, ns);
    var own := AddEdges(PutNodes(base, ns), OwnEdges(Ids(ns), ex.edges));
    AddSane(PutNodes(base, ns), OwnEdges(Ids(ns), ex.edges));
    AddSane(own, Replay(db, ns, if file in db.files then CrossFileRows(db, file, db.edges) else []));
  }

  lemma RemovedSane(db: Db, file: Path)
    requires Sane(db)
    ensures Sane(RemoveFile(db, file))
  {
    DropSane(db, FileNodes(db, file));
  }

  /** Re-indexing, whatever was extracted, never leaves an edge without an end. */
  lemma StoredSane(db: Db, file: Path, src: Source, ex: Extraction, safe: bool)
    requires Sane(db)
    ensures Sane(Stored(db, file, src, ex, safe))
  {
    hide Regraphed;
    RegraphedSane(db, file, ex);
  }

  // ---- which nodes change ----------------------------------------------------------

  /** Every extracted node says it belongs to the file. */
  ghost predicate OwnFile(file: Path, ex: Extraction) {
    forall n :: n in ValidNodes(ex.nodes) ==> n.filePath == file
  }

  /** Some extracted node has the id of a symbol of another file. */
  ghost predicate Steals(db: Db, file: Path, ex: Extraction) {
    exists n :: n in ValidNodes(ex.nodes) && n.id in db.nodes && db.nodes[n.id].filePath != file
  }

  /** The rows an insertion of `ns` ends with: of two with one id, the later. */
  function RowsOf(ns: seq<Node>): map<Id, Node> {
    if ns == [] then map[]
    else RowsOf(ns[..|ns| - 1])[ns[|ns| - 1].id := ns[|ns| - 1]]
  }

  lemma {:induction false} RowsOfKeys(ns: seq<Node>)
    ensures RowsOf(ns).Keys == Ids(ns)
    ensures forall id :: id in RowsOf(ns) ==> RowsOf(ns)[id] in ns && RowsOf(ns)[id].id == id
  {
    if ns != [] {
      RowsOfKeys(ns[..|ns| - 1]);
      assert ns == ns[..|ns| - 1] + [ns[|ns| - 1]];
    }
  }

  /** The row of `id` that a list of nodes leaves when they are inserted in turn. */
  function LastRow(ns: seq<Node>, id: Id): Option<Node> {
    if ns == [] then None
    else
      var n := ns[|ns| - 1];
      if Insertable(n) && n.id == id then Some(n) else LastRow(ns[..|ns| - 1], id)
  }

  lemma {:induction false} LastRowIs(ns: seq<Node>, id: Id)
    ensures LastRow(ns, id) == if id in RowsOf(ValidNodes(ns)) then Some(RowsOf(ValidNodes(ns))[id]) else None
  {
    if ns != [] {
      var init, n := ns[..|ns| - 1], ns[|ns| - 1];
      LastRowIs(init, id);
      if Insertable(n) {
        assert (ValidNodes(init) + [n])[..|ValidNodes(init)|] == ValidNodes(init);
      }
    }
  }

  lemma {:induction false} PutNodesRows(db: Db, ns: seq<Node>)
    requires forall n :: n in ns ==> Insertable(n)
    ensures PutNodes(db, ns).nodes == db.nodes + RowsOf(ns)
    ensures PutNodes(db, ns).files == db.files && PutNodes(db, ns).content == db.content
  {
    hide PutNode, Insertable;
    if ns != [] {
      var init, n := ns[..|ns| - 1], ns[|ns| - 1];
      assert ns == init + [n];
      PutNodesRows(db, init);
      PutOneRow(PutNodes(db, init), n);
      PlusUpdate(db.nodes, RowsOf(init), n);
    }
  }

  lemma PutOneRow(db: Db, n: Node)
    requires Insertable(n)
    ensures PutNode(db, n).nodes == db.nodes[n.id := n]
    ensures PutNode(db, n).files == db.files && PutNode(db, n).content == db.content
  {
  }

  lemma PlusUpdate(a: map<Id, Node>, b: map<Id, Node>, n: Node)
    ensures (a + b)[n.id := n] == a + b[n.id := n]
  {
  }

  /** The nodes after storing: everyone else's, overwritten by the file's. */
  lemma RegraphedNodes(db: Db, file: Path, ex: Extraction)
    ensures Regraphed(db, file, ex).nodes ==
      (if file in db.files then db.nodes - FileNodes(db, file) else db.nodes) + RowsOf(ValidNodes(ex.nodes))
    ensures Regraphed(db, file, ex).files == (if file in db.files then db.files - {file} else db.files)
    ensures Regraphed(db, file, ex).content == (if file in db.files then db.content - {file} else db.content)
  {
    hide Keep, PutNodes, AnchoredOnly, OwnEdges, Replay, CrossFileRows;
    PutNodesRows(if file in db.files then RemoveFile(db, file) else db, ValidNodes(ex.nodes));
  }

  /** Re-indexing a file keeps every other file's symbols exactly when it
      extracts no id that another file's symbol has. */
  lemma OthersKeptIffNoTheft(db: Db, file: Path, ex: Extraction)
    requires OwnFile(file, ex)
    ensures (forall id :: id in db.nodes && db.nodes[id].filePath != file ==>
               id in Regraphed(db, file, ex).nodes && Regraphed(db, file, ex).nodes[id] == db.nodes[id])
      <==> !Steals(db, file, ex)
  {
    hide Regraphed, RowsOf;
    var after, ns := Regraphed(db, file, ex).nodes, ValidNodes(ex.nodes);
    RegraphedNodes(db, file, ex);
    RowsOfKeys(ns);
    if Steals(db, file, ex) {
      var n :| n in ns && n.id in db.nodes && db.nodes[n.id].filePath != file;
      assert n.id in RowsOf(ns) && after[n.id] == RowsOf(ns)[n.id] && after[n.id] in ns;
    }
  }

  // ---- which edges change -------------------------------------------------------------

  /** What the file had before: nothing if it was not tracked. */
  function OldSymbols(db: Db, file: Path): set<Id> {
    if file in db.files then FileNodes(db, file) else {}
  }

  /** The rows to replay. */
  function RowsInto(db: Db, file: Path): seq<Edge> {
    if file in db.files then CrossFileRows(db, file, db.edges) else []
  }

  function Base(db: Db, file: Path): Db {
    if file in db.files then RemoveFile(db, file) else db
  }

  /** Inserting nodes takes away exactly the edges that touch their ids: a row
      that is overwritten takes its edges along, and a new one has none. */
  lemma {:induction false} PutNodesEdges(db: Db, ns: seq<Node>, e: Edge)
    requires Sane(db) && forall n :: n in ns ==> Insertable(n)
    ensures multiset(PutNodes(db, ns).edges)[e] == if Touches(e, Ids(ns)) then 0 else multiset(db.edges)[e]
  {
    hide Keyed, Insertable;
    if ns != [] {
      var init, n := ns[..|ns| - 1], ns[|ns| - 1];
      assert ns == init + [n] && Ids(ns) == Ids(init) + {n.id};
      PutNodesEdges(db, init, e);
      PutAllSane(db, init);
      var before := PutNodes(db, init);
      assert e !in before.edges ==> multiset(before.edges)[e] == 0;
    }
  }

  lemma BaseEdges(db: Db, file: Path, e: Edge)
    requires Sane(db)
    ensures Sane(Base(db, file))
    ensures multiset(Base(db, file).edges)[e] == if Touches(e, OldSymbols(db, file)) then 0 else multiset(db.edges)[e]
  {
    RemovedSane(db, file);
  }

  /** An edge that touches none of the file's old symbols survives the insertion
      exactly when the extraction has neither of its ends' ids. */
  lemma SurvivesIff(db: Db, file: Path, ex: Extraction, e: Edge)
    requires Sane(db) && e in db.edges && !Touches(e, OldSymbols(db, file))
    ensures e in PutNodes(Base(db, file), ValidNodes(ex.nodes)).edges <==> !Touches(e, Ids(ValidNodes(ex.nodes)))
  {
    hide Keyed, NoDangling, PutNodes, OldSymbols, Touches;
    BaseEdges(db, file, e);
    PutNodesEdges(Base(db, file), ValidNodes(ex.nodes), e);
    var es := PutNodes(Base(db, file), ValidNodes(ex.nodes)).edges;
    assert e in es <==> multiset(es)[e] > 0;
    assert multiset(db.edges)[e] > 0;
  }

  /** The cross-file rows whose target still has a node of its kind and name. */
  function Survivors(db: Db, ns: seq<Node>, rows: seq<Edge>): (r: seq<Edge>)
    requires forall e :: e in rows ==> e.target in db.nodes
    ensures forall e :: e in r ==> e in rows && NewTarget(db, ns, e).Some?
    ensures forall e :: e in rows ==>
      multiset(r)[e] == if exists n :: n in ns && SameSymbol(n, db.nodes[e.target]) then multiset(rows)[e] else 0
  {
    if rows == [] then []
    else
      var init, e := rows[..|rows| - 1], rows[|rows| - 1];
      assert rows == init + [e];
      var rest := Survivors(db, ns, init);
      if NewTarget(db, ns, e).Some? then rest + [e] else rest
  }

  ghost predicate SameSymbol(n: Node, before: Node) {
    n.kind == before.kind && n.name == before.name
  }

  /** `x` is `e` with nothing changed but its target, which is now a new node
      of the old target's kind and name. */
  ghost predicate Retargeted(db: Db, ns: seq<Node>, e: Edge, x: Edge) {
    && e.target in db.nodes && x == e.(target := x.target)
    && exists n :: n in ns && n.id == x.target && SameSymbol(n, db.nodes[e.target])
  }

  lemma NewTargetRetargets(db: Db, ns: seq<Node>, e: Edge)
    requires e.target in db.nodes
    ensures NewTarget(db, ns, e).Some? ==> Retargeted(db, ns, e, e.(target := NewTarget(db, ns, e).value))
  {
  }

  /** The replayed rows are the surviving rows one by one, each retargeted. */
  lemma {:induction false} ReplayIsRetargeting(db: Db, ns: seq<Node>, rows: seq<Edge>)
    requires forall e :: e in rows ==> e.target in db.nodes
    ensures |Replay(db, ns, rows)| == |Survivors(db, ns, rows)|
    ensures forall i :: 0 <= i < |Replay(db, ns, rows)| ==>
      Retargeted(db, ns, Survivors(db, ns, rows)[i], Replay(db, ns, rows)[i])
  {
    if rows != [] {
      var init, e := rows[..|rows| - 1], rows[|rows| - 1];
      assert rows == init + [e];
      ReplayIsRetargeting(db, ns, init);
      NewTargetRetargets(db, ns, e);
      hide NewTarget, Retargeted;
    }
  }

  function Inserted(db: Db, file: Path, ex: Extraction): Db {
    PutNodes(Base(db, file), ValidNodes(ex.nodes))
  }

  lemma InsertedEdges(db: Db, file: Path, ex: Extraction, e: Edge)
    requires Sane(db)
    ensures multiset(Inserted(db, file, ex).edges)[e] ==
      if Touches(e, OldSymbols(db, file) + Ids(ValidNodes(ex.nodes))) then 0 else multiset(db.edges)[e]
  {
    hide PutNodes, OldSymbols, Base, Sane;
    BaseEdges(db, file, e);
    PutNodesEdges(Base(db, file), ValidNodes(ex.nodes), e);
  }

  lemma InsertedNodes(db: Db, file: Path, ex: Extraction)
    ensures Inserted(db, file, ex).nodes.Keys == Base(db, file).nodes.Keys + Ids(ValidNodes(ex.nodes))
  {
    hide Base, Insertable;
    PutNodesRows(Base(db, file), ValidNodes(ex.nodes));
    RowsOfKeys(ValidNodes(ex.nodes));
  }

  /** Of rows that are all anchored, an insertion adds every copy. */
  lemma Extended(db: Db, es: seq<Edge>, e: Edge)
    requires e in es ==> Anchored(db, e)
    ensures multiset(AddEdges(db, es).edges)[e] == multiset(db.edges)[e] + multiset(es)[e]
    ensures AddEdges(db, es).nodes == db.nodes
  {
    assert e !in es ==> multiset(es)[e] == 0;
  }

  /** The whole edge table after re-indexing, edge by edge and whatever was
      extracted: the rows that touch neither an old symbol of the file nor an
      extracted id, then the extracted ones, then the replayed ones. */
  lemma RestOfGraphKept(db: Db, file: Path, ex: Extraction, e: Edge)
    requires Sane(db)
    ensures var ns := ValidNodes(ex.nodes);
      multiset(Regraphed(db, file, ex).edges)[e] ==
        (if Touches(e, OldSymbols(db, file) + Ids(ns)) then 0 else multiset(db.edges)[e]) +
        (if e.source in Ids(ns) && e.target in Ids(ns) then multiset(ex.edges)[e] else 0) +
        multiset(Replay(db, ns, RowsInto(db, file)))[e]
  {
    var ns := ValidNodes(ex.nodes);
    var inserted, own := Inserted(db, file, ex), OwnEdges(Ids(ns), ex.edges);
    var replayed := Replay(db, ns, RowsInto(db, file));
    assert Regraphed(db, file, ex) == AddEdges(AddEdges(inserted, own), replayed);
    hide Regraphed, Inserted, OwnEdges, Replay, RowsInto, AddEdges, Base, OldSymbols, ValidNodes, Ids, Sane;
    InsertedEdges(db, file, ex, e);
    InsertedNodes(db, file, ex);
    Extended(inserted, own, e);
    ReplayedEnds(db, file, ex, e);
    Extended(AddEdges(inserted, own), replayed, e);
  }

  /** Replayed rows come from symbols of other files, as they were, and end at
      extracted ones. */
  lemma ReplayedEnds(db: Db, file: Path, ex: Extraction, x: Edge)
    ensures x in Replay(db, ValidNodes(ex.nodes), RowsInto(db, file)) ==>
      x.source in Base(db, file).nodes && x.target in Ids(ValidNodes(ex.nodes))
  {
    var ns := ValidNodes(ex.nodes);
    if x in Replay(db, ns, RowsInto(db, file)) {
      var e :| e in RowsInto(db, file) && NewTarget(db, ns, e).Some? && x == e.(target := NewTarget(db, ns, e).value);
    }
  }

  /** When no id is taken: between other files' symbols nothing changes; into
      the file there are exactly the replayed rows; inside it exactly the
      extracted ones; and none leaves it until references are resolved again. */
  lemma RestKeptUnlessTaken(db: Db, file: Path, ex: Extraction, e: Edge)
    requires Sane(db) && OwnFile(file, ex)
    ensures var ns := ValidNodes(ex.nodes);
      file in db.files && !Steals(db, file, ex) ==>
      multiset(Regraphed(db, file, ex).edges)[e] ==
        if e.source in Ids(ns) then (if e.target in Ids(ns) then multiset(ex.edges)[e] else 0)
        else if e.target in Ids(ns) then multiset(Replay(db, ns, RowsInto(db, file)))[e]
        else if Touches(e, FileNodes(db, file)) then 0
        else multiset(db.edges)[e]
  {
    RestOfGraphKept(db, file, ex, e);
    hide Regraphed, Replay, CrossFileRows, RowsInto;
    var ns := ValidNodes(ex.nodes);
    var replayed := Replay(db, ns, RowsInto(db, file));
    assert e !in replayed ==> multiset(replayed)[e] == 0;
    ReplayedEnds(db, file, ex, e);
  }

  // ---- two workflow files that name one tool --------------------------------------------

  function Rule(file: Path): Node {
    Node(file, Function, "align", file, "snakemake", "")
  }

  /** The id of a tool is made from its name alone. */
  function Bwa(file: Path): Node {
    Node("workflow-tool:bwa", Tool, "bwa", file, "snakemake", "")
  }

  function Runs(file: Path): Edge {
    Edge(file, "workflow-tool:bwa", Invokes, None, None, None, None)
  }

  /** What extracting a workflow file with one rule that runs bwa gives. */
  function RuleRunningBwa(file: Path): Extraction {
    Extraction([Rule(file), Bwa(file)], [Runs(file)], 0)
  }

  /** `b.smk` is indexed, `a.smk` is tracked and was empty. */
  function OneRuleRunningBwa(record: FileRecord): Db {
    Db(map["b.smk" := Rule("b.smk"), "workflow-tool:bwa" := Bwa("b.smk")], [Runs("b.smk")],
       map["a.smk" := record, "b.smk" := record], map[])
  }

  /** Re-indexing `a.smk` takes the tool from `b.smk`, and with it the edge that
      says that `b.smk` runs it. */
  lemma ToolTaken(record: FileRecord)
    ensures var db, ex := OneRuleRunningBwa(record), RuleRunningBwa("a.smk");
      var after := Regraphed(db, "a.smk", ex);
      && Sane(db) && OwnFile("a.smk", ex) && Steals(db, "a.smk", ex)
      && "workflow-tool:bwa" in after.nodes && after.nodes["workflow-tool:bwa"].filePath == "a.smk"
      && Runs("b.smk") in db.edges && Runs("b.smk") !in after.edges
  {
    var db, ex := OneRuleRunningBwa(record), RuleRunningBwa("a.smk");
    var ns, e := ValidNodes(ex.nodes), Runs("b.smk");
    TakenSetting(record);
    NothingInto(record);
    hide Regraphed, Replay, RowsInto, OneRuleRunningBwa, RuleRunningBwa, Sane, ValidNodes;
    RestOfGraphKept(db, "a.smk", ex, e);
    RegraphedNodes(db, "a.smk", ex);
    RowsOfKeys(ns);
    hide RowsOf;
    NothingReplayed(db, ns);
    assert "workflow-tool:bwa" in RowsOf(ns);
    assert multiset(Regraphed(db, "a.smk", ex).edges)[e] == 0;
  }

  lemma TakenSetting(record: FileRecord)
    ensures var db, ex := OneRuleRunningBwa(record), RuleRunningBwa("a.smk");
      && Sane(db) && OwnFile("a.smk", ex) && Steals(db, "a.smk", ex) && Runs("b.smk") in db.edges
      && "workflow-tool:bwa" in Ids(ValidNodes(ex.nodes)) && "b.smk" !in Ids(ValidNodes(ex.nodes))
  {
    var db, ex := OneRuleRunningBwa(record), RuleRunningBwa("a.smk");
    assert ex.nodes == [Rule("a.smk"), Bwa("a.smk")] && Bwa("a.smk") == ex.nodes[1];
    assert Bwa("a.smk") in ValidNodes(ex.nodes);
    assert Runs("b.smk") == db.edges[0];
    assert "a.smk"[0] != "b.smk"[0];
  }

  lemma NothingInto(record: FileRecord)
    ensures RowsInto(OneRuleRunningBwa(record), "a.smk") == []
  {
    var db := OneRuleRunningBwa(record);
    assert "a.smk"[0] != "b.smk"[0];
    assert db.edges[..0] == [];
    assert CrossFileRows(db, "a.smk", db.edges[..0]) == [];
  }

  lemma NothingReplayed(db: Db, ns: seq<Node>)
    ensures Replay(db, ns, []) == []
  {
  }
}
