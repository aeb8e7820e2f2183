/** The tables of the graph database and the statements that change them.

    `edges.source` and `edges.target` are foreign keys that cascade, so a
    deleted node takes its edges along; so does a node that INSERT OR REPLACE
    overwrites, because the old row is deleted first. */
module Store {
  import opened Wrappers
  import opened CodeGraph

  /** A SHA-256 digest, taken to be free of collisions. */
  datatype Digest = Digest(of: string)

  datatype FileRecord = FileRecord(
    contentHash: Digest, language: string, size: nat, modifiedAt: real, nodeCount: nat)

  /** The tables: nodes and files by primary key, edges in row order, and the
      raw-content index by path. */
  datatype Db = Db(
    nodes: map<Id, Node>, edges: seq<Edge>, files: map<Path, FileRecord>, content: map<Path, string>)

  ghost predicate Keyed(db: Db) {
    forall id :: id in db.nodes ==> db.nodes[id].id == id && Insertable(db.nodes[id])
  }

  ghost predicate NoDangling(db: Db) {
    forall e :: e in db.edges ==> e.source in db.nodes && e.target in db.nodes
  }

  /** Both hold of every database the program builds. */
  ghost predicate Sane(db: Db) {
    Keyed(db) && NoDangling(db)
  }

  /** The columns the source insists on; a kind is never empty. */
  predicate Insertable(n: Node) {
    n.id != "" && n.name != "" && n.filePath != "" && n.language != ""
  }

  predicate Touches(e: Edge, ids: set<Id>) {
    e.source in ids || e.target in ids
  }

  /** The rows that survive the deletion of the nodes `gone`. */
  function Keep(es: seq<Edge>, gone: set<Id>): (r: seq<Edge>)
    ensures forall e :: multiset(r)[e] == if Touches(e, gone) then 0 else multiset(es)[e]
    ensures forall e :: e in r <==> e in es && !Touches(e, gone)
  {
    if es == [] then []
    else
      assert es == es[..|es| - 1] + [es[|es| - 1]];
      var rest := Keep(es[..|es| - 1], gone);
      if Touches(es[|es| - 1], gone) then rest else rest + [es[|es| - 1]]
  }

  function DropNodes(db: Db, gone: set<Id>): Db {
    db.(nodes := db.nodes - gone, edges := Keep(db.edges, gone))
  }

  function FileNodes(db: Db, file: Path): set<Id> {
    set id | id in db.nodes && db.nodes[id].filePath == file
  }

  /** INSERT OR REPLACE of one node. */
  function PutNode(db: Db, n: Node): Db {
    if !Insertable(n) then db
    else if n.id in db.nodes then db.(nodes := db.nodes[n.id := n], edges := Keep(db.edges, {n.id}))
    else db.(nodes := db.nodes[n.id := n])
  }

  function PutNodes(db: Db, ns: seq<Node>): Db {
    if ns == [] then db else PutNode(PutNodes(db, ns[..|ns| - 1]), ns[|ns| - 1])
  }

  /** UPDATE of an existing node; a missing id matches no row. */
  function ChangeNode(db: Db, n: Node): Db {
    if Insertable(n) && n.id in db.nodes then db.(nodes := db.nodes[n.id := n]) else db
  }

  predicate Anchored(db: Db, e: Edge) {
    e.source in db.nodes && e.target in db.nodes
  }

  /** The edges both of whose ends exist. */
  function AnchoredOnly(db: Db, es: seq<Edge>): (r: seq<Edge>)
    ensures forall e :: multiset(r)[e] == if Anchored(db, e) then multiset(es)[e] else 0
    ensures forall e :: e in r <==> e in es && Anchored(db, e)
  {
    if es == [] then []
    else
      assert es == es[..|es| - 1] + [es[|es| - 1]];
      var rest := AnchoredOnly(db, es[..|es| - 1]);
      if Anchored(db, es[|es| - 1]) then rest + [es[|es| - 1]] else rest
  }

  /** `insertEdges`. */
  function AddEdges(db: Db, es: seq<Edge>): Db {
    db.(edges := db.edges + AnchoredOnly(db, es))
  }

  /** `deleteFile`: the file's nodes, its record and its raw content. */
  function RemoveFile(db: Db, file: Path): Db {
    DropNodes(db, FileNodes(db, file)).(files := db.files - {file}, content := db.content - {file})
  }

  /** Ids of imported SCIP facts: SQL `LIKE 'scip:%'`, which ignores case. */
  predicate ScipId(id: Id) {
    && |id| >= 5
    && id[0] in "sS" && id[1] in "cC" && id[2] in "iI" && id[3] in "pP" && id[4] == ':'
  }

  function ScipNodes(db: Db): set<Id> {
    set id | id in db.nodes && ScipId(id)
  }

  function WithoutScipEdges(es: seq<Edge>): (r: seq<Edge>)
    ensures forall e :: e in r <==> e in es && e.provenance != Option.Some(Scip)
  {
    if es == [] then []
    else
      assert es == es[..|es| - 1] + [es[|es| - 1]];
      var rest := WithoutScipEdges(es[..|es| - 1]);
      if es[|es| - 1].provenance == Some(Scip) then rest else rest + [es[|es| - 1]]
  }

  /** `replaceScipFacts`. */
  function ReplaceScip(db: Db, ns: seq<Node>, es: seq<Edge>): Db {
    var cleared := db.(edges := WithoutScipEdges(db.edges));
    AddEdges(PutNodes(DropNodes(cleared, ScipNodes(cleared)), ns), es)
  }

  // ---- no statement leaves an edge dangling -----------------------------------

  lemma DropSane(db: Db, gone: set<Id>)
    requires Sane(db)
    ensures Sane(DropNodes(db, gone))
  {
  }

  lemma PutSane(db: Db, n: Node)
    requires Sane(db)
    ensures Sane(PutNode(db, n))
  {
  }

  lemma {:induction false} PutAllSane(db: Db, ns: seq<Node>)
    requires Sane(db)
    ensures Sane(PutNodes(db, ns))
  {
    if ns != [] {
      PutAllSane(db, ns[..|ns| - 1]);
      PutSane(PutNodes(db, ns[..|ns| - 1]), ns[|ns| - 1]);
    }
  }

  lemma AddSane(db: Db, es: seq<Edge>)
    requires Sane(db)
    ensures Sane(AddEdges(db, es))
  {
  }

  lemma ReplaceScipSane(db: Db, ns: seq<Node>, es: seq<Edge>)
    requires Sane(db)
    ensures Sane(ReplaceScip(db, ns, es))
  {
    var cleared := db.(edges := WithoutScipEdges(db.edges));
    DropSane(cleared, ScipNodes(cleared));
    PutAllSane(DropNodes(cleared, ScipNodes(cleared)), ns);
    AddSane(PutNodes(DropNodes(cleared, ScipNodes(cleared)), ns), es);
  }
}
