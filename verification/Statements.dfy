/** What the statements of the `QueryBuilder` do to the tables, row by row. */
module Statements {
  import opened Wrappers
  import opened CodeGraph
  import opened Store
  import opened Reindex
  import opened ScipFacts
  import opened NodeCache
  import opened CacheRuns

  /** What a lookup of `id` should answer afterwards. */
  function RowAfter(db: Db, op: Op, id: Id): Option<Node> {
    var before := if id in db.nodes then Some(db.nodes[id]) else None;
    match op
    case Insert(n) => if Insertable(n) && n.id == id then Some(n) else before
    case InsertAll(ns) => if LastRow(ns, id).Some? then LastRow(ns, id) else before
    case Update(n) => if Insertable(n) && n.id == id && before.Some? then Some(n) else before
    case Delete(gone) => if gone == id then None else before
    case DeleteByFile(f) => if before.Some? && before.value.filePath == f then None else before
    case RemoveWholeFile(f) => if before.Some? && before.value.filePath == f then None else before
    case Rescip(ns, _) =>
      if LastRow(ns, id).Some? then LastRow(ns, id) else if ScipId(id) then None else before
    case EmptyAll => None
    case _ => before
  }

  /** Whatever is written is what is read next, and nothing else changes. */
  lemma ReadsWhatWasWritten(db: Db, op: Op, id: Id)
    requires Sane(db)
    ensures PlainAnswer(PlainDb(db, op), Get(id)) == One(RowAfter(db, op, id))
  {
    hide Keep, AnchoredOnly, WithoutScipEdges;
    match op
    case InsertAll(ns) =>
      LastRowIs(ns, id);
      PutValid(db, ns);
      PutNodesRows(db, ValidNodes(ns));
    case Rescip(ns, es) =>
      LastRowIs(ns, id);
      hide ReplaceScip;
      Imported(db, ns, es);
    case _ =>
  }

  /** How many rows of an edge there should be afterwards. */
  function EdgesAfter(db: Db, op: Op, e: Edge): nat {
    var before, anchored := multiset(db.edges)[e], e.source in db.nodes && e.target in db.nodes;
    match op
    case Update(_) => before
    case AddAll(es) => before + if anchored then multiset(es)[e] else 0
    case Rescip(ns, es) =>
      var ends := RowAfter(db, op, e.source).Some? && RowAfter(db, op, e.target).Some?;
      (if e.provenance == Option.Some(Scip) || Touches(e, ScipNodes(db) + Ids(ValidNodes(ns))) then 0 else before)
        + (if ends then multiset(es)[e] else 0)
    case EmptyAll => 0
    case _ => if Touches(e, Stale(db, op)) then 0 else before
  }

  /** An edge goes with a deleted or overwritten end, and comes only with both. */
  lemma EdgesFollow(db: Db, op: Op, e: Edge)
    requires Sane(db)
    ensures multiset(PlainDb(db, op).edges)[e] == EdgesAfter(db, op, e)
  {
    hide Insertable, ScipId;
    match op
    case Insert(n) => assert [n][..0] == []; PutOneEdge(db, n, e);
    case InsertAll(ns) =>
      PutValid(db, ns);
      PutNodesEdges(db, ValidNodes(ns), e);
      InsertedAre(ns);
    case Delete(id) => GoneEdges(db, {id}, e);
    case DeleteByFile(f) => GoneEdges(db, FileNodes(db, f), e);
    case RemoveWholeFile(f) => GoneEdges(db, FileNodes(db, f), e);
    case Rescip(ns, es) => EdgesImported(db, ns, es, e);
    case _ =>
  }

  lemma EdgesImported(db: Db, ns: seq<Node>, es: seq<Edge>, e: Edge)
    requires Sane(db)
    ensures multiset(PlainDb(db, Rescip(ns, es)).edges)[e] == EdgesAfter(db, Rescip(ns, es), e)
  {
    hide ReplaceScip, PlainAnswer, RowAfter, ScipId, Insertable, Sane;
    var op := Rescip(ns, es);
    Imported(db, ns, es);
    ReadsWhatWasWritten(db, op, e.source);
    ReadsWhatWasWritten(db, op, e.target);
    PlainLookup(PlainDb(db, op), e.source);
    PlainLookup(PlainDb(db, op), e.target);
  }

  lemma PlainLookup(db: Db, id: Id)
    ensures PlainAnswer(db, Get(id)) == One(if id in db.nodes then Some(db.nodes[id]) else None)
  {
  }

  lemma PutOneEdge(db: Db, n: Node, e: Edge)
    requires Sane(db)
    ensures multiset(PutNode(db, n).edges)[e] ==
      if Insertable(n) && Touches(e, {n.id}) then 0 else multiset(db.edges)[e]
  {
    hide Keyed, Insertable;
    assert multiset(db.edges)[e] > 0 <==> e in db.edges;
  }

  /** Only ids that have a row have edges to lose. */
  lemma GoneEdges(db: Db, gone: set<Id>, e: Edge)
    requires Sane(db)
    ensures multiset(DropNodes(db, gone * db.nodes.Keys).edges)[e] ==
      if Touches(e, gone) then 0 else multiset(db.edges)[e]
    ensures gone <= db.nodes.Keys ==> gone * db.nodes.Keys == gone
  {
    hide Keyed;
    assert multiset(db.edges)[e] > 0 <==> e in db.edges;
  }

  lemma InsertedAre(ns: seq<Node>)
    ensures InsertedIds(ns) == Ids(ValidNodes(ns))
  {
  }

  /** File records and raw content change with the removal of a file and the
      emptying of the graph only. */
  lemma RecordsFollow(db: Db, op: Op)
    requires Sane(db)
    ensures var after := PlainDb(db, op);
      && after.files == (match op case EmptyAll => map[] case RemoveWholeFile(f) => db.files - {f} case _ => db.files)
      && after.content == (match op case RemoveWholeFile(f) => db.content - {f} case _ => db.content)
  {
    hide Keep, AnchoredOnly, WithoutScipEdges, Insertable;
    match op
    case InsertAll(ns) =>
      PutValid(db, ns);
      PutNodesRows(db, ValidNodes(ns));
    case Rescip(ns, es) =>
      hide ReplaceScip;
      Imported(db, ns, es);
    case _ =>
  }
}
