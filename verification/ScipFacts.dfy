/** `replaceScipFacts`: what importing a SCIP index makes of the tables. */
module ScipFacts {
  import opened Wrappers
  import opened CodeGraph
  import opened Store
  import opened Reindex

  lemma {:induction false} PutValid(db: Db, ns: seq<Node>)
    ensures PutNodes(db, ns) == PutNodes(db, ValidNodes(ns))
  {
    if ns != [] {
      var init, n := ns[..|ns| - 1], ns[|ns| - 1];
      PutValid(db, init);
      if Insertable(n) {
        assert (ValidNodes(init) + [n])[..|ValidNodes(init)|] == ValidNodes(init);
      }
    }
  }

  lemma {:induction false} WithoutScipCount(es: seq<Edge>, e: Edge)
    ensures multiset(WithoutScipEdges(es))[e] == if e.provenance == Option.Some(Scip) then 0 else multiset(es)[e]
  {
    if es != [] {
      assert es == es[..|es| - 1] + [es[|es| - 1]];
      WithoutScipCount(es[..|es| - 1], e);
    }
  }

  /** The graph before the new edges go in. */
  function Cleared(db: Db): Db {
    var cleared := db.(edges := WithoutScipEdges(db.edges));
    DropNodes(cleared, ScipNodes(cleared))
  }

  function Refilled(db: Db, ns: seq<Node>): Db {
    PutNodes(Cleared(db), ns)
  }

  lemma ClearedSane(db: Db)
    requires Sane(db)
    ensures Sane(Cleared(db))
  {
    var cleared := db.(edges := WithoutScipEdges(db.edges));
    DropSane(cleared, ScipNodes(cleared));
  }

  lemma ClearedEdges(db: Db, e: Edge)
    ensures multiset(Cleared(db).edges)[e] ==
      if e.provenance == Option.Some(Scip) || Touches(e, ScipNodes(db)) then 0 else multiset(db.edges)[e]
  {
    WithoutScipCount(db.edges, e);
  }

  /** The tables after an import, row by row: the imported symbols replace the SCIP
      ones and nothing else but what has one of their ids; of the old edges those
      stay that SCIP did not make and that touch neither a symbol that went nor one
      that came; the imported edges are added, with their multiplicity, where both
      ends exist; files and raw content are as they were. */
  lemma Imported(db: Db, ns: seq<Node>, es: seq<Edge>)
    requires Sane(db)
    ensures var after, came := ReplaceScip(db, ns, es), Ids(ValidNodes(ns));
      && after.files == db.files && after.content == db.content
      && after.nodes == (map id | id in db.nodes && !ScipId(id) :: db.nodes[id]) + RowsOf(ValidNodes(ns))
      && forall e :: multiset(after.edges)[e] ==
           (if e.provenance == Option.Some(Scip) || Touches(e, ScipNodes(db) + came) then 0
            else multiset(db.edges)[e]) +
           (if e.source in after.nodes && e.target in after.nodes then multiset(es)[e] else 0)
  {
    PutValid(Cleared(db), ns);
    PutNodesRows(Cleared(db), ValidNodes(ns));
    ClearedNodes(db);
    var after, came := ReplaceScip(db, ns, es), Ids(ValidNodes(ns));
    assert after == AddEdges(Refilled(db, ns), es);
    forall e
      ensures multiset(after.edges)[e] ==
        (if e.provenance == Option.Some(Scip) || Touches(e, ScipNodes(db) + came) then 0 else multiset(db.edges)[e]) +
        (if e.source in after.nodes && e.target in after.nodes then multiset(es)[e] else 0)
    {
      ImportedEdge(db, ns, es, e);
    }
  }

  lemma ClearedNodes(db: Db)
    ensures Cleared(db).nodes == map id | id in db.nodes && !ScipId(id) :: db.nodes[id]
    ensures Cleared(db).files == db.files && Cleared(db).content == db.content
  {
    hide Keep, ScipId;
  }

  lemma ImportedEdge(db: Db, ns: seq<Node>, es: seq<Edge>, e: Edge)
    requires Sane(db)
    ensures var after, came := AddEdges(Refilled(db, ns), es), Ids(ValidNodes(ns));
      multiset(after.edges)[e] ==
        (if e.provenance == Option.Some(Scip) || Touches(e, ScipNodes(db) + came) then 0 else multiset(db.edges)[e]) +
        (if e.source in after.nodes && e.target in after.nodes then multiset(es)[e] else 0)
  {
    hide Cleared, PutNodes, ScipNodes;
    PutValid(Cleared(db), ns);
    ClearedSane(db);
    ClearedEdges(db, e);
    PutNodesEdges(Cleared(db), ValidNodes(ns), e);
  }

  // ---- importing again -------------------------------------------------------------------

  lemma {:induction false} KeepAll(es: seq<Edge>, gone: set<Id>)
    requires forall e :: e in es ==> !Touches(e, gone)
    ensures Keep(es, gone) == es
  {
    if es != [] {
      assert es == es[..|es| - 1] + [es[|es| - 1]];
      KeepAll(es[..|es| - 1], gone);
    }
  }

  /** Inserting symbols that no edge touches leaves the edges alone. */
  lemma {:induction false} PutNodesApart(db: Db, ns: seq<Node>)
    requires forall e, n :: e in db.edges && n in ns && Insertable(n) ==> !Touches(e, {n.id})
    ensures PutNodes(db, ns).edges == db.edges
  {
    if ns != [] {
      var init, n := ns[..|ns| - 1], ns[|ns| - 1];
      assert ns == init + [n];
      PutNodesApart(db, init);
      if Insertable(n) {
        KeepAll(db.edges, {n.id});
      }
    }
  }

  lemma {:induction false} WithoutScipOf(kept: seq<Edge>, scip: seq<Edge>)
    requires forall e :: e in kept ==> e.provenance != Option.Some(Scip)
    requires forall e :: e in scip ==> e.provenance == Option.Some(Scip)
    ensures WithoutScipEdges(kept + scip) == kept
    decreases |kept| + |scip|
  {
    if scip != [] {
      var init := scip[..|scip| - 1];
      assert (kept + scip)[..|kept + scip| - 1] == kept + init;
      WithoutScipOf(kept, init);
    } else if kept != [] {
      var init := kept[..|kept| - 1];
      assert kept == init + [kept[|kept| - 1]] && init + [] == init && kept + [] == kept;
      WithoutScipOf(init, []);
    }
  }

  /** The facts are SCIP ones throughout. */
  ghost predicate AllScip(ns: seq<Node>, es: seq<Edge>) {
    && (forall n :: n in ns && Insertable(n) ==> ScipId(n.id))
    && (forall e :: e in es ==> e.provenance == Option.Some(Scip))
  }

  /** No edge left over touches an imported id. */
  lemma ClearedApart(db: Db, e: Edge, ids: set<Id>)
    requires Sane(db) && e in Cleared(db).edges && forall id :: id in ids ==> ScipId(id)
    ensures !Touches(e, ids) && e.provenance != Option.Some(Scip)
  {
    ClearedSane(db);
    hide ScipId, Keep;
    assert e.source in Cleared(db).nodes && e.target in Cleared(db).nodes;
  }

  /** Importing SCIP facts leaves all other symbols and edges in place, in order. */
  lemma OthersInPlace(db: Db, ns: seq<Node>, es: seq<Edge>)
    requires Sane(db) && AllScip(ns, es)
    ensures ReplaceScip(db, ns, es).edges == Cleared(db).edges + AnchoredOnly(Refilled(db, ns), es)
  {
    hide Cleared, ScipId;
    forall e, n | e in Cleared(db).edges && n in ns && Insertable(n) ensures !Touches(e, {n.id}) {
      ClearedApart(db, e, {n.id});
    }
    PutNodesApart(Cleared(db), ns);
    assert ReplaceScip(db, ns, es) == AddEdges(Refilled(db, ns), es) by { AsRefilled(db, ns, es); }
  }

  lemma AsRefilled(db: Db, ns: seq<Node>, es: seq<Edge>)
    ensures ReplaceScip(db, ns, es) == AddEdges(Refilled(db, ns), es)
  {
  }

  /** Clearing after an import gives what clearing before it gave. */
  lemma ClearedAgain(db: Db, ns: seq<Node>, es: seq<Edge>)
    requires Sane(db) && AllScip(ns, es)
    ensures Cleared(ReplaceScip(db, ns, es)) == Cleared(db)
  {
    hide Cleared, ReplaceScip, RowsOf, Insertable, ScipId, Refilled;
    var after := ReplaceScip(db, ns, es);
    OthersInPlace(db, ns, es);
    Imported(db, ns, es);
    ClearedNodes(db);
    ClearedNodes(after);
    ImportedIds(db, ns);
    EdgesAgain(db, after, AnchoredOnly(Refilled(db, ns), es));
  }

  lemma ImportedIds(db: Db, ns: seq<Node>)
    requires forall n :: n in ns && Insertable(n) ==> ScipId(n.id)
    ensures forall id :: id in RowsOf(ValidNodes(ns)) ==> ScipId(id)
  {
    hide ScipId, Insertable;
    RowsOfKeys(ValidNodes(ns));
  }

  lemma EdgesAgain(db: Db, after: Db, scip: seq<Edge>)
    requires Sane(db) && after.edges == Cleared(db).edges + scip
    requires forall e :: e in scip ==> e.provenance == Option.Some(Scip)
    ensures Cleared(after).edges == Cleared(db).edges
  {
    var kept := Cleared(db).edges;
    var cleared := after.(edges := WithoutScipEdges(after.edges));
    forall e | e in kept ensures !Touches(e, ScipNodes(cleared)) && e.provenance != Option.Some(Scip) {
      ScipIds(cleared);
      ClearedApart(db, e, ScipNodes(cleared));
    }
    WithoutScipOf(kept, scip);
    KeepAll(kept, ScipNodes(cleared));
  }

  lemma ScipIds(db: Db)
    ensures forall id :: id in ScipNodes(db) ==> ScipId(id)
  {
    hide ScipId;
  }

  /** Importing the same facts a second time changes nothing at all. */
  lemma ImportTwice(db: Db, ns: seq<Node>, es: seq<Edge>)
    requires Sane(db) && AllScip(ns, es)
    ensures ReplaceScip(ReplaceScip(db, ns, es), ns, es) == ReplaceScip(db, ns, es)
  {
    ClearedAgain(db, ns, es);
    AsRefilled(db, ns, es);
    AsRefilled(ReplaceScip(db, ns, es), ns, es);
  }
}
