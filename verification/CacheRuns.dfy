/** Every run of the `QueryBuilder` against tables without a cache. */
module CacheRuns {
  import opened Wrappers
  import opened CodeGraph
  import opened Store
  import opened KeyOrder
  import opened NodeCache

  datatype Op =
    | Insert(node: Node) | InsertAll(nodes: seq<Node>) | Update(node: Node)
    | Delete(id: Id) | DeleteByFile(file: Path) | RemoveWholeFile(file: Path)
    | AddAll(edges: seq<Edge>) | Rescip(nodes: seq<Node>, edges: seq<Edge>)
    | EmptyAll | EmptyCache | Get(id: Id) | GetMany(ids: seq<Id>)

  datatype Answer = Nothing | One(node: Option<Node>) | Many(nodes: map<Id, Node>)

  /** The table after one operation, with no cache anywhere. */
  function PlainDb(db: Db, op: Op): Db {
    match op
    case Insert(n) => PutNode(db, n)
    case InsertAll(ns) => PutNodes(db, ns)
    case Update(n) => ChangeNode(db, n)
    case Delete(id) => DropNodes(db, {id} * db.nodes.Keys)
    case DeleteByFile(f) => DropNodes(db, FileNodes(db, f))
    case RemoveWholeFile(f) => RemoveFile(db, f)
    case AddAll(es) => AddEdges(db, es)
    case Rescip(ns, es) => ReplaceScip(db, ns, es)
    case EmptyAll => Db(map[], [], map[], db.content)
    case _ => db
  }

  /** What a lookup in the plain table answers. */
  function PlainAnswer(db: Db, op: Op): Answer {
    match op
    case Get(id) => One(if id in db.nodes then Some(db.nodes[id]) else None)
    case GetMany(ids) => Many(map id | id in ids && id in db.nodes :: db.nodes[id])
    case _ => Nothing
  }

  function PlainRun(db: Db, ops: seq<Op>): (Db, seq<Answer>) {
    if ops == [] then (db, [])
    else
      var (db', answers) := PlainRun(db, ops[..|ops| - 1]);
      var op := ops[|ops| - 1];
      (PlainDb(db', op), answers + [PlainAnswer(db', op)])
  }

  /** The keys an operation takes out of the cache because their rows change. */
  function Stale(db: Db, op: Op): set<Id> {
    match op
    case Insert(n) => if Insertable(n) then {n.id} else {}
    case InsertAll(ns) => InsertedIds(ns)
    case Update(n) => {n.id}
    case Delete(id) => {id}
    case DeleteByFile(f) => FileNodes(db, f)
    case RemoveWholeFile(f) => FileNodes(db, f)
    case Rescip(ns, _) => ScipNodes(db) + InsertedIds(ns)
    case _ => {}
  }

  /** The hits of a lookup, in the order it uses them. */
  function HitsOf(order: seq<Id>, op: Op): seq<Id> {
    if op.GetMany? then Only(op.ids, SetOf(order)) else []
  }

  /** The keys after one operation, whose queries returned `answers`. */
  function KeysAfter(db: Db, order: seq<Id>, op: Op, answers: seq<seq<Id>>): seq<Id> {
    match op
    case Get(id) => if id in db.nodes then Used(order, id) else order
    case GetMany(_) => CacheAll(UseAll(order, HitsOf(order, op)), Flat(answers))
    case EmptyAll => []
    case EmptyCache => []
    case _ => Without(order, Stale(db, op))
  }

  /** The answers a database may give to the queries of one operation. */
  ghost predicate Possible(db: Db, order: seq<Id>, op: Op, answers: seq<seq<Id>>) {
    op.GetMany? ==> Answers(db, Without(op.ids, SetOf(order)), answers)
  }

  method Apply(q: QueryBuilder, op: Op) returns (a: Answer, ghost answers: seq<seq<Id>>)
    requires q.Valid()
    modifies q
    ensures q.Valid() && q.db == PlainDb(old(q.db), op) && a == PlainAnswer(old(q.db), op)
    ensures Possible(old(q.db), old(q.order), op, answers)
    ensures q.order == KeysAfter(old(q.db), old(q.order), op, answers)
  {
    hide Answers, Distinct, Without, Only, UseAll, CacheAll, Used, Sane;
    a, answers := Nothing, [];
    WithoutAbsent(q.order, {});
    assert SetOf(q.order) == q.entries.Keys;
    match op {
      case Insert(n) => var changes := q.InsertNode(n);
      case InsertAll(ns) => q.InsertNodes(ns);
      case Update(n) => q.UpdateNode(n);
      case Delete(id) => q.DeleteNode(id);
      case DeleteByFile(f) => q.DeleteNodesByFile(f);
      case RemoveWholeFile(f) => q.DeleteFile(f);
      case AddAll(es) => q.InsertEdges(es);
      case Rescip(ns, es) => q.ReplaceScipFacts(ns, es);
      case EmptyAll => q.Clear();
      case EmptyCache => q.ClearCache();
      case Get(id) =>
        var r := q.GetNodeById(id);
        a := One(r);
      case GetMany(ids) =>
        var r;
        r, answers := q.GetNodesByIds(ids);
        a := Many(r);
    }
  }

  /** The keys of the cache after a whole run, `answers` being what the queries
      of each operation returned. */
  function KeysRun(db: Db, ops: seq<Op>, answers: seq<seq<seq<Id>>>): seq<Id>
    requires |answers| == |ops|
  {
    if ops == [] then []
    else
      var n := |ops| - 1;
      KeysAfter(PlainRun(db, ops[..n]).0, KeysRun(db, ops[..n], answers[..n]), ops[n], answers[n])
  }

  /** The answers of each operation are possible in the run so far. */
  ghost predicate PossibleRun(db: Db, ops: seq<Op>, answers: seq<seq<seq<Id>>>)
    requires |answers| == |ops|
  {
    forall i :: 0 <= i < |ops| ==> PossibleAt(db, ops, answers, i)
  }

  ghost predicate PossibleAt(db: Db, ops: seq<Op>, answers: seq<seq<seq<Id>>>, i: nat)
    requires i < |answers| == |ops|
  {
    Possible(PlainRun(db, ops[..i]).0, KeysRun(db, ops[..i], answers[..i]), ops[i], answers[i])
  }

  /** The cache is transparent: whatever is run, in whatever order, every
      lookup answers what the plain table would, the tables end the same, no
      edge dangles, and the cache stays within its maximum throughout. Its keys
      are those of the specification, for whatever answers the queries gave. */
  method RunCached(db: Db, ops: seq<Op>)
      returns (db': Db, results: seq<Answer>, sizes: seq<nat>, keys: seq<Id>, ghost answers: seq<seq<seq<Id>>>)
    requires Sane(db)
    ensures (db', results) == PlainRun(db, ops)
    ensures Sane(db')
    ensures |sizes| == |ops| && forall i :: 0 <= i < |sizes| ==> sizes[i] <= MAX_CACHE_SIZE
    ensures |answers| == |ops| && PossibleRun(db, ops, answers) && keys == KeysRun(db, ops, answers)
  {
    hide PlainDb, PlainAnswer, Sane, Distinct, KeysAfter, Possible;
    var q := new QueryBuilder(db);
    results, sizes, answers := [], [], [];
    for i := 0 to |ops|
      invariant fresh(q) && q.Valid() && (q.db, results) == PlainRun(db, ops[..i])
      invariant |sizes| == i && forall j :: 0 <= j < i ==> sizes[j] <= MAX_CACHE_SIZE
      invariant |answers| == i && PossibleRun(db, ops[..i], answers) && q.order == KeysRun(db, ops[..i], answers)
    {
      var a;
      ghost var returned;
      a, returned := Apply(q, ops[i]);
      assert ops[..i + 1][..i] == ops[..i];
      RunNext(db, ops[..i], answers, ops[i], returned);
      assert ops[..i] + [ops[i]] == ops[..i + 1];
      results := results + [a];
      sizes := sizes + [|q.order|];
      answers := answers + [returned];
    }
    assert ops[..|ops|] == ops;
    db', keys := q.db, q.order;
  }

  lemma RunNext(db: Db, ops: seq<Op>, answers: seq<seq<seq<Id>>>, op: Op, returned: seq<seq<Id>>)
    requires |answers| == |ops| && PossibleRun(db, ops, answers)
    requires Possible(PlainRun(db, ops).0, KeysRun(db, ops, answers), op, returned)
    ensures PossibleRun(db, ops + [op], answers + [returned])
    ensures KeysRun(db, ops + [op], answers + [returned]) ==
      KeysAfter(PlainRun(db, ops).0, KeysRun(db, ops, answers), op, returned)
  {
    hide PlainRun, Possible, KeysAfter;
    var ops', answers' := ops + [op], answers + [returned];
    assert ops'[..|ops|] == ops && answers'[..|ops|] == answers;
    forall i | 0 <= i < |ops'| ensures PossibleAt(db, ops', answers', i) {
      if i < |ops| {
        assert PossibleAt(db, ops, answers, i);
        assert ops'[..i] == ops[..i] && answers'[..i] == answers[..i];
      }
    }
  }
}
