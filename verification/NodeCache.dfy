/** `QueryBuilder`: the statements behind a cache of recently used nodes. */
module NodeCache {
  import opened Wrappers
  import opened CodeGraph
  import opened Store
  import opened KeyOrder

  const PARAM_CHUNK_SIZE: nat := 500

  function IdsOf(rows: seq<Node>): seq<Id> {
    seq(|rows|, i requires 0 <= i < |rows| => rows[i].id)
  }

  /** The k-th chunk of the ids a batch lookup has to ask the table for. */
  function Chunk(misses: seq<Id>, k: nat): seq<Id>
    requires k * PARAM_CHUNK_SIZE <= |misses|
  {
    var start := k * PARAM_CHUNK_SIZE;
    misses[start..if start + PARAM_CHUNK_SIZE <= |misses| then start + PARAM_CHUNK_SIZE else |misses|]
  }

  /** The ids of the rows one query returns, in the order it returns them: each
      wanted id that exists, once. */
  ghost predicate Listing(db: Db, chunk: seq<Id>, r: seq<Id>) {
    Distinct(r) && forall id :: id in r <==> id in chunk && id in db.nodes
  }

  /** One answer for each chunk. */
  ghost predicate Answers(db: Db, misses: seq<Id>, answers: seq<seq<Id>>) {
    && |misses| <= |answers| * PARAM_CHUNK_SIZE
    && (|answers| > 0 ==> (|answers| - 1) * PARAM_CHUNK_SIZE < |misses|)
    && (forall k :: 0 <= k < |answers| ==> Listing(db, Chunk(misses, k), answers[k]))
  }

  /** The chunks leave nothing out. */
  lemma AllInChunks(misses: seq<Id>, n: nat)
    requires |misses| <= n * PARAM_CHUNK_SIZE
    ensures forall id :: id in misses ==>
      exists k :: 0 <= k < n && k * PARAM_CHUNK_SIZE <= |misses| && id in Chunk(misses, k)
  {
    forall id | id in misses
      ensures exists k :: 0 <= k < n && k * PARAM_CHUNK_SIZE <= |misses| && id in Chunk(misses, k)
    {
      var j :| 0 <= j < |misses| && misses[j] == id;
      var k := j / PARAM_CHUNK_SIZE;
      assert Chunk(misses, k)[j - k * PARAM_CHUNK_SIZE] == id;
    }
  }

  function Flat(answers: seq<seq<Id>>): seq<Id> {
    if answers == [] then [] else Flat(answers[..|answers| - 1]) + answers[|answers| - 1]
  }

  lemma FlatNext(answers: seq<seq<Id>>, last: seq<Id>)
    ensures Flat(answers + [last]) == Flat(answers) + last
  {
    assert (answers + [last])[..|answers|] == answers;
  }

  lemma CacheNone(order: seq<Id>)
    ensures CacheAll(order, Flat([])) == order
  {
  }

  lemma NoRows(rows: seq<Node>)
    ensures IdsOf(rows)[..0] == [] && |IdsOf(rows)| == |rows|
  {
  }

  lemma CacheNext(order: seq<Id>, rows: seq<Node>, i: nat)
    requires i < |rows|
    ensures CacheAll(order, IdsOf(rows)[..i + 1]) == Cached(CacheAll(order, IdsOf(rows)[..i]), rows[i].id)
  {
    assert IdsOf(rows)[..i + 1][..i] == IdsOf(rows)[..i];
  }

  /** One more wanted id: a hit or a miss. */
  lemma SplitNext(ids: seq<Id>, i: nat, keys: set<Id>, order: seq<Id>)
    requires i < |ids|
    ensures Without(ids[..i + 1], keys) == Without(ids[..i], keys) + if ids[i] in keys then [] else [ids[i]]
    ensures UseAll(order, Only(ids[..i + 1], keys)) ==
      if ids[i] in keys then Used(UseAll(order, Only(ids[..i], keys)), ids[i]) else UseAll(order, Only(ids[..i], keys))
  {
    assert ids[..i + 1][..i] == ids[..i];
    UseAllNext(order, Only(ids[..i], keys), ids[i]);
  }

  /** The ids of the nodes that an insertion really writes. */
  function InsertedIds(ns: seq<Node>): set<Id> {
    set n | n in ns && Insertable(n) :: n.id
  }

  class QueryBuilder {
    var db: Db
    var order: seq<Id>
    var entries: map<Id, Node>

    constructor (db: Db)
      requires Sane(db)
      ensures this.db == db && Valid() && entries == map[] && order == []
    {
      this.db, order, entries := db, [], map[];
    }

    /** The cache mirrors rows and holds at most its maximum. */
    ghost predicate Valid() reads this {
      Sane(db) && Mirrors() && KeysOk()
    }

    ghost predicate Mirrors() reads this`db, this`entries {
      forall id :: id in entries ==> id in db.nodes && entries[id] == db.nodes[id]
    }

    ghost predicate KeysOk() reads this`order, this`entries {
      Distinct(order) && |order| <= MAX_CACHE_SIZE && forall id :: id in order <==> id in entries
    }

    // ---- operations of the Map ----------------------------------------------

    method Forget(id: Id)
      requires KeysOk()
      modifies this`order, this`entries
      ensures KeysOk() && entries == old(entries) - {id} && order == Without(old(order), {id})
    {
      WithoutDistinct(order, {id});
      order := Without(order, {id});
      entries := entries - {id};
    }

    /** Setting a key that is not there. */
    method Append(id: Id, node: Node)
      requires KeysOk() && id !in entries && |order| < MAX_CACHE_SIZE
      modifies this`order, this`entries
      ensures KeysOk() && entries == old(entries)[id := node] && order == old(order) + [id]
    {
      order := order + [id];
      entries := entries[id := node];
    }

    /** A hit moves its entry to the end. */
    method Touch(id: Id)
      requires KeysOk() && id in entries
      modifies this`order, this`entries
      ensures KeysOk() && entries == old(entries) && order == Used(old(order), id)
    {
      hide Without;
      var cached := entries[id];
      WithoutShorter(order, id);
      Forget(id);
      Append(id, cached);
      assert entries == old(entries);
    }

    /** With the cache full, make room by dropping the first entry. */
    method Evict()
      requires KeysOk() && "" !in entries
      modifies this`order, this`entries
      ensures KeysOk() && |order| < MAX_CACHE_SIZE && order == Room(old(order))
      ensures entries == if |old(order)| < MAX_CACHE_SIZE then old(entries) else old(entries) - {old(order)[0]}
    {
      hide Without, Distinct;
      if |order| >= MAX_CACHE_SIZE {
        var firstKey := order[0];
        assert firstKey in order;
        WithoutFirst(order);
        if firstKey != "" {
          Forget(firstKey);
        }
      }
    }

    lemma NoEmptyKey()
      requires Keyed(db) && Mirrors()
      ensures "" !in entries
    {
    }

    /** `cacheNode`. */
    method CacheNode(node: Node)
      requires Valid() && node.id in db.nodes && db.nodes[node.id] == node
      modifies this`order, this`entries
      ensures Valid() && order == Cached(old(order), node.id)
      ensures entries ==
        (if |old(order)| < MAX_CACHE_SIZE then old(entries) else old(entries) - {old(order)[0]})[node.id := node]
    {
      hide Distinct, NoDangling, Room;
      NoEmptyKey();
      Evict();
      if node.id in entries {
        entries := entries[node.id := node];
      } else {
        Append(node.id, node);
      }
    }

    // ---- lookups ---------------------------------------------------------------

    /** `getNodeById`: the row, whether or not it was cached, and a use of it. */
    method GetNodeById(id: Id) returns (r: Option<Node>)
      requires Valid()
      modifies this`order, this`entries
      ensures Valid()
      ensures r == if id in db.nodes then Some(db.nodes[id]) else None
      ensures order == if id in db.nodes then Used(old(order), id) else old(order)
    {
      if id in entries {
        r := Some(entries[id]);
        Touch(id);
        return;
      }
      if id !in db.nodes {
        return None;
      }
      var node := db.nodes[id];
      CacheNode(node);
      return Some(node);
    }

    /** SELECT ... WHERE id IN (...): the rows of one chunk, each once, in an
        order that is not specified. */
    method SelectNodes(chunk: seq<Id>) returns (rows: seq<Node>)
      requires Keyed(db)
      ensures forall n :: n in rows <==> n.id in chunk && n.id in db.nodes && db.nodes[n.id] == n
      ensures Listing(db, chunk, IdsOf(rows))
    {
      rows := [];
      for i := 0 to |chunk|
        invariant forall n :: n in rows <==> n.id in chunk[..i] && n.id in db.nodes && db.nodes[n.id] == n
        invariant Distinct(rows)
      {
        assert chunk[..i + 1] == chunk[..i] + [chunk[i]];
        if chunk[i] in db.nodes && db.nodes[chunk[i]] !in rows {
          rows := rows + [db.nodes[chunk[i]]];
        }
      }
      assert chunk[..|chunk|] == chunk;
      IsListing(chunk, rows);
    }

    lemma IsListing(chunk: seq<Id>, rows: seq<Node>)
      requires Keyed(db) && Distinct(rows)
      requires forall n :: n in rows <==> n.id in chunk && n.id in db.nodes && db.nodes[n.id] == n
      ensures Listing(db, chunk, IdsOf(rows))
    {
      var ids := IdsOf(rows);
      forall id ensures id in ids <==> id in chunk && id in db.nodes {
        if id in chunk && id in db.nodes {
          var k :| 0 <= k < |rows| && rows[k] == db.nodes[id];
          assert ids[k] == id;
        }
        if id in ids {
          var k :| 0 <= k < |ids| && ids[k] == id;
          assert rows[k] in rows;
        }
      }
      forall i, j | 0 <= i < j < |ids| ensures ids[i] != ids[j] {
        assert rows[i] in rows && rows[j] in rows;
      }
    }

    /** Every entry of `out` is the row of a wanted id. */
    ghost predicate Correct(ids: seq<Id>, out: map<Id, Node>) reads this`db {
      forall id :: id in out ==> id in ids && id in db.nodes && out[id] == db.nodes[id]
    }

    /** Cache hits are served from memory, each a use; the rest is left to the
        query. */
    method ServeHits(ids: seq<Id>) returns (out: map<Id, Node>, misses: seq<Id>)
      requires Valid()
      modifies this`order, this`entries
      ensures Valid() && entries == old(entries) && Correct(ids, out)
      ensures order == UseAll(old(order), Only(ids, old(entries).Keys))
      ensures misses == Without(ids, old(entries).Keys)
      ensures forall id :: id in ids ==> id in out || id in misses
    {
      hide Sane, Distinct, Used;
      out, misses := map[], [];
      for i := 0 to |ids|
        invariant Valid() && entries == old(entries) && Correct(ids, out)
        invariant order == UseAll(old(order), Only(ids[..i], old(entries).Keys))
        invariant misses == Without(ids[..i], old(entries).Keys)
        invariant forall j :: 0 <= j < i ==> ids[j] in out || ids[j] in misses
      {
        var id := ids[i];
        SplitNext(ids, i, entries.Keys, old(order));
        if id in entries {
          out := out[id := entries[id]];
          Touch(id);
        } else {
          misses := misses + [id];
        }
      }
      assert ids[..|ids|] == ids;
    }

    /** Add the rows of one chunk to the result and to the cache. */
    method TakeRows(ghost ids: seq<Id>, rows: seq<Node>, out: map<Id, Node>) returns (out': map<Id, Node>)
      requires Valid() && Correct(ids, out)
      requires forall n :: n in rows ==> n.id in ids && n.id in db.nodes && db.nodes[n.id] == n
      modifies this`order, this`entries
      ensures Valid() && Correct(ids, out') && out.Keys <= out'.Keys
      ensures forall n :: n in rows ==> n.id in out'
      ensures order == CacheAll(old(order), IdsOf(rows))
    {
      hide Sane, Distinct, Cached, IdsOf;
      out' := out;
      NoRows(rows);
      for i := 0 to |rows|
        invariant Valid() && Correct(ids, out') && out.Keys <= out'.Keys
        invariant forall j :: 0 <= j < i ==> rows[j].id in out'
        invariant order == CacheAll(old(order), IdsOf(rows)[..i]) && |IdsOf(rows)| == |rows|
      {
        CacheNext(old(order), rows, i);
        out' := out'[rows[i].id := rows[i]];
        CacheNode(rows[i]);
      }
      assert IdsOf(rows)[..|rows|] == IdsOf(rows);
    }

    /** The query for one chunk of the misses. */
    method FetchChunk(ghost ids: seq<Id>, misses: seq<Id>, k: nat, out: map<Id, Node>)
        returns (out': map<Id, Node>, ghost answer: seq<Id>)
      requires Valid() && Correct(ids, out) && k * PARAM_CHUNK_SIZE < |misses|
      requires forall id :: id in misses ==> id in ids
      modifies this`order, this`entries
      ensures Valid() && Correct(ids, out') && out.Keys <= out'.Keys
      ensures Listing(db, Chunk(misses, k), answer) && order == CacheAll(old(order), answer)
      ensures forall id :: id in Chunk(misses, k) && id in db.nodes ==> id in out'
    {
      hide Distinct, NoDangling, CacheAll;
      var chunk := Chunk(misses, k);
      var rows := SelectNodes(chunk);
      assert forall id :: id in chunk ==> id in misses;
      out' := TakeRows(ids, rows, out);
      forall id | id in chunk && id in db.nodes ensures id in out' {
        assert db.nodes[id] in rows;
      }
      answer := IdsOf(rows);
    }

    /** The queries so far listed the rows of the first chunks, all of them taken
        over. */
    ghost predicate Fetched(misses: seq<Id>, answers: seq<seq<Id>>, out: map<Id, Node>)
      reads this`db
    {
      forall k :: 0 <= k < |answers| ==>
        && k * PARAM_CHUNK_SIZE <= |misses| && Listing(db, Chunk(misses, k), answers[k])
        && forall id :: id in Chunk(misses, k) && id in db.nodes ==> id in out
    }

    lemma NoneFetched(misses: seq<Id>, out: map<Id, Node>)
      ensures Fetched(misses, [], out)
    {
    }

    lemma FetchedNext(
      misses: seq<Id>, answers: seq<seq<Id>>, out: map<Id, Node>, answer: seq<Id>, out': map<Id, Node>)
      requires Fetched(misses, answers, out) && out.Keys <= out'.Keys
      requires |answers| * PARAM_CHUNK_SIZE <= |misses| && Listing(db, Chunk(misses, |answers|), answer)
      requires forall id :: id in Chunk(misses, |answers|) && id in db.nodes ==> id in out'
      ensures Fetched(misses, answers + [answer], out')
    {
      hide Chunk, Listing;
    }

    lemma FetchedAll(ids: seq<Id>, misses: seq<Id>, answers: seq<seq<Id>>, out: map<Id, Node>)
      requires Fetched(misses, answers, out) && Correct(ids, out)
      requires |misses| <= |answers| * PARAM_CHUNK_SIZE
      requires |answers| > 0 ==> (|answers| - 1) * PARAM_CHUNK_SIZE < |misses|
      requires forall id :: id in ids ==> id in out || id in misses
      ensures Answers(db, misses, answers)
      ensures out == map id | id in ids && id in db.nodes :: db.nodes[id]
    {
      hide Chunk, Listing;
      AllInChunks(misses, |answers|);
    }

    /** `getNodesByIds`: exactly the rows that exist, fetched in chunks. The hits
        are used, then the rows of each chunk are cached as the query returns
        them; `answers` is what it returned. */
    method GetNodesByIds(ids: seq<Id>) returns (out: map<Id, Node>, ghost answers: seq<seq<Id>>)
      requires Valid()
      modifies this`order, this`entries
      ensures Valid()
      ensures out == map id | id in ids && id in db.nodes :: db.nodes[id]
      ensures Answers(db, Without(ids, old(entries).Keys), answers)
      ensures order == CacheAll(UseAll(old(order), Only(ids, old(entries).Keys)), Flat(answers))
    {
      hide Distinct, Sane, Listing, CacheAll, UseAll, Only, Without, Chunk, Fetched, Answers;
      var misses;
      out, misses := ServeHits(ids);
      ghost var served := order;
      answers := [];
      CacheNone(served);
      NoneFetched(misses, out);
      var i := 0;
      while i < |misses|
        invariant i == |answers| * PARAM_CHUNK_SIZE && i < |misses| + PARAM_CHUNK_SIZE
        invariant Valid() && Correct(ids, out)
        invariant forall id :: id in ids ==> id in out || id in misses
        invariant Fetched(misses, answers, out)
        invariant order == CacheAll(served, Flat(answers))
      {
        ghost var answer;
        var out';
        out', answer := FetchChunk(ids, misses, i / PARAM_CHUNK_SIZE, out);
        FetchedNext(misses, answers, out, answer, out');
        CacheConcat(served, Flat(answers), answer);
        FlatNext(answers, answer);
        answers := answers + [answer];
        out := out';
        i := i + PARAM_CHUNK_SIZE;
      }
      FetchedAll(ids, misses, answers, out);
    }

    // ---- statements that change rows ----------------------------------------------

    /** `insertNode`; the count is 0 when a required column is missing. */
    method InsertNode(node: Node) returns (changes: nat)
      requires Valid()
      modifies this`db, this`order, this`entries
      ensures Valid() && db == PutNode(old(db), node)
      ensures order == Without(old(order), if Insertable(node) then {node.id} else {})
      ensures changes == if Insertable(node) then 1 else 0
    {
      hide Distinct, Without;
      if !Insertable(node) {
        WithoutAbsent(order, {});
        return 0;
      }
      PutSane(db, node);
      Forget(node.id);
      db := PutNode(db, node);
      return 1;
    }

    method InsertNodes(ns: seq<Node>)
      requires Valid()
      modifies this`db, this`order, this`entries
      ensures Valid() && db == PutNodes(old(db), ns) && order == Without(old(order), InsertedIds(ns))
    {
      hide Sane, Distinct, Without;
      WithoutAbsent(order, {});
      assert InsertedIds(ns[..0]) == {};
      for i := 0 to |ns|
        invariant Valid() && db == PutNodes(old(db), ns[..i]) && order == Without(old(order), InsertedIds(ns[..i]))
      {
        var changes := InsertNode(ns[i]);
        assert ns[..i + 1] == ns[..i] + [ns[i]];
        var one := if Insertable(ns[i]) then {ns[i].id} else {};
        WithoutBoth(old(order), InsertedIds(ns[..i]), one);
        assert InsertedIds(ns[..i + 1]) == InsertedIds(ns[..i]) + one;
        assert ns[..i + 1][..i] == ns[..i];
      }
      assert ns[..|ns|] == ns;
    }

    method UpdateNode(node: Node)
      requires Valid()
      modifies this`db, this`order, this`entries
      ensures Valid() && db == ChangeNode(old(db), node) && order == Without(old(order), {node.id})
    {
      hide Distinct, Without;
      Forget(node.id);
      if !Insertable(node) {
        return;
      }
      db := ChangeNode(db, node);
    }

    method DeleteNode(id: Id)
      requires Valid()
      modifies this`db, this`order, this`entries
      ensures Valid() && db == DropNodes(old(db), {id} * old(db).nodes.Keys) && order == Without(old(order), {id})
    {
      hide Distinct, Without, Sane, Keep;
      DropSane(db, {id} * db.nodes.Keys);
      Forget(id);
      db := DropNodes(db, {id} * db.nodes.Keys);
    }

    /** Forget every cached node that `gone` will delete. */
    method ForgetAll(gone: set<Id>)
      requires KeysOk()
      modifies this`order, this`entries
      ensures KeysOk() && entries == old(entries) - gone && order == Without(old(order), gone)
    {
      hide Distinct, Without;
      var rest := gone;
      WithoutAbsent(order, {});
      assert gone - rest == {};
      while rest != {}
        invariant rest <= gone && KeysOk() && entries == old(entries) - (gone - rest)
        invariant order == Without(old(order), gone - rest)
        decreases rest
      {
        var id :| id in rest;
        Forget(id);
        WithoutBoth(old(order), gone - rest, {id});
        assert (gone - rest) + {id} == gone - (rest - {id});
        rest := rest - {id};
      }
      assert gone - rest == gone;
    }

    /** `deleteNodesByFile`: the stale entries are found by the path they carry. */
    method DeleteNodesByFile(file: Path)
      requires Valid()
      modifies this`db, this`order, this`entries
      ensures Valid() && db == DropNodes(old(db), FileNodes(old(db), file))
      ensures order == Without(old(order), FileNodes(old(db), file))
    {
      hide Distinct, Without, Keyed, NoDangling;
      DropSane(db, FileNodes(db, file));
      var stale := set id | id in entries && entries[id].filePath == file;
      WithoutAgree(order, stale, FileNodes(db, file));
      ForgetAll(stale);
      db := DropNodes(db, FileNodes(db, file));
    }

    method DeleteFile(file: Path)
      requires Valid()
      modifies this`db, this`order, this`entries
      ensures Valid() && db == RemoveFile(old(db), file)
      ensures order == Without(old(order), FileNodes(old(db), file))
    {
      DeleteNodesByFile(file);
      db := db.(files := db.files - {file}, content := db.content - {file});
    }

    method UpsertFile(file: Path, record: FileRecord)
      requires Valid()
      modifies this`db
      ensures Valid() && db == old(db).(files := old(db).files[file := record])
    {
      hide Distinct, Without;
      db := db.(files := db.files[file := record]);
    }

    /** Delete, then insert: the raw-content index has no upsert. */
    method UpsertFileContent(file: Path, text: string)
      requires Valid()
      modifies this`db
      ensures Valid() && db == old(db).(content := old(db).content[file := text])
    {
      hide Distinct, Without;
      db := db.(content := db.content - {file});
      db := db.(content := db.content[file := text]);
      assert db.content == old(db).content[file := text];
    }

    method DeleteFileContent(file: Path)
      requires Valid()
      modifies this`db
      ensures Valid() && db == old(db).(content := old(db).content - {file})
    {
      hide Distinct, Without;
      db := db.(content := db.content - {file});
    }

    method InsertEdges(es: seq<Edge>)
      requires Valid()
      modifies this`db
      ensures Valid() && db == AddEdges(old(db), es)
    {
      AddSane(db, es);
      if |es| == 0 {
        assert db.edges + [] == db.edges;
        return;
      }
      db := AddEdges(db, es);
    }

    method ReplaceScipFacts(ns: seq<Node>, es: seq<Edge>)
      requires Valid()
      modifies this`db, this`order, this`entries
      ensures Valid() && db == ReplaceScip(old(db), ns, es)
      ensures order == Without(old(order), ScipNodes(old(db)) + InsertedIds(ns))
    {
      hide Distinct, Without, Keep, PutNodes, AddEdges, ScipId, WithoutScipEdges;
      ghost var cleared := db.(edges := WithoutScipEdges(db.edges));
      DropSane(cleared, ScipNodes(cleared));
      ReplaceScipEdgesSane(db);
      db := db.(edges := WithoutScipEdges(db.edges));
      ForgetAll(ScipNodes(db));
      WithoutBoth(old(order), ScipNodes(db), InsertedIds(ns));
      db := DropNodes(db, ScipNodes(db));
      InsertNodes(ns);
      InsertEdges(es);
    }

    lemma ReplaceScipEdgesSane(db: Db)
      requires Sane(db)
      ensures Sane(db.(edges := WithoutScipEdges(db.edges)))
    {
    }

    method ClearCache()
      requires Valid()
      modifies this`order, this`entries
      ensures Valid() && entries == map[] && order == []
    {
      order, entries := [], map[];
    }

    /** `clear`; the raw-content index is not among the tables it empties. */
    method Clear()
      requires Valid()
      modifies this`db, this`order, this`entries
      ensures Valid() && db == Db(map[], [], map[], old(db).content) && order == []
    {
      ClearCache();
      db := Db(map[], [], map[], db.content);
    }
  }
}
