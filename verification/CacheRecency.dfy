/** Every run of the `QueryBuilder`: against a cache that keeps strictly to least
    recent use, and against a record of use without a limit. */
module CacheRecency {
  import opened Wrappers
  import opened CodeGraph
  import opened Store
  import opened KeyOrder
  import opened KeyRecord
  import opened NodeCache
  import opened CacheRuns

  // ---- the reference cache and the record -------------------------------------------

  /** What an operation uses: the hits of a lookup, then the rows it fetched. */
  function UsesOf(db: Db, order: seq<Id>, op: Op, answers: seq<seq<Id>>): seq<Id> {
    match op
    case Get(id) => if id in db.nodes then [id] else []
    case GetMany(_) => HitsOf(order, op) + Flat(answers)
    case _ => []
  }

  /** The keys of a cache that moves each id used to the end, and drops the
      first key only to make room for a new one. */
  function LruAfter(db: Db, order: seq<Id>, op: Op, answers: seq<seq<Id>>): seq<Id> {
    match op
    case EmptyAll => []
    case EmptyCache => []
    case _ => UseAll(Without(order, Stale(db, op)), UsesOf(db, order, op, answers))
  }

  function LruRun(db: Db, ops: seq<Op>, answers: seq<seq<seq<Id>>>): seq<Id>
    requires |answers| == |ops|
  {
    if ops == [] then []
    else
      var n := |ops| - 1;
      LruAfter(PlainRun(db, ops[..n]).0, LruRun(db, ops[..n], answers[..n]), ops[n], answers[n])
  }

  /** The record of use after one operation: every id used since its row last
      changed, once each, in order of last use, with no limit on how many. */
  function RecordAfter(db: Db, order: seq<Id>, record: seq<Id>, op: Op, answers: seq<seq<Id>>): seq<Id> {
    match op
    case EmptyAll => []
    case EmptyCache => []
    case _ => Added(Without(record, Stale(db, op)), UsesOf(db, order, op, answers))
  }

  function RecordRun(db: Db, ops: seq<Op>, answers: seq<seq<seq<Id>>>): seq<Id>
    requires |answers| == |ops|
  {
    if ops == [] then []
    else
      var n := |ops| - 1;
      RecordAfter(
        PlainRun(db, ops[..n]).0, KeysRun(db, ops[..n], answers[..n]), RecordRun(db, ops[..n], answers[..n]),
        ops[n], answers[n])
  }

  /** The keys in the middle of a batch lookup: its hits are used, and the first
      `n` rows it fetches are cached. */
  function KeysWithin(order: seq<Id>, op: Op, fetched: seq<Id>, n: nat): seq<Id>
    requires n <= |fetched|
  {
    CacheAll(UseAll(order, HitsOf(order, op)), fetched[..n])
  }

  /** Before an operation, and in the middle of it, the keys are those of the
      reference cache. */
  ghost predicate StepFollows(order: seq<Id>, lru: seq<Id>, op: Op, answers: seq<seq<Id>>) {
    && order == lru
    && (op.GetMany? ==> forall n :: 0 <= n <= |Flat(answers)| ==>
          KeysWithin(order, op, Flat(answers), n) == UseAll(lru, HitsOf(lru, op) + Flat(answers)[..n]))
  }

  ghost predicate FollowsAt(db: Db, ops: seq<Op>, answers: seq<seq<seq<Id>>>, i: nat)
    requires i < |answers| == |ops|
  {
    StepFollows(KeysRun(db, ops[..i], answers[..i]), LruRun(db, ops[..i], answers[..i]), ops[i], answers[i])
  }

  /** At every moment of the run the keys are those of the reference cache. */
  ghost predicate FollowsLru(db: Db, ops: seq<Op>, answers: seq<seq<seq<Id>>>)
    requires |answers| == |ops|
  {
    && KeysRun(db, ops, answers) == LruRun(db, ops, answers)
    && forall i :: 0 <= i < |ops| ==> FollowsAt(db, ops, answers, i)
  }

  /** Before an operation, and in the middle of it, the keys are the end of the
      record. */
  ghost predicate StepEnds(order: seq<Id>, record: seq<Id>, op: Op, answers: seq<seq<Id>>) {
    && EndOf(order, record)
    && (op.GetMany? ==> forall n :: 0 <= n <= |Flat(answers)| ==>
          EndOf(KeysWithin(order, op, Flat(answers), n), Added(record, HitsOf(order, op) + Flat(answers)[..n])))
  }

  ghost predicate EndsAt(db: Db, ops: seq<Op>, answers: seq<seq<seq<Id>>>, i: nat)
    requires i < |answers| == |ops|
  {
    StepEnds(KeysRun(db, ops[..i], answers[..i]), RecordRun(db, ops[..i], answers[..i]), ops[i], answers[i])
  }

  /** At every moment of the run the keys are the end of the record: whatever is
      not cached was used before all that is. */
  ghost predicate EndsRecord(db: Db, ops: seq<Op>, answers: seq<seq<seq<Id>>>)
    requires |answers| == |ops|
  {
    && EndOf(KeysRun(db, ops, answers), RecordRun(db, ops, answers))
    && forall i :: 0 <= i < |ops| ==> EndsAt(db, ops, answers, i)
  }

  // ---- one operation -------------------------------------------------------------------

  /** The ids fetched were not in the cache. */
  lemma FetchedAreMisses(db: Db, order: seq<Id>, op: Op, answers: seq<seq<Id>>)
    requires op.GetMany? && Possible(db, order, op, answers)
    ensures forall id :: id in Flat(answers) ==> id !in order && id in db.nodes && id in op.ids
  {
    hide Without;
    FlatMembers(db, Without(op.ids, SetOf(order)), answers);
  }

  lemma {:induction false} FlatMembers(db: Db, misses: seq<Id>, answers: seq<seq<Id>>)
    requires forall k :: 0 <= k < |answers| ==>
      forall id :: id in answers[k] ==> id in misses && id in db.nodes
    ensures forall id :: id in Flat(answers) ==> id in misses && id in db.nodes
  {
    if answers != [] {
      var init := answers[..|answers| - 1];
      FlatMembers(db, misses, init);
    }
  }

  /** Uses of keys that are there keep the keys. */
  lemma {:induction false} HitsKeep(order: seq<Id>, hits: seq<Id>)
    requires Distinct(order) && |order| <= MAX_CACHE_SIZE && forall id :: id in hits ==> id in order
    ensures |UseAll(order, hits)| == |order| && forall id :: id in UseAll(order, hits) <==> id in order
    ensures Distinct(UseAll(order, hits))
    decreases |hits|
  {
    if hits != [] {
      var init, last := hits[..|hits| - 1], hits[|hits| - 1];
      assert hits == init + [last];
      HitsKeep(order, init);
      UseAllKeys(order, hits);
      hide Without, Distinct, UseAll;
      UseAllNext(order, init, last);
      WithoutShorter(UseAll(order, init), last);
    }
  }

  /** What holds once the hits of a batch are used. */
  lemma Served(db: Db, order: seq<Id>, op: Op, answers: seq<seq<Id>>)
    requires Distinct(order) && |order| <= MAX_CACHE_SIZE
    requires op.GetMany? && Possible(db, order, op, answers)
    ensures var served := UseAll(order, HitsOf(order, op));
      && Distinct(served) && |served| == |order|
      && forall id :: id in Flat(answers) ==> id !in served
  {
    hide Distinct, UseAll, Only, Possible;
    FetchedAreMisses(db, order, op, answers);
    HitsKeep(order, HitsOf(order, op));
  }

  /** A batch lookup amounts to uses of its hits and its rows, one by one,
      exactly when it fetches nothing again too soon. */
  lemma BatchIsUses(db: Db, order: seq<Id>, op: Op, answers: seq<seq<Id>>)
    requires Distinct(order) && |order| <= MAX_CACHE_SIZE
    requires op.GetMany? && Possible(db, order, op, answers)
    ensures StepFollows(order, order, op, answers) <==> NoneSoon(|order|, Flat(answers))
    ensures NoneSoon(|order|, Flat(answers)) ==>
      KeysAfter(db, order, op, answers) == UseAll(order, UsesOf(db, order, op, answers))
  {
    var hits, fetched := HitsOf(order, op), Flat(answers);
    var served := UseAll(order, hits);
    Served(db, order, op, answers);
    hide Distinct, UseAll, CacheAll, NoneSoon, Prompt, HitsOf, Possible;
    PromptIff(served, fetched);
    SameThroughoutIff(served, fetched);
    forall n | 0 <= n <= |fetched| ensures UseAll(order, hits + fetched[..n]) == UseAll(served, fetched[..n]) {
      UseAllConcat(order, hits, fetched[..n]);
    }
    assert fetched[..|fetched|] == fetched;
  }

  /** One operation as the reference cache would do it. */
  lemma StepIsLru(db: Db, order: seq<Id>, op: Op, answers: seq<seq<Id>>)
    requires Distinct(order) && |order| <= MAX_CACHE_SIZE && Possible(db, order, op, answers)
    requires op.GetMany? ==> NoneSoon(|order|, Flat(answers))
    ensures KeysAfter(db, order, op, answers) == LruAfter(db, order, op, answers)
  {
    hide Distinct, UseAll, NoneSoon, Possible, Without;
    NoIds(order);
    NoIds(Without(order, Stale(db, op)));
    match op
    case Get(id) => RecentOne(id, order);
    case GetMany(_) => BatchIsUses(db, order, op, answers);
    case _ =>
  }

  lemma RecentOne(id: Id, order: seq<Id>)
    ensures UseAll(order, [id]) == Used(order, id)
  {
    assert [id][..0] == [];
  }

  lemma KeysAfterKeys(db: Db, order: seq<Id>, op: Op, answers: seq<seq<Id>>)
    requires Distinct(order) && |order| <= MAX_CACHE_SIZE
    ensures Distinct(KeysAfter(db, order, op, answers)) && |KeysAfter(db, order, op, answers)| <= MAX_CACHE_SIZE
  {
    hide Without, UseAll, CacheAll, Used, Stale, HitsOf;
    WithoutDistinct(order, Stale(db, op));
    match op
    case Get(id) => UsedKeys(order, id);
    case GetMany(_) =>
      UseAllKeys(order, HitsOf(order, op));
      CacheAllKeys(UseAll(order, HitsOf(order, op)), Flat(answers));
    case _ =>
  }

  /** While a batch lookup runs the keys stay the end of the record exactly when
      it fetches nothing out of turn. */
  lemma BatchEnds(db: Db, order: seq<Id>, record: seq<Id>, op: Op, answers: seq<seq<Id>>)
    requires EndOf(order, record) && Distinct(record) && |order| <= MAX_CACHE_SIZE
    requires op.GetMany? && Possible(db, order, op, answers)
    ensures StepEnds(order, record, op, answers) <==> NoneOutOfTurn(Flat(answers))
    ensures NoneOutOfTurn(Flat(answers)) ==>
      EndOf(KeysAfter(db, order, op, answers), Added(record, UsesOf(db, order, op, answers)))
  {
    var hits, fetched := HitsOf(order, op), Flat(answers);
    var served, all := UseAll(order, hits), Added(record, hits);
    EndDistinct(order, record);
    Served(db, order, op, answers);
    UseAllEndOf(order, record, hits);
    AddedDistinct(record, hits);
    hide Distinct, UseAll, CacheAll, Added, EndOf, NoneOutOfTurn, HitsOf, Possible;
    EndsIff(served, all, fetched);
    forall n | 0 <= n <= |fetched| ensures Added(record, hits + fetched[..n]) == Added(all, fetched[..n]) {
      AddedConcat(record, hits, fetched[..n]);
    }
    assert fetched[..|fetched|] == fetched;
    WithinIff(order, record, op, fetched);
  }

  lemma WithinIff(order: seq<Id>, record: seq<Id>, op: Op, fetched: seq<Id>)
    requires forall n :: 0 <= n <= |fetched| ==>
      Added(record, HitsOf(order, op) + fetched[..n]) == Added(Added(record, HitsOf(order, op)), fetched[..n])
    ensures EndsThroughout(UseAll(order, HitsOf(order, op)), Added(record, HitsOf(order, op)), fetched) <==>
      forall n :: 0 <= n <= |fetched| ==>
        EndOf(KeysWithin(order, op, fetched, n), Added(record, HitsOf(order, op) + fetched[..n]))
  {
    hide UseAll, CacheAll, Added, EndOf, HitsOf;
    var hits := HitsOf(order, op);
    forall n | 0 <= n <= |fetched|
      ensures EndsWithin(UseAll(order, hits), Added(record, hits), fetched, n) <==>
        EndOf(KeysWithin(order, op, fetched, n), Added(record, hits + fetched[..n]))
    {
    }
  }

  /** One operation keeps the keys the end of the record. */
  lemma StepKeepsEnd(db: Db, order: seq<Id>, record: seq<Id>, op: Op, answers: seq<seq<Id>>)
    requires EndOf(order, record) && Distinct(record) && |order| <= MAX_CACHE_SIZE
    requires Possible(db, order, op, answers) && (op.GetMany? ==> NoneOutOfTurn(Flat(answers)))
    ensures EndOf(KeysAfter(db, order, op, answers), RecordAfter(db, order, record, op, answers))
  {
    hide Distinct, UseAll, CacheAll, EndOf, Possible, Without, HitsOf, Added, NoneOutOfTurn;
    NoIds(record);
    match op
    case Get(id) =>
      AddedNone(record);
      RecentOne(id, order);
      UseAllEndOf(order, record, UsesOf(db, order, op, answers));
    case GetMany(_) => BatchEnds(db, order, record, op, answers);
    case EmptyAll => EndNone();
    case EmptyCache => EndNone();
    case _ =>
      AddedNone(Without(record, Stale(db, op)));
      WithoutEndOf(order, record, Stale(db, op));
  }

  lemma EndNone()
    ensures EndOf([], [])
  {
  }

  // ---- every run -----------------------------------------------------------------------

  lemma {:induction false} KeysRunKeys(db: Db, ops: seq<Op>, answers: seq<seq<seq<Id>>>)
    requires |answers| == |ops|
    ensures Distinct(KeysRun(db, ops, answers)) && |KeysRun(db, ops, answers)| <= MAX_CACHE_SIZE
    decreases |ops|
  {
    if ops != [] {
      var n := |ops| - 1;
      KeysRunKeys(db, ops[..n], answers[..n]);
      KeysAfterKeys(PlainRun(db, ops[..n]).0, KeysRun(db, ops[..n], answers[..n]), ops[n], answers[n]);
    }
  }

  lemma {:induction false} RecordRunDistinct(db: Db, ops: seq<Op>, answers: seq<seq<seq<Id>>>)
    requires |answers| == |ops|
    ensures Distinct(RecordRun(db, ops, answers))
    decreases |ops|
  {
    if ops != [] {
      var n := |ops| - 1;
      var d, keys := PlainRun(db, ops[..n]).0, KeysRun(db, ops[..n], answers[..n]);
      var record := RecordRun(db, ops[..n], answers[..n]);
      RecordRunDistinct(db, ops[..n], answers[..n]);
      WithoutDistinct(record, Stale(d, ops[n]));
      AddedDistinct(Without(record, Stale(d, ops[n])), UsesOf(d, keys, ops[n], answers[n]));
    }
  }

  ghost predicate NoneSoonAt(db: Db, ops: seq<Op>, answers: seq<seq<seq<Id>>>, i: nat)
    requires i < |answers| == |ops|
  {
    ops[i].GetMany? ==> NoneSoon(|KeysRun(db, ops[..i], answers[..i])|, Flat(answers[i]))
  }

  /** No batch lookup of the run fetches an id again too soon after it fetched
      it in an earlier chunk. */
  ghost predicate NoneRepeatedSoon(db: Db, ops: seq<Op>, answers: seq<seq<seq<Id>>>)
    requires |answers| == |ops|
  {
    forall i :: 0 <= i < |ops| ==> NoneSoonAt(db, ops, answers, i)
  }

  /** No batch lookup of the run fetches an id out of turn. */
  ghost predicate NoneFetchedOutOfTurn(ops: seq<Op>, answers: seq<seq<seq<Id>>>)
    requires |answers| == |ops|
  {
    forall i :: 0 <= i < |ops| && ops[i].GetMany? ==> NoneOutOfTurn(Flat(answers[i]))
  }

  lemma PrefixRun(db: Db, ops: seq<Op>, answers: seq<seq<seq<Id>>>, n: nat)
    requires n <= |answers| == |ops|
    ensures PossibleRun(db, ops, answers) ==> PossibleRun(db, ops[..n], answers[..n])
    ensures NoneRepeatedSoon(db, ops, answers) ==> NoneRepeatedSoon(db, ops[..n], answers[..n])
    ensures NoneFetchedOutOfTurn(ops, answers) ==> NoneFetchedOutOfTurn(ops[..n], answers[..n])
  {
    hide Possible, NoneSoon, NoneOutOfTurn, KeysRun, PlainRun;
    assert forall i :: 0 <= i < n ==> ops[..n][..i] == ops[..i] && answers[..n][..i] == answers[..i];
    forall i | 0 <= i < n
      ensures PossibleRun(db, ops, answers) ==> PossibleAt(db, ops[..n], answers[..n], i)
      ensures NoneRepeatedSoon(db, ops, answers) ==> NoneSoonAt(db, ops[..n], answers[..n], i)
    {
      assert PossibleAt(db, ops[..n], answers[..n], i) <==> PossibleAt(db, ops, answers, i);
      assert NoneSoonAt(db, ops[..n], answers[..n], i) <==> NoneSoonAt(db, ops, answers, i);
    }
  }

  lemma {:induction false} SameKeys(db: Db, ops: seq<Op>, answers: seq<seq<seq<Id>>>)
    requires |answers| == |ops| && PossibleRun(db, ops, answers) && NoneRepeatedSoon(db, ops, answers)
    ensures KeysRun(db, ops, answers) == LruRun(db, ops, answers)
    decreases |ops|
  {
    if ops != [] {
      var n := |ops| - 1;
      PrefixRun(db, ops, answers, n);
      SameKeys(db, ops[..n], answers[..n]);
      KeysRunKeys(db, ops[..n], answers[..n]);
      hide Distinct, NoneSoon, Possible, KeysAfter, LruAfter, PlainRun;
      assert PossibleAt(db, ops, answers, n) && NoneSoonAt(db, ops, answers, n);
      StepIsLru(PlainRun(db, ops[..n]).0, KeysRun(db, ops[..n], answers[..n]), ops[n], answers[n]);
    }
  }

  /** Least recently used, over every run of mutators and lookups: at every
      moment the keys are those of a cache in which whatever is used goes last
      and the first key goes when a new one needs its place, exactly when no
      batch lookup fetches a row again too soon. */
  lemma LruIff(db: Db, ops: seq<Op>, answers: seq<seq<seq<Id>>>)
    requires |answers| == |ops| && PossibleRun(db, ops, answers)
    ensures FollowsLru(db, ops, answers) <==> NoneRepeatedSoon(db, ops, answers)
  {
    hide Distinct, NoneSoon, Possible, StepFollows, KeysRun, LruRun, PlainRun;
    forall i | 0 <= i < |ops|
      ensures FollowsAt(db, ops, answers, i) ==> NoneSoonAt(db, ops, answers, i)
      ensures NoneRepeatedSoon(db, ops, answers) ==> FollowsAt(db, ops, answers, i)
    {
      StepFollowsIff(db, ops, answers, i);
      if NoneRepeatedSoon(db, ops, answers) {
        assert NoneSoonAt(db, ops, answers, i);
        PrefixRun(db, ops, answers, i);
        SameKeys(db, ops[..i], answers[..i]);
      }
    }
    if NoneRepeatedSoon(db, ops, answers) {
      SameKeys(db, ops, answers);
    }
  }

  lemma StepFollowsIff(db: Db, ops: seq<Op>, answers: seq<seq<seq<Id>>>, i: nat)
    requires i < |answers| == |ops| && PossibleRun(db, ops, answers)
    ensures FollowsAt(db, ops, answers, i) <==>
      KeysRun(db, ops[..i], answers[..i]) == LruRun(db, ops[..i], answers[..i]) && NoneSoonAt(db, ops, answers, i)
  {
    var keys := KeysRun(db, ops[..i], answers[..i]);
    KeysRunKeys(db, ops[..i], answers[..i]);
    assert PossibleAt(db, ops, answers, i);
    hide Distinct, NoneSoon, Possible, KeysRun, LruRun, PlainRun, KeysWithin;
    if ops[i].GetMany? {
      BatchIsUses(PlainRun(db, ops[..i]).0, keys, ops[i], answers[i]);
    }
  }

  lemma {:induction false} EndKept(db: Db, ops: seq<Op>, answers: seq<seq<seq<Id>>>)
    requires |answers| == |ops| && PossibleRun(db, ops, answers) && NoneFetchedOutOfTurn(ops, answers)
    ensures EndOf(KeysRun(db, ops, answers), RecordRun(db, ops, answers))
    decreases |ops|
  {
    if ops == [] {
      EndNone();
    } else {
      var n := |ops| - 1;
      PrefixRun(db, ops, answers, n);
      EndKept(db, ops[..n], answers[..n]);
      EndKeptLast(db, ops, answers);
    }
  }

  lemma EndKeptLast(db: Db, ops: seq<Op>, answers: seq<seq<seq<Id>>>)
    requires |answers| == |ops| > 0 && PossibleRun(db, ops, answers) && NoneFetchedOutOfTurn(ops, answers)
    requires var n := |ops| - 1;
      EndOf(KeysRun(db, ops[..n], answers[..n]), RecordRun(db, ops[..n], answers[..n]))
    ensures EndOf(KeysRun(db, ops, answers), RecordRun(db, ops, answers))
  {
    hide Distinct, NoneOutOfTurn, Possible, KeysAfter, RecordAfter, EndOf, PlainRun;
    var n := |ops| - 1;
    var d, keys := PlainRun(db, ops[..n]).0, KeysRun(db, ops[..n], answers[..n]);
    var record := RecordRun(db, ops[..n], answers[..n]);
    KeysRunKeys(db, ops[..n], answers[..n]);
    RecordRunDistinct(db, ops[..n], answers[..n]);
    assert PossibleAt(db, ops, answers, n);
    StepKeepsEnd(d, keys, record, ops[n], answers[n]);
  }

  /** Over every run of mutators and lookups: at every moment whatever the cache
      lacks was used before all it holds, exactly when no batch lookup fetches a
      row out of turn. */
  lemma MostRecentIff(db: Db, ops: seq<Op>, answers: seq<seq<seq<Id>>>)
    requires |answers| == |ops| && PossibleRun(db, ops, answers)
    ensures EndsRecord(db, ops, answers) <==> NoneFetchedOutOfTurn(ops, answers)
  {
    hide Distinct, NoneOutOfTurn, Possible, StepEnds, KeysRun, RecordRun, PlainRun, EndOf;
    forall i | 0 <= i < |ops|
      ensures EndsAt(db, ops, answers, i) && ops[i].GetMany? ==> NoneOutOfTurn(Flat(answers[i]))
      ensures NoneFetchedOutOfTurn(ops, answers) ==> EndsAt(db, ops, answers, i)
    {
      StepEndsIff(db, ops, answers, i);
      if NoneFetchedOutOfTurn(ops, answers) {
        PrefixRun(db, ops, answers, i);
        EndKept(db, ops[..i], answers[..i]);
      }
    }
    if NoneFetchedOutOfTurn(ops, answers) {
      EndKept(db, ops, answers);
    }
  }

  lemma StepEndsIff(db: Db, ops: seq<Op>, answers: seq<seq<seq<Id>>>, i: nat)
    requires i < |answers| == |ops| && PossibleRun(db, ops, answers)
    ensures EndsAt(db, ops, answers, i) <==>
      && EndOf(KeysRun(db, ops[..i], answers[..i]), RecordRun(db, ops[..i], answers[..i]))
      && (ops[i].GetMany? ==> NoneOutOfTurn(Flat(answers[i])))
  {
    var keys, record := KeysRun(db, ops[..i], answers[..i]), RecordRun(db, ops[..i], answers[..i]);
    KeysRunKeys(db, ops[..i], answers[..i]);
    RecordRunDistinct(db, ops[..i], answers[..i]);
    assert PossibleAt(db, ops, answers, i);
    hide Distinct, NoneOutOfTurn, Possible, KeysRun, RecordRun, PlainRun, KeysWithin, EndOf, Added;
    if ops[i].GetMany? && EndOf(keys, record) {
      BatchEnds(PlainRun(db, ops[..i]).0, keys, record, ops[i], answers[i]);
    }
  }

  // ---- which calls are safe ------------------------------------------------------------

  /** No wanted row is missing from the cache in two different chunks. */
  ghost predicate FetchedOnce(db: Db, misses: seq<Id>, n: nat) {
    forall j, k :: 0 <= j < k < n && k * PARAM_CHUNK_SIZE <= |misses| ==>
      forall id :: id in Chunk(misses, j) && id in Chunk(misses, k) ==> id !in db.nodes
  }

  /** A batch fetches no row twice exactly when the ids it misses and that exist
      each stay within one chunk, whatever order the rows come in. */
  lemma FetchedOnceIff(db: Db, misses: seq<Id>, answers: seq<seq<Id>>)
    requires Answers(db, misses, answers)
    ensures Distinct(Flat(answers)) <==> FetchedOnce(db, misses, |answers|)
  {
    hide Chunk;
    assert forall k :: 0 <= k < |answers| ==> Listing(db, Chunk(misses, k), answers[k]);
    FlatDistinct(answers);
  }

  lemma {:induction false} FlatDistinct(answers: seq<seq<Id>>)
    requires forall k :: 0 <= k < |answers| ==> Distinct(answers[k])
    ensures forall id :: id in Flat(answers) <==> exists k :: 0 <= k < |answers| && id in answers[k]
    ensures Distinct(Flat(answers)) <==>
      forall j, k :: 0 <= j < k < |answers| ==> forall id :: id in answers[j] ==> id !in answers[k]
  {
    if answers != [] {
      var n := |answers| - 1;
      var init, last := answers[..n], answers[n];
      FlatDistinct(init);
      assert answers == init + [last];
      DistinctConcat(Flat(init), last);
    }
  }

  lemma DistinctConcat(a: seq<Id>, b: seq<Id>)
    ensures Distinct(a + b) <==> Distinct(a) && Distinct(b) && forall x :: x in a ==> x !in b
  {
    if Distinct(a) && Distinct(b) && forall x :: x in a ==> x !in b {
      Apart(a, b);
    }
    if Distinct(a + b) {
      assert forall i :: 0 <= i < |a| ==> (a + b)[i] == a[i];
      assert forall i :: 0 <= i < |b| ==> (a + b)[|a| + i] == b[i];
    }
  }

  /** Of a full cache, and a batch that would not fill it, this says all: the
      keys follow the reference cache exactly when no wanted row is missing in
      two chunks, whatever order the rows come in. */
  lemma FullBatchIff(db: Db, order: seq<Id>, op: Op, answers: seq<seq<Id>>)
    requires Distinct(order) && |order| == MAX_CACHE_SIZE
    requires op.GetMany? && |SetOf(op.ids)| < MAX_CACHE_SIZE && Possible(db, order, op, answers)
    ensures StepFollows(order, order, op, answers) <==>
      FetchedOnce(db, Without(op.ids, SetOf(order)), |answers|)
  {
    BatchIsUses(db, order, op, answers);
    FetchedAreMisses(db, order, op, answers);
    FetchedOnceIff(db, Without(op.ids, SetOf(order)), answers);
    hide Distinct, NoneSoon, StepFollows, FetchedOnce, Without, Flat;
    SubsetSize(SetOf(Flat(answers)), SetOf(op.ids));
    FullNoneSoon(Flat(answers));
  }

  /** A call that lists each id once, or no more ids than fit one query, fetches
      each row once. */
  lemma ShortOrDistinct(db: Db, ids: seq<Id>, cached: set<Id>, answers: seq<seq<Id>>)
    requires Answers(db, Without(ids, cached), answers)
    requires Distinct(ids) || |ids| <= PARAM_CHUNK_SIZE
    ensures FetchedOnce(db, Without(ids, cached), |answers|)
  {
    var misses := Without(ids, cached);
    if Distinct(ids) {
      WithoutDistinct(ids, cached);
      forall j, k, id | 0 <= j < k < |answers| && k * PARAM_CHUNK_SIZE <= |misses| && id in Chunk(misses, j)
        ensures id !in Chunk(misses, k)
      {
        ChunksApart(misses, j, k);
      }
    } else {
      WithoutSize(ids, cached);
    }
  }

  lemma ChunksApart(misses: seq<Id>, j: nat, k: nat)
    requires Distinct(misses) && j < k && k * PARAM_CHUNK_SIZE <= |misses|
    ensures forall id :: id in Chunk(misses, j) ==> id !in Chunk(misses, k)
  {
    var a, b := j * PARAM_CHUNK_SIZE, k * PARAM_CHUNK_SIZE;
    assert a + PARAM_CHUNK_SIZE <= b;
    assert forall i :: 0 <= i < |Chunk(misses, j)| ==> Chunk(misses, j)[i] == misses[a + i];
    assert forall i :: 0 <= i < |Chunk(misses, k)| ==> Chunk(misses, k)[i] == misses[b + i];
  }

  lemma {:induction false} WithoutSize(ids: seq<Id>, gone: set<Id>)
    ensures |Without(ids, gone)| <= |ids|
  {
    if ids != [] {
      WithoutSize(ids[..|ids| - 1], gone);
    }
  }

  ghost predicate FetchedOnceAt(db: Db, ops: seq<Op>, answers: seq<seq<seq<Id>>>, i: nat)
    requires i < |answers| == |ops|
  {
    ops[i].GetMany? ==>
      var missed := Without(ops[i].ids, SetOf(KeysRun(db, ops[..i], answers[..i])));
      FetchedOnce(PlainRun(db, ops[..i]).0, missed, |answers[i]|)
  }

  /** A run whose batch lookups each miss no existing id in two chunks keeps to
      least recent use throughout, whatever order the rows come in. */
  lemma OnceIsLru(db: Db, ops: seq<Op>, answers: seq<seq<seq<Id>>>)
    requires |answers| == |ops| && PossibleRun(db, ops, answers)
    requires forall i :: 0 <= i < |ops| ==> FetchedOnceAt(db, ops, answers, i)
    ensures FollowsLru(db, ops, answers) && EndsRecord(db, ops, answers)
  {
    hide FollowsLru, EndsRecord, Without, Answers, FetchedOnce, Distinct, NoneSoon, KeysRun, PlainRun, OutOfTurn,
      RepeatedSoon;
    forall i | 0 <= i < |ops|
      ensures NoneSoonAt(db, ops, answers, i) && (ops[i].GetMany? ==> NoneOutOfTurn(Flat(answers[i])))
    {
      assert PossibleAt(db, ops, answers, i) && FetchedOnceAt(db, ops, answers, i);
      if ops[i].GetMany? {
        var keys := KeysRun(db, ops[..i], answers[..i]);
        FetchedOnceIff(PlainRun(db, ops[..i]).0, Without(ops[i].ids, SetOf(keys)), answers[i]);
        DistinctNoneSoon(|keys|, Flat(answers[i]));
        SoonCoversTurn(|keys|, Flat(answers[i]));
      }
    }
    LruIff(db, ops, answers);
    MostRecentIff(db, ops, answers);
  }

  /** A run whose every batch lookup lists each id once, or few ids. */
  lemma EachOnceIsLru(db: Db, ops: seq<Op>, answers: seq<seq<seq<Id>>>)
    requires |answers| == |ops| && PossibleRun(db, ops, answers)
    requires forall i :: 0 <= i < |ops| && ops[i].GetMany? ==> Distinct(ops[i].ids) || |ops[i].ids| <= PARAM_CHUNK_SIZE
    ensures FollowsLru(db, ops, answers) && EndsRecord(db, ops, answers)
  {
    hide FollowsLru, EndsRecord, Without, Answers, FetchedOnce, Distinct, KeysRun, PlainRun;
    forall i | 0 <= i < |ops| ensures FetchedOnceAt(db, ops, answers, i) {
      assert PossibleAt(db, ops, answers, i);
      if ops[i].GetMany? {
        ShortOrDistinct(
          PlainRun(db, ops[..i]).0, ops[i].ids, SetOf(KeysRun(db, ops[..i], answers[..i])), answers[i]);
      }
    }
    OnceIsLru(db, ops, answers);
  }

  lemma SoonCoversTurn(size: nat, ids: seq<Id>)
    requires NoneSoon(size, ids)
    ensures NoneOutOfTurn(ids)
  {
    forall h: nat, i: nat ensures !OutOfTurn(ids, h, i) {
      if OutOfTurn(ids, h, i) {
        OutOfTurnIsSoon(size, ids, h, i);
      }
    }
  }

  /** Looking up existing rows one by one: the cache holds exactly the last ones
      used, as many as it may hold, the least recently used first. */
  method LookUpAll(db: Db, ids: seq<Id>) returns (order: seq<Id>)
    requires Sane(db) && forall id :: id in ids ==> id in db.nodes
    ensures order == Latest(Recent(ids))
  {
    var q := new QueryBuilder(db);
    order := Fill(q, ids);
  }

  method Fill(q: QueryBuilder, ids: seq<Id>) returns (order: seq<Id>)
    requires q.Valid() && q.order == [] && forall id :: id in ids ==> id in q.db.nodes
    modifies q`order, q`entries
    ensures q.Valid() && q.db == old(q.db) && q.order == order == Latest(Recent(ids))
  {
    hide Sane, Distinct, Without, Used, Latest, Recent;
    NothingUsed();
    for i := 0 to |ids|
      invariant q.Valid() && q.db == old(q.db) && q.order == Latest(Recent(ids[..i]))
    {
      assert ids[..i + 1] == ids[..i] + [ids[i]] && ids[i] in ids;
      UsedNext(ids[..i], ids[i]);
      var r := q.GetNodeById(ids[i]);
    }
    assert ids[..|ids|] == ids;
    order := q.order;
  }

  /** One more use of the latest ids used. */
  lemma UsedNext(ids: seq<Id>, id: Id)
    ensures Used(Latest(Recent(ids)), id) == Latest(Recent(ids + [id]))
  {
    RecentByUse(ids);
    UsedLatest(Recent(ids), id);
    RecentNext(ids, id);
  }

  lemma NothingUsed()
    ensures Latest(Recent([])) == []
  {
  }

  // ---- a row fetched twice ---------------------------------------------------------------

  /** One missed id, wanted once too often for one chunk: with the cache full it
      costs two entries instead of one, the second for nothing. */
  method FetchTwice(q: QueryBuilder, id: Id) returns (unrelated: Id)
    requires q.Valid() && |q.order| == MAX_CACHE_SIZE && id in q.db.nodes && id !in q.entries
    modifies q`order, q`entries
    ensures q.order == old(q.order)[2..] + [id] && |q.order| == MAX_CACHE_SIZE - 1
    ensures unrelated == old(q.order)[1] && unrelated in old(q.order) && unrelated !in q.order
    ensures unrelated in Used(old(q.order), id)
  {
    var ids := seq(PARAM_CHUNK_SIZE + 1, i => id);
    unrelated := q.order[1];
    ghost var before := q.order;
    assert forall x :: x in ids ==> x == id;
    WithoutAbsent(ids, q.entries.Keys);
    OnlyNone(ids, q.entries.Keys);
    var out, answers := q.GetNodesByIds(ids);
    TwoChunks(q.db, id, answers);
    TwiceCached(before, id);
  }

  lemma TwoChunks(db: Db, id: Id, answers: seq<seq<Id>>)
    requires id in db.nodes && Answers(db, seq(PARAM_CHUNK_SIZE + 1, i => id), answers)
    ensures Flat(answers) == [id, id]
  {
    var ids := seq(PARAM_CHUNK_SIZE + 1, i => id);
    assert |answers| == 2;
    forall k | 0 <= k < 2 ensures answers[k] == [id] {
      assert Chunk(ids, k)[0] == id;
      OnlyOne(answers[k], id);
    }
    assert answers == [[id]] + [[id]];
    FlatNext([[id]], [id]);
    assert [[id]] == [] + [[id]];
    FlatNext([], [id]);
  }

  lemma OnlyOne(r: seq<Id>, id: Id)
    requires Distinct(r) && forall x :: x in r <==> x == id
    ensures r == [id]
  {
    DistinctSize(r, {id});
  }

  lemma TwiceCached(order: seq<Id>, id: Id)
    requires Distinct(order) && |order| == MAX_CACHE_SIZE && id !in order
    ensures CacheAll(order, [id, id]) == order[2..] + [id]
    ensures order[1] in Used(order, id) && order[1] !in order[2..] + [id] && UseAll(order, []) == order
  {
    var once := order[1..] + [id];
    assert Cached(order, id) == once;
    assert once[1..] == order[2..] + [id] && once[1..][MAX_CACHE_SIZE - 2] == id;
    assert Cached(once, id) == once[1..];
    assert [id, id][..1] == [id] && [id][..0] == [];
    assert CacheAll(order, [id]) == once;
    assert order[1..][0] == order[1];
  }

  lemma {:induction false} OnlyNone(ids: seq<Id>, keys: set<Id>)
    requires forall x :: x in ids ==> x !in keys
    ensures Only(ids, keys) == []
  {
    if ids != [] {
      assert ids == ids[..|ids| - 1] + [ids[|ids| - 1]];
      OnlyNone(ids[..|ids| - 1], keys);
    }
  }

  function Name(i: nat): Id {
    seq(i + 1, k => 'a')
  }

  /** One symbol more than the cache holds. */
  function ManySymbols(): Db {
    var ids := set i | 0 <= i <= MAX_CACHE_SIZE :: Name(i);
    Db(map id | id in ids :: Node(id, Function, "f", "src/f.ts", "typescript", ""), [], map[], map[])
  }

  lemma ManySane()
    ensures Sane(ManySymbols()) && forall i :: 0 <= i <= MAX_CACHE_SIZE ==> Name(i) in ManySymbols().nodes
  {
    assert forall i: nat :: |Name(i)| == i + 1;
  }

  function FirstNames(): seq<Id> {
    seq(MAX_CACHE_SIZE, i requires 0 <= i < MAX_CACHE_SIZE => Name(i))
  }

  lemma FirstNamesDistinct()
    ensures Distinct(FirstNames()) && |FirstNames()| == MAX_CACHE_SIZE && Name(MAX_CACHE_SIZE) !in FirstNames()
    ensures forall id :: id in FirstNames() ==> id in ManySymbols().nodes
  {
    ManySane();
    var ids := FirstNames();
    assert forall i :: 0 <= i < |ids| ==> ids[i] == Name(i) && |ids[i]| == i + 1;
    assert |Name(MAX_CACHE_SIZE)| == MAX_CACHE_SIZE + 1;
  }

  /** It does happen: with the cache filled by lookups of a thousand symbols, one
      batch for a single other symbol leaves 999 entries. */
  method RefetchOnFullCache() returns (left: nat)
    ensures left == MAX_CACHE_SIZE - 1
  {
    ManySane();
    FirstNamesDistinct();
    RecentAll(FirstNames());
    hide Sane, Distinct, ManySymbols, Recent, FirstNames;
    var q := new QueryBuilder(ManySymbols());
    var order := Fill(q, FirstNames());
    assert order == FirstNames();
    var unrelated := FetchTwice(q, Name(MAX_CACHE_SIZE));
    left := |q.order|;
  }

  /** Two ids, the second many times, and the first again in the next chunk. */
  function ThenAgain(x: Id, y: Id): seq<Id> {
    [x] + seq(PARAM_CHUNK_SIZE - 1, i => y) + [x]
  }

  /** Another failure: two rows fetched in turn, and the first once more. With
      room in the cache it stays in front of the second, although that one was
      used before it, and goes first when room is needed. */
  lemma FetchedOutOfTurn()
    ensures var db, x, y := ManySymbols(), Name(0), Name(1);
      var batch, answer := GetMany(ThenAgain(x, y)), [[x, y], [x]];
      && PossibleRun(db, [batch], [answer])
      && KeysRun(db, [batch], [answer]) == [x, y] && RecordRun(db, [batch], [answer]) == [y, x]
      && !EndsRecord(db, [batch], [answer])
  {
    ManySane();
    assert |Name(0)| == 1 && |Name(1)| == 2;
    hide ManySymbols, Name;
    OutOfTurnBatch(ManySymbols(), Name(0), Name(1));
  }

  lemma OutOfTurnBatch(db: Db, x: Id, y: Id)
    requires x != y && x in db.nodes && y in db.nodes
    ensures var batch, answer := GetMany(ThenAgain(x, y)), [[x, y], [x]];
      && PossibleRun(db, [batch], [answer])
      && KeysRun(db, [batch], [answer]) == [x, y] && RecordRun(db, [batch], [answer]) == [y, x]
      && !EndsRecord(db, [batch], [answer])
  {
    hide ThenAgain, KeysRun, RecordRun, PossibleRun, KeysAfter, RecordAfter, Possible, CacheAll, Added, EndOf,
      Answers, Flat;
    var ids, answer := ThenAgain(x, y), [[x, y], [x]];
    OneRun(db, GetMany(ids), answer);
    AnswersInTurn(db, x, y);
    OneBatch(db, ids, answer);
    CachedInTurn(x, y);
    AddedInTurn(x, y);
    LastOfEnd([x, y], [y], x);
    assert [y] + [x] == [y, x];
  }

  /** A batch lookup that finds the cache empty. */
  lemma OneBatch(db: Db, ids: seq<Id>, answer: seq<seq<Id>>)
    ensures KeysAfter(db, [], GetMany(ids), answer) == CacheAll([], Flat(answer))
    ensures RecordAfter(db, [], [], GetMany(ids), answer) == Added([], Flat(answer))
    ensures Possible(db, [], GetMany(ids), answer) <==> Answers(db, ids, answer)
  {
    hide CacheAll, Added, Answers, Flat, Without;
    WithoutAbsent(ids, SetOf([]));
    OnlyNone(ids, SetOf([]));
    NoIds([]);
    WithoutAbsent([], Stale(db, GetMany(ids)));
    assert [] + Flat(answer) == Flat(answer);
  }

  /** A run of one operation. */
  lemma OneRun(db: Db, op: Op, answer: seq<seq<Id>>)
    ensures KeysRun(db, [op], [answer]) == KeysAfter(db, [], op, answer)
    ensures RecordRun(db, [op], [answer]) == RecordAfter(db, [], [], op, answer)
    ensures PossibleRun(db, [op], [answer]) <==> Possible(db, [], op, answer)
  {
    hide KeysAfter, RecordAfter, Possible;
    assert [op][..0] == [] && [answer][..0] == [];
    assert PossibleAt(db, [op], [answer], 0) <==> Possible(db, [], op, answer);
  }

  lemma AnswersInTurn(db: Db, x: Id, y: Id)
    requires x != y && x in db.nodes && y in db.nodes
    ensures Answers(db, ThenAgain(x, y), [[x, y], [x]]) && Flat([[x, y], [x]]) == [x, y, x]
  {
    var ids, first := ThenAgain(x, y), [x] + seq(PARAM_CHUNK_SIZE - 1, i => y);
    assert Chunk(ids, 0) == first && first[0] == x && first[1] == y;
    assert Chunk(ids, 1) == [x];
    hide Chunk, ThenAgain;
    assert Listing(db, first, [x, y]) && Listing(db, [x], [x]);
    assert [[x, y]] == [] + [[x, y]] && [[x, y], [x]] == [[x, y]] + [[x]];
    FlatNext([], [x, y]);
    FlatNext([[x, y]], [x]);
  }

  lemma CacheAllNext(order: seq<Id>, ids: seq<Id>, id: Id)
    ensures CacheAll(order, ids + [id]) == Cached(CacheAll(order, ids), id) && CacheAll(order, []) == order
  {
    assert (ids + [id])[..|ids|] == ids;
  }

  lemma CachedInTurn(x: Id, y: Id)
    requires x != y
    ensures CacheAll([], [x, y, x]) == [x, y]
  {
    hide CacheAll, Cached;
    CachedNew([], x);
    CachedNew([x], y);
    CachedOld([x, y], x);
    CacheAllNext([], [], x);
    CacheAllNext([], [x], y);
    CacheAllNext([], [x, y], x);
    assert [] + [x] == [x] && [x] + [y] == [x, y] && [x, y] + [x] == [x, y, x];
  }

  lemma CachedNew(order: seq<Id>, id: Id)
    requires id !in order && |order| < MAX_CACHE_SIZE
    ensures Cached(order, id) == order + [id]
  {
  }

  lemma CachedOld(order: seq<Id>, id: Id)
    requires id in order && |order| < MAX_CACHE_SIZE
    ensures Cached(order, id) == order
  {
  }

  lemma AddedInTurn(x: Id, y: Id)
    requires x != y
    ensures Added([], [x, y, x]) == [y, x]
  {
    assert Without([], {x}) == [] && Without([x], {y}) == [x] by { WithoutAbsent([x], {y}); }
    assert Without([x, y], {x}) == [y] by {
      WithoutOne([], x, [y]);
      assert [] + [x] + [y] == [x, y] && [] + [y] == [y];
    }
    hide Added, Without;
    AddedNone([]);
    AddedNext([], [], x);
    AddedNext([], [x], y);
    AddedNext([], [x, y], x);
    assert [] + [x] == [x] && [x] + [y] == [x, y] && [x, y] + [x] == [x, y, x] && [y] + [x] == [y, x];
  }

  lemma {:induction false} RecentAll(ids: seq<Id>)
    requires Distinct(ids)
    ensures Recent(ids) == ids
  {
    if ids != [] {
      var init, last := ids[..|ids| - 1], ids[|ids| - 1];
      assert ids == init + [last] && last !in init;
      RecentAll(init);
      WithoutAbsent(init, {last});
    }
  }
}
