/** The record of use, which has no limit, and the cache as the end of it. */
module KeyRecord {
  import opened Wrappers
  import opened CodeGraph
  import opened KeyOrder

  /** `order` is the end of `all`: whatever it lacks was used before all it has. */
  ghost predicate EndOf(order: seq<Id>, all: seq<Id>) {
    |order| <= |all| && order == all[|all| - |order|..]
  }

  lemma EndOfConcat(early: seq<Id>, order: seq<Id>)
    ensures EndOf(order, early + order)
  {
  }

  lemma SplitEnd(order: seq<Id>, all: seq<Id>) returns (early: seq<Id>)
    requires EndOf(order, all) && Distinct(all)
    ensures all == early + order && forall x :: x in order ==> x !in early
  {
    early := all[..|all| - |order|];
    assert all == early + order;
  }

  lemma EndDistinct(order: seq<Id>, record: seq<Id>)
    requires EndOf(order, record) && Distinct(record)
    ensures Distinct(order)
  {
  }

  lemma Single(id: Id)
    ensures Distinct([id])
  {
  }

  /** Using an id keeps the cache the end of the whole record. */
  lemma UsedEndOf(order: seq<Id>, all: seq<Id>, id: Id)
    requires EndOf(order, all) && Distinct(all)
    ensures EndOf(Used(order, id), Without(all, {id}) + [id])
    ensures Distinct(Without(all, {id}) + [id])
  {
    hide Without, EndOf, Distinct;
    var early := SplitEnd(order, all);
    WithoutDistinct(all, {id});
    assert Distinct([id]) by { Single(id); }
    Apart(Without(all, {id}), [id]);
    WithoutConcat(early, order, {id});
    if id in order {
      assert [] + Without(order, {id}) == Without(order, {id});
      EndOfThree(Without(early, {id}), [], Without(order, {id}), id);
    } else {
      WithoutAbsent(order, {id});
      var dropped := if |order| < MAX_CACHE_SIZE then [] else [order[0]];
      assert order == dropped + Room(order);
      EndOfThree(Without(early, {id}), dropped, Room(order), id);
    }
  }

  lemma EndOfThree(early: seq<Id>, dropped: seq<Id>, kept: seq<Id>, id: Id)
    ensures EndOf(kept + [id], early + (dropped + kept) + [id])
  {
    Assoc(early, dropped, kept);
    Assoc(early + dropped, kept, [id]);
    EndOfConcat(early + dropped, kept + [id]);
  }

  /** The record after these uses. */
  function Added(all: seq<Id>, ids: seq<Id>): seq<Id> {
    Without(all, SetOf(ids)) + Recent(ids)
  }

  lemma AddedNext(all: seq<Id>, ids: seq<Id>, id: Id)
    ensures Added(all, ids + [id]) == Without(Added(all, ids), {id}) + [id]
  {
    hide Without, Recent, SetOf;
    RecentNext(ids, id);
    WithoutConcat(Without(all, SetOf(ids)), Recent(ids), {id});
    WithoutBoth(all, SetOf(ids), {id});
    Assoc(Without(all, SetOf(ids + [id])), Without(Recent(ids), {id}), [id]);
  }

  lemma {:induction false} AddedConcat(all: seq<Id>, a: seq<Id>, b: seq<Id>)
    ensures Added(all, a + b) == Added(Added(all, a), b)
    decreases |b|
  {
    hide Added;
    if b == [] {
      assert a + b == a;
      AddedNone(Added(all, a));
    } else {
      var init, last := b[..|b| - 1], b[|b| - 1];
      assert b == init + [last];
      AddedConcat(all, a, init);
      Assoc(a, init, [last]);
      AddedNext(all, a + init, last);
      AddedNext(Added(all, a), init, last);
    }
  }

  lemma AddedNone(all: seq<Id>)
    ensures Added(all, []) == all
  {
    NoIds(all);
  }

  lemma AddedDistinct(all: seq<Id>, ids: seq<Id>)
    requires Distinct(all)
    ensures Distinct(Added(all, ids))
  {
    hide Distinct, Without, Recent;
    RecentByUse(ids);
    WithoutDistinct(all, SetOf(ids));
    Apart(Without(all, SetOf(ids)), Recent(ids));
  }

  /** Uses keep the cache the end of the record. */
  lemma {:induction false} UseAllEndOf(order: seq<Id>, all: seq<Id>, ids: seq<Id>)
    requires EndOf(order, all) && Distinct(all)
    ensures EndOf(UseAll(order, ids), Added(all, ids))
    decreases |ids|
  {
    hide Without, EndOf, Distinct, UseAll, Used, Added;
    if ids == [] {
      AddedNone(all);
      NoIds(order);
    } else {
      var init, last := ids[..|ids| - 1], ids[|ids| - 1];
      assert ids == init + [last];
      UseAllEndOf(order, all, init);
      AddedDistinct(all, init);
      UsedEndOf(UseAll(order, init), Added(all, init), last);
      UseAllNext(order, init, last);
      AddedNext(all, init, last);
    }
  }

  /** Dropping ids from both keeps the cache the end of the record. */
  lemma WithoutEndOf(order: seq<Id>, all: seq<Id>, gone: set<Id>)
    requires EndOf(order, all) && Distinct(all)
    ensures EndOf(Without(order, gone), Without(all, gone)) && Distinct(Without(all, gone))
  {
    var early := all[..|all| - |order|];
    assert all == early + order;
    WithoutConcat(early, order, gone);
    WithoutDistinct(all, gone);
  }

  // ---- when caching keeps the end of the record -----------------------------------------

  /** The key is in the cache where setting it leaves it before one used earlier:
      not at the end, nor at the front of a full cache. */
  predicate OutOfPlace(order: seq<Id>, id: Id) {
    && id in order && id != order[|order| - 1]
    && !(|order| >= MAX_CACHE_SIZE && id == order[0])
  }

  /** `cacheNode` keeps the cache the end of the record exactly when the key is
      not out of place. */
  lemma CachedEndOfIff(order: seq<Id>, all: seq<Id>, id: Id)
    requires EndOf(order, all) && Distinct(all) && |order| <= MAX_CACHE_SIZE
    ensures EndOf(Cached(order, id), Without(all, {id}) + [id]) <==> !OutOfPlace(order, id)
  {
    EndDistinct(order, all);
    OutOfPlaceIsMisplaced(order, id);
    hide EndOf, Without, Distinct, Cached, Used, Misplaced, OutOfPlace;
    CachedIsUse(order, id);
    if !Misplaced(order, id) {
      UsedEndOf(order, all, id);
    } else if !OutOfPlace(order, id) {
      CachedLast(order, all);
    } else {
      LeftInPlace(order, id);
      LastOfEnd(Cached(order, id), Without(all, {id}), id);
    }
  }

  lemma OutOfPlaceIsMisplaced(order: seq<Id>, id: Id)
    requires |order| <= MAX_CACHE_SIZE
    ensures OutOfPlace(order, id) <==> Misplaced(order, id) && id != order[|order| - 1]
    ensures Misplaced(order, id) && !OutOfPlace(order, id) ==> |order| == MAX_CACHE_SIZE
  {
  }

  lemma CachedLast(order: seq<Id>, all: seq<Id>)
    requires EndOf(order, all) && Distinct(all) && |order| == MAX_CACHE_SIZE
    ensures var id := order[|order| - 1]; EndOf(Cached(order, id), Without(all, {id}) + [id])
  {
    hide EndOf, Without, Distinct, Cached;
    var early := SplitEnd(order, all);
    RepeatedLast(early, order);
    LastInFull(order);
  }

  lemma LastInFull(order: seq<Id>)
    requires |order| == MAX_CACHE_SIZE
    ensures Cached(order, order[|order| - 1]) == order[1..]
  {
    assert order[1..][|order| - 2] == order[|order| - 1];
  }

  lemma LeftInPlace(order: seq<Id>, id: Id)
    requires Misplaced(order, id) && id != order[|order| - 1] && |order| <= MAX_CACHE_SIZE
    ensures Cached(order, id) != [] && Cached(order, id)[|Cached(order, id)| - 1] != id
  {
    if |order| == MAX_CACHE_SIZE {
      var i :| 0 <= i < |order| && order[i] == id;
      assert order[1..][i - 1] == id;
    }
  }

  lemma LastOfEnd(order: seq<Id>, rest: seq<Id>, id: Id)
    requires order != [] && order[|order| - 1] != id
    ensures !EndOf(order, rest + [id])
  {
  }

  /** Making room for the last key loses the first one. */
  lemma RepeatedLast(early: seq<Id>, order: seq<Id>)
    requires order != [] && Distinct(early + order)
    ensures var id := order[|order| - 1];
      Without(early + order, {id}) + [id] == early + order && EndOf(order[1..], early + order)
  {
    var last := |order| - 1;
    assert early + order == (early + order[..last]) + [order[last]] + [];
    assert forall x :: x in early + order[..last] ==> x != order[last] by {
      assert forall i :: 0 <= i < |early| + last ==> (early + order)[i] == (early + order[..last])[i];
      assert (early + order)[|early| + last] == order[last];
    }
    WithoutOne(early + order[..last], order[last], []);
    assert early + order == (early + order[..1]) + order[1..];
  }

  /** The id at `i` was cached last at `h`, with other ids cached in between that
      now stand behind it, and it is neither evicted nor next to be. */
  ghost predicate OutOfTurn(ids: seq<Id>, h: nat, i: nat) {
    LastBefore(ids, h, i) && 0 < Between(ids, h, i) < MAX_CACHE_SIZE - 1
  }

  ghost predicate NoneOutOfTurn(ids: seq<Id>) {
    forall h: nat, i: nat :: !OutOfTurn(ids, h, i)
  }

  lemma OutOfTurnIsSoon(size: nat, ids: seq<Id>, h: nat, i: nat)
    requires OutOfTurn(ids, h, i)
    ensures RepeatedSoon(size, ids, h, i)
  {
  }

  lemma {:induction false} CacheAllKeys(order: seq<Id>, ids: seq<Id>)
    requires Distinct(order) && |order| <= MAX_CACHE_SIZE
    ensures Distinct(CacheAll(order, ids)) && |CacheAll(order, ids)| <= MAX_CACHE_SIZE
    ensures forall x :: x in CacheAll(order, ids) ==> x in order || x in ids
  {
    if ids != [] {
      var init, last := ids[..|ids| - 1], ids[|ids| - 1];
      assert ids == init + [last];
      CacheAllKeys(order, init);
      CachedKeys(CacheAll(order, init), last);
    }
  }

  /** The cache while it fetches is the end of the record. */
  ghost predicate EndsWithin(order: seq<Id>, all: seq<Id>, ids: seq<Id>, n: nat)
    requires n <= |ids|
  {
    EndOf(CacheAll(order, ids[..n]), Added(all, ids[..n]))
  }

  ghost predicate EndsThroughout(order: seq<Id>, all: seq<Id>, ids: seq<Id>) {
    forall n :: 0 <= n <= |ids| ==> EndsWithin(order, all, ids, n)
  }

  /** Position of a key in a cache that holds what was cached of late. */
  lemma PlaceInCache(order: seq<Id>, early: seq<Id>, id: Id, late: seq<Id>)
    requires EndOf(order, early + [id] + late) && Distinct(early + [id] + late)
    requires Min(MAX_CACHE_SIZE - 1, |late| + 1) <= |order| <= MAX_CACHE_SIZE
    ensures OutOfPlace(order, id) <==> 0 < |late| < MAX_CACHE_SIZE - 1
  {
    var all := early + [id] + late;
    assert all[|early|] == id;
    assert forall j :: 0 <= j < |late| ==> all[|early| + 1 + j] == late[j];
    assert id !in late;
    if |order| <= |late| {
      assert forall x :: x in order ==> x in late;
    } else {
      assert order[|order| - 1 - |late|] == id;
    }
  }

  /** One id of a batch of misses is out of place exactly when it was cached
      before in the batch, out of turn. */
  lemma OutOfPlaceIff(order: seq<Id>, all: seq<Id>, ids: seq<Id>, i: nat)
    requires Distinct(order) && |order| <= MAX_CACHE_SIZE && forall x :: x in ids ==> x !in order
    requires i < |ids| && Distinct(all)
    requires EndsWithin(order, all, ids, i)
    requires Min(MAX_CACHE_SIZE - 1, |Recent(ids[..i])|) <= |CacheAll(order, ids[..i])|
    ensures OutOfPlace(CacheAll(order, ids[..i]), ids[i]) <==> exists h: nat :: OutOfTurn(ids, h, i)
  {
    var id := ids[i];
    CacheAllKeys(order, ids[..i]);
    AddedDistinct(all, ids[..i]);
    hide OutOfPlace, Recent, CacheAll, Distinct, EndOf, Without;
    if id in ids[..i] {
      var h := LastPlace(ids, i);
      var early := LastUsedAt(Without(all, SetOf(ids[..i])), ids, h, i);
      assert |Recent(ids[..i])| >= |Recent(ids[h + 1..i])| + 1 by {
        var e := LastUsedAt([], ids, h, i);
        assert [] + Recent(ids[..i]) == Recent(ids[..i]);
      }
      PlaceInCache(CacheAll(order, ids[..i]), early, id, Recent(ids[h + 1..i]));
      RecentSize(ids[h + 1..i]);
      OneTurn(ids, h, i);
    } else {
      assert forall h :: 0 <= h < i ==> ids[..i][h] != id;
      Absent(CacheAll(order, ids[..i]), id);
    }
  }

  lemma Absent(order: seq<Id>, id: Id)
    requires id !in order
    ensures !OutOfPlace(order, id)
  {
  }

  lemma OneTurn(ids: seq<Id>, h: nat, i: nat)
    requires LastBefore(ids, h, i)
    ensures (exists k: nat :: OutOfTurn(ids, k, i)) <==> OutOfTurn(ids, h, i)
  {
    assert forall k: nat :: LastBefore(ids, k, i) ==> k == h;
  }

  /** What is cached of late stays, but for the one entry a full cache drops. */
  lemma CachedSize(order: seq<Id>, init: seq<Id>, id: Id)
    requires Distinct(order) && |order| <= MAX_CACHE_SIZE && !OutOfPlace(order, id)
    requires Min(MAX_CACHE_SIZE - 1, |Recent(init)|) <= |order| && (id in order ==> id in init)
    ensures Min(MAX_CACHE_SIZE - 1, |Recent(init + [id])|) <= |Cached(order, id)|
  {
    RecentNext(init, id);
    RecentByUse(init);
    hide Recent, Without;
    WithoutDistinct(Recent(init), {id});
    if id in order {
      WithoutShorter(Recent(init), id);
    }
  }

  lemma OutOfTurnInit(init: seq<Id>, id: Id, h: nat, i: nat)
    requires i < |init|
    ensures OutOfTurn(init + [id], h, i) <==> OutOfTurn(init, h, i)
  {
    var ids := init + [id];
    if h < i {
      assert ids[h + 1..i] == init[h + 1..i];
    }
    assert forall k :: 0 <= k < |init| ==> ids[k] == init[k];
  }

  lemma EndsNext(order: seq<Id>, all: seq<Id>, init: seq<Id>, id: Id)
    ensures EndsThroughout(order, all, init + [id]) <==>
      EndsThroughout(order, all, init) && EndsWithin(order, all, init + [id], |init| + 1)
  {
    hide EndOf, CacheAll, Added;
    var ids := init + [id];
    assert forall n :: 0 <= n <= |init| ==> ids[..n] == init[..n];
    if EndsThroughout(order, all, ids) {
      forall n | 0 <= n <= |init| ensures EndsWithin(order, all, init, n) {
        assert EndsWithin(order, all, ids, n);
      }
    }
    if EndsThroughout(order, all, init) {
      forall n | 0 <= n <= |init| ensures EndsWithin(order, all, ids, n) {
        assert EndsWithin(order, all, init, n);
      }
    }
  }

  lemma NoneNext(init: seq<Id>, id: Id)
    ensures NoneOutOfTurn(init + [id]) <==>
      NoneOutOfTurn(init) && !exists h: nat :: OutOfTurn(init + [id], h, |init|)
  {
    forall h: nat, i: nat | i < |init|
      ensures OutOfTurn(init + [id], h, i) <==> OutOfTurn(init, h, i)
    {
      OutOfTurnInit(init, id, h, i);
    }
  }

  /** While a batch of misses is fetched the cache stays the end of the record
      exactly when none of them is cached out of turn. */
  lemma {:induction false} EndsIff(order: seq<Id>, all: seq<Id>, ids: seq<Id>)
    requires EndOf(order, all) && Distinct(all) && |order| <= MAX_CACHE_SIZE
    requires forall x :: x in ids ==> x !in order
    ensures EndsThroughout(order, all, ids) <==> NoneOutOfTurn(ids)
    ensures NoneOutOfTurn(ids) ==> Min(MAX_CACHE_SIZE - 1, |Recent(ids)|) <= |CacheAll(order, ids)|
  {
    EndDistinct(order, all);
    if ids == [] {
      AddedNone(all);
      assert ids[..0] == [];
    } else {
      var init, last := ids[..|ids| - 1], ids[|ids| - 1];
      assert ids == init + [last] && ids[..|init|] == init;
      EndsIff(order, all, init);
      NoneNext(init, last);
      EndsNext(order, all, init, last);
      if NoneOutOfTurn(init) {
        EndsStep(order, all, init, last);
      }
    }
  }

  lemma EndsStep(order: seq<Id>, all: seq<Id>, init: seq<Id>, last: Id)
    requires Distinct(order) && |order| <= MAX_CACHE_SIZE && Distinct(all)
    requires forall x :: x in init + [last] ==> x !in order
    requires EndsThroughout(order, all, init)
    requires Min(MAX_CACHE_SIZE - 1, |Recent(init)|) <= |CacheAll(order, init)|
    ensures EndsWithin(order, all, init + [last], |init| + 1) <==> !exists h: nat :: OutOfTurn(init + [last], h, |init|)
    ensures EndsWithin(order, all, init + [last], |init| + 1) ==>
      Min(MAX_CACHE_SIZE - 1, |Recent(init + [last])|) <= |CacheAll(order, init + [last])|
  {
    var ids := init + [last];
    assert ids[..|init|] == init && ids[..|init| + 1] == ids && init[..|init|] == init;
    assert EndsWithin(order, all, init, |init|);
    assert last in ids;
    CacheAllKeys(order, init);
    AddedDistinct(all, init);
    AddedNext(all, init, last);
    hide Distinct, EndOf, Added, OutOfTurn, OutOfPlace, Recent, Cached;
    OutOfPlaceIff(order, all, ids, |init|);
    CachedEndOfIff(CacheAll(order, init), Added(all, init), last);
    if !OutOfPlace(CacheAll(order, init), last) {
      CachedSize(CacheAll(order, init), init, last);
    }
  }
}
