/** The key order of the node cache and what it says about use.

    A JavaScript `Map` remembers insertion order: setting a new key appends it,
    setting an old one leaves it in place. The cache moves an entry to the end
    by deleting and setting it again, and evicts the first. */
module KeyOrder {
  import opened Wrappers
  import opened CodeGraph

  const MAX_CACHE_SIZE: nat := 1000

  /** The ids in order without those `gone`. */
  function Without(order: seq<Id>, gone: set<Id>): (r: seq<Id>)
    ensures forall x :: x in r <==> x in order && x !in gone
  {
    if order == [] then []
    else
      assert order == order[..|order| - 1] + [order[|order| - 1]];
      if order[|order| - 1] in gone then Without(order[..|order| - 1], gone)
      else Without(order[..|order| - 1], gone) + [order[|order| - 1]]
  }

  /** The ids in order that are among `keys`. */
  function Only(ids: seq<Id>, keys: set<Id>): (r: seq<Id>)
    ensures forall x :: x in r <==> x in ids && x in keys
  {
    if ids == [] then []
    else
      assert ids == ids[..|ids| - 1] + [ids[|ids| - 1]];
      if ids[|ids| - 1] in keys then Only(ids[..|ids| - 1], keys) + [ids[|ids| - 1]]
      else Only(ids[..|ids| - 1], keys)
  }

  function SetOf(ids: seq<Id>): set<Id> {
    set x | x in ids
  }

  lemma {:induction false} WithoutDistinct(order: seq<Id>, gone: set<Id>)
    requires Distinct(order)
    ensures Distinct(Without(order, gone)) && |Without(order, gone)| <= |order|
  {
    if order != [] {
      var rest, last := order[..|order| - 1], order[|order| - 1];
      assert order == rest + [last] && last !in rest;
      WithoutDistinct(rest, gone);
      assert last !in Without(rest, gone);
    }
  }

  lemma {:induction false} WithoutAbsent(order: seq<Id>, gone: set<Id>)
    requires forall x :: x in order ==> x !in gone
    ensures Without(order, gone) == order
  {
    if order != [] {
      assert order == order[..|order| - 1] + [order[|order| - 1]];
      WithoutAbsent(order[..|order| - 1], gone);
    }
  }

  lemma {:induction false} WithoutConcat(a: seq<Id>, b: seq<Id>, gone: set<Id>)
    ensures Without(a + b, gone) == Without(a, gone) + Without(b, gone)
  {
    if b == [] {
      assert a + b == a;
    } else {
      assert (a + b)[..|a + b| - 1] == a + b[..|b| - 1];
      WithoutConcat(a, b[..|b| - 1], gone);
    }
  }

  lemma {:induction false} WithoutBoth(order: seq<Id>, a: set<Id>, b: set<Id>)
    ensures Without(Without(order, a), b) == Without(order, a + b)
  {
    if order != [] {
      var rest, last := order[..|order| - 1], order[|order| - 1];
      WithoutBoth(rest, a, b);
      WithoutConcat(Without(rest, a), [last], b);
    }
  }

  lemma {:induction false} WithoutAgree(order: seq<Id>, a: set<Id>, b: set<Id>)
    requires forall x :: x in order ==> (x in a <==> x in b)
    ensures Without(order, a) == Without(order, b)
  {
    if order != [] {
      assert order == order[..|order| - 1] + [order[|order| - 1]];
      WithoutAgree(order[..|order| - 1], a, b);
    }
  }

  /** Taking one key out of a list that holds it once. */
  lemma WithoutOne(early: seq<Id>, id: Id, late: seq<Id>)
    requires id !in early && id !in late
    ensures Without(early + [id] + late, {id}) == early + late
  {
    WithoutConcat(early + [id], late, {id});
    WithoutConcat(early, [id], {id});
    WithoutAbsent(early, {id});
    WithoutAbsent(late, {id});
  }

  lemma WithoutFirst(order: seq<Id>)
    requires order != [] && Distinct(order)
    ensures Without(order, {order[0]}) == order[1..]
  {
    assert order == [] + [order[0]] + order[1..];
    WithoutOne([], order[0], order[1..]);
  }

  /** A key held once leaves the list one shorter. */
  lemma WithoutShorter(order: seq<Id>, id: Id)
    requires Distinct(order) && id in order
    ensures |Without(order, {id})| == |order| - 1
  {
    var i :| 0 <= i < |order| && order[i] == id;
    assert order == order[..i] + [id] + order[i + 1..];
    WithoutOne(order[..i], id, order[i + 1..]);
  }

  // ---- one use -------------------------------------------------------------------

  /** The keys after making room for one more. */
  function Room(order: seq<Id>): seq<Id> {
    if |order| < MAX_CACHE_SIZE then order else order[1..]
  }

  /** What a use should do: the key goes last, and one that is new to a full
      cache drops the one used longest ago. */
  function Used(order: seq<Id>, id: Id): seq<Id> {
    if id in order then Without(order, {id}) + [id] else Room(order) + [id]
  }

  /** What `cacheNode` does: it makes room first, and setting a key that is
      still there leaves it in its place. */
  function Cached(order: seq<Id>, id: Id): seq<Id> {
    if id in Room(order) then Room(order) else Room(order) + [id]
  }

  /** The key is in the cache where setting it does not amount to a use: not at
      the front of a full cache nor at the end of one with room. */
  predicate Misplaced(order: seq<Id>, id: Id) {
    id in order && id != order[if |order| < MAX_CACHE_SIZE then |order| - 1 else 0]
  }

  lemma CachedKeys(order: seq<Id>, id: Id)
    requires Distinct(order) && |order| <= MAX_CACHE_SIZE
    ensures Distinct(Cached(order, id)) && |Cached(order, id)| <= MAX_CACHE_SIZE && id in Cached(order, id)
  {
  }

  lemma UsedKeys(order: seq<Id>, id: Id)
    requires Distinct(order) && |order| <= MAX_CACHE_SIZE
    ensures Distinct(Used(order, id)) && |Used(order, id)| <= MAX_CACHE_SIZE
  {
    hide Without;
    if id in order {
      WithoutShorter(order, id);
      WithoutDistinct(order, {id});
    }
  }

  /** `cacheNode` is a use exactly when the key is not misplaced. */
  lemma CachedIsUse(order: seq<Id>, id: Id)
    requires Distinct(order) && |order| <= MAX_CACHE_SIZE
    ensures Cached(order, id) == Used(order, id) <==> !Misplaced(order, id)
  {
    hide Without;
    if id in order {
      var i :| 0 <= i < |order| && order[i] == id;
      assert order == order[..i] + [id] + order[i + 1..];
      WithoutOne(order[..i], id, order[i + 1..]);
      if |order| < MAX_CACHE_SIZE {
        EndInPlace(order, i);
      } else {
        FrontInPlace(order, i);
      }
    }
  }

  lemma EndInPlace(order: seq<Id>, i: nat)
    requires Distinct(order) && i < |order|
    ensures order[..i] + order[i + 1..] + [order[i]] == order <==> i == |order| - 1
  {
    if i < |order| - 1 {
      assert (order[..i] + order[i + 1..] + [order[i]])[|order| - 1] != order[|order| - 1];
    }
  }

  lemma FrontInPlace(order: seq<Id>, i: nat)
    requires Distinct(order) && i < |order| == MAX_CACHE_SIZE
    ensures Cached(order, order[i]) == order[..i] + order[i + 1..] + [order[i]] <==> i == 0
  {
    if i > 0 {
      assert order[1..][i - 1] == order[i];
    }
  }

  // ---- many uses ----------------------------------------------------------------------

  function UseAll(order: seq<Id>, ids: seq<Id>): seq<Id> {
    if ids == [] then order else Used(UseAll(order, ids[..|ids| - 1]), ids[|ids| - 1])
  }

  function CacheAll(order: seq<Id>, ids: seq<Id>): seq<Id> {
    if ids == [] then order else Cached(CacheAll(order, ids[..|ids| - 1]), ids[|ids| - 1])
  }

  /** The ids used, each at its latest use. */
  function Recent(ids: seq<Id>): seq<Id> {
    if ids == [] then [] else Without(Recent(ids[..|ids| - 1]), {ids[|ids| - 1]}) + [ids[|ids| - 1]]
  }

  /** When each id was last used. */
  function UseTimes(ids: seq<Id>): map<Id, nat> {
    if ids == [] then map[] else UseTimes(ids[..|ids| - 1])[ids[|ids| - 1] := |ids| - 1]
  }

  /** Later keys were used later. */
  ghost predicate ByUse(order: seq<Id>, lastUse: map<Id, nat>, clock: nat) {
    && (forall x :: x in order ==> x in lastUse && lastUse[x] < clock)
    && (forall i, j :: 0 <= i < j < |order| ==> lastUse[order[i]] < lastUse[order[j]])
  }

  lemma ByUseEnd(order: seq<Id>, last: Id, lastUse: map<Id, nat>, clock: nat)
    ensures ByUse(order + [last], lastUse, clock) <==>
      && ByUse(order, lastUse, clock) && last in lastUse && lastUse[last] < clock
      && forall x :: x in order ==> x in lastUse && lastUse[x] < lastUse[last]
  {
    var all := order + [last];
    assert all[|order|] == last;
    assert forall i :: 0 <= i < |order| ==> all[i] == order[i];
    assert forall x :: x in all <==> x in order || x == last;
  }

  lemma {:induction false} ByUseWithout(order: seq<Id>, lastUse: map<Id, nat>, clock: nat, gone: set<Id>)
    requires ByUse(order, lastUse, clock)
    ensures ByUse(Without(order, gone), lastUse, clock)
  {
    if order != [] {
      hide ByUse;
      var rest, last := order[..|order| - 1], order[|order| - 1];
      assert order == rest + [last];
      ByUseEnd(rest, last, lastUse, clock);
      ByUseWithout(rest, lastUse, clock, gone);
      ByUseEnd(Without(rest, gone), last, lastUse, clock);
    }
  }

  lemma ByUseAppend(order: seq<Id>, lastUse: map<Id, nat>, clock: nat, id: Id)
    requires ByUse(order, lastUse, clock) && id !in order
    ensures ByUse(order + [id], lastUse[id := clock], clock + 1)
  {
  }

  lemma ByUseDistinct(order: seq<Id>, lastUse: map<Id, nat>, clock: nat)
    requires ByUse(order, lastUse, clock)
    ensures Distinct(order)
  {
  }

  /** `Recent` holds the ids used, once each, by the time of last use. */
  lemma {:induction false} RecentByUse(ids: seq<Id>)
    ensures forall x :: x in Recent(ids) <==> x in ids
    ensures ByUse(Recent(ids), UseTimes(ids), |ids|) && Distinct(Recent(ids))
  {
    if ids != [] {
      var init, last := ids[..|ids| - 1], ids[|ids| - 1];
      assert ids == init + [last];
      RecentByUse(init);
      hide ByUse, Distinct;
      ByUseWithout(Recent(init), UseTimes(init), |init|, {last});
      ByUseAppend(Without(Recent(init), {last}), UseTimes(init), |init|, last);
      ByUseDistinct(Recent(ids), UseTimes(ids), |ids|);
    }
  }

  lemma RecentSize(ids: seq<Id>)
    ensures |Recent(ids)| == |SetOf(ids)| && Distinct(Recent(ids))
  {
    RecentByUse(ids);
    DistinctSize(Recent(ids), SetOf(ids));
  }

  lemma Assoc(a: seq<Id>, b: seq<Id>, c: seq<Id>)
    ensures a + b + c == a + (b + c)
  {
  }

  lemma RecentNext(ids: seq<Id>, id: Id)
    ensures Recent(ids + [id]) == Without(Recent(ids), {id}) + [id]
    ensures SetOf(ids + [id]) == SetOf(ids) + {id}
  {
    assert (ids + [id])[..|ids|] == ids;
  }

  lemma UseAllNext(order: seq<Id>, ids: seq<Id>, id: Id)
    ensures UseAll(order, ids + [id]) == Used(UseAll(order, ids), id)
  {
    assert (ids + [id])[..|ids|] == ids;
  }

  lemma NoIds(order: seq<Id>)
    ensures Recent([]) == [] && SetOf([]) == {} && UseAll(order, []) == order
    ensures Without(order, {}) == order && order + [] == order
  {
    WithoutAbsent(order, {});
  }

  /** Later uses move their ids behind the earlier ones. */
  lemma {:induction false} RecentConcat(a: seq<Id>, b: seq<Id>)
    ensures Recent(a + b) == Without(Recent(a), SetOf(b)) + Recent(b)
    decreases |b|
  {
    hide Without, Recent, SetOf;
    if b == [] {
      NoIds(a);
      NoIds(Recent(a));
    } else {
      var init, last := b[..|b| - 1], b[|b| - 1];
      assert b == init + [last];
      RecentConcat(a, init);
      Assoc(a, init, [last]);
      RecentNext(a + init, last);
      RecentNext(init, last);
      WithoutConcat(Without(Recent(a), SetOf(init)), Recent(init), {last});
      WithoutBoth(Recent(a), SetOf(init), {last});
      Assoc(Without(Recent(a), SetOf(b)), Without(Recent(init), {last}), [last]);
    }
  }

  /** The last keys, as many as the cache may hold. */
  function Latest(order: seq<Id>): seq<Id> {
    if |order| <= MAX_CACHE_SIZE then order else order[|order| - MAX_CACHE_SIZE..]
  }

  /** Using an id in the latest of `order` is using it in all of `order`. */
  lemma UsedLatest(order: seq<Id>, id: Id)
    requires Distinct(order)
    ensures Used(Latest(order), id) == Latest(Without(order, {id}) + [id])
  {
    var cut := if |order| <= MAX_CACHE_SIZE then 0 else |order| - MAX_CACHE_SIZE;
    var early, late := order[..cut], order[cut..];
    assert order == early + late && Latest(order) == late && Distinct(late);
    if id in late {
      assert id !in early;
      UsedHit(early, late, id);
    } else {
      UsedMiss(early, late, id);
    }
  }

  lemma UsedHit(early: seq<Id>, late: seq<Id>, id: Id)
    requires Distinct(late) && id in late && id !in early
    requires |late| <= MAX_CACHE_SIZE && (early == [] || |late| == MAX_CACHE_SIZE)
    ensures Used(late, id) == Latest(Without(early + late, {id}) + [id])
  {
    hide Without, Distinct, Latest;
    WithoutConcat(early, late, {id});
    WithoutAbsent(early, {id});
    WithoutShorter(late, id);
    assert early + Without(late, {id}) + [id] == early + (Without(late, {id}) + [id]);
    LatestOf(early, Without(late, {id}) + [id]);
  }

  lemma UsedMiss(early: seq<Id>, late: seq<Id>, id: Id)
    requires id !in late
    requires |late| <= MAX_CACHE_SIZE && (early == [] || |late| == MAX_CACHE_SIZE)
    ensures Used(late, id) == Latest(Without(early + late, {id}) + [id])
  {
    hide Latest;
    assert early == [] ==> Without(early, {id}) == [];
    hide Without;
    WithoutConcat(early, late, {id});
    WithoutAbsent(late, {id});
    Assoc(Without(early, {id}), late, [id]);
    LatestOf(Without(early, {id}), late + [id]);
    if |late| == MAX_CACHE_SIZE {
      assert (late + [id])[1..] == late[1..] + [id];
    }
  }

  /** Dropping early keys in favour of `late` when there are too many. */
  lemma LatestOf(early: seq<Id>, late: seq<Id>)
    requires early == [] || |late| >= MAX_CACHE_SIZE
    requires |late| <= MAX_CACHE_SIZE + 1
    ensures Latest(early + late) == if |late| <= MAX_CACHE_SIZE then late else late[1..]
  {
    if |late| > MAX_CACHE_SIZE {
      assert early + late == (early + [late[0]]) + late[1..];
    }
  }

  /** Uses of ids that were not in the cache: the latest of all of them. */
  lemma {:induction false} UseAllIsLatest(order: seq<Id>, ids: seq<Id>)
    requires Distinct(order) && |order| <= MAX_CACHE_SIZE && forall x :: x in ids ==> x !in order
    ensures UseAll(order, ids) == Latest(order + Recent(ids))
    ensures Distinct(order + Recent(ids))
    decreases |ids|
  {
    RecentByUse(ids);
    if ids == [] {
      assert order + [] == order;
    } else {
      var init, last := ids[..|ids| - 1], ids[|ids| - 1];
      assert ids == init + [last];
      UseAllIsLatest(order, init);
      assert last !in order;
      hide Without, Recent, UseAll, Used, Latest;
      UsedLatest(order + Recent(init), last);
      hide Distinct;
      UseAllNext(order, init, last);
      RecentNext(init, last);
      WithoutConcat(order, Recent(init), {last});
      WithoutAbsent(order, {last});
      Assoc(order, Without(Recent(init), {last}), [last]);
      assert Distinct(order + Recent(ids)) by {
        Apart(order, Recent(ids));
      }
    }
  }

  lemma Apart(a: seq<Id>, b: seq<Id>)
    requires Distinct(a) && Distinct(b) && forall x :: x in b ==> x !in a
    ensures Distinct(a + b)
  {
    forall i, j | 0 <= i < j < |a + b| ensures (a + b)[i] != (a + b)[j] {
      assert j >= |a| ==> (a + b)[j] in b;
    }
  }

  // ---- when caching is using ---------------------------------------------------------

  predicate PromptAt(order: seq<Id>, ids: seq<Id>, i: nat)
    requires i < |ids|
  {
    Cached(UseAll(order, ids[..i]), ids[i]) == Used(UseAll(order, ids[..i]), ids[i])
  }

  /** Each id cached is a use at its turn. */
  ghost predicate Prompt(order: seq<Id>, ids: seq<Id>) {
    forall i :: 0 <= i < |ids| ==> PromptAt(order, ids, i)
  }

  lemma {:induction false} CacheConcat(order: seq<Id>, a: seq<Id>, b: seq<Id>)
    ensures CacheAll(order, a + b) == CacheAll(CacheAll(order, a), b)
    decreases |b|
  {
    if b == [] {
      assert a + b == a;
    } else {
      var init, last := b[..|b| - 1], b[|b| - 1];
      assert (a + b)[..|a + b| - 1] == a + init;
      CacheConcat(order, a, init);
    }
  }

  lemma {:induction false} UseAllConcat(order: seq<Id>, a: seq<Id>, b: seq<Id>)
    ensures UseAll(order, a + b) == UseAll(UseAll(order, a), b)
    decreases |b|
  {
    if b == [] {
      assert a + b == a;
    } else {
      var init, last := b[..|b| - 1], b[|b| - 1];
      assert (a + b)[..|a + b| - 1] == a + init;
      UseAllConcat(order, a, init);
    }
  }

  /** The keys while a batch is cached are those a use at each turn would leave. */
  ghost predicate SameThroughout(order: seq<Id>, ids: seq<Id>) {
    forall n :: 0 <= n <= |ids| ==> CacheAll(order, ids[..n]) == UseAll(order, ids[..n])
  }

  lemma {:induction false} PromptAll(order: seq<Id>, ids: seq<Id>)
    requires Prompt(order, ids)
    ensures CacheAll(order, ids) == UseAll(order, ids)
  {
    hide Cached, Used;
    if ids != [] {
      var init := ids[..|ids| - 1];
      PromptInit(order, ids, |ids| - 1);
      PromptAll(order, init);
      assert PromptAt(order, ids, |ids| - 1);
    }
  }

  lemma PromptInit(order: seq<Id>, ids: seq<Id>, n: nat)
    requires Prompt(order, ids) && n <= |ids|
    ensures Prompt(order, ids[..n])
  {
    forall i | 0 <= i < n ensures PromptAt(order, ids[..n], i) {
      assert PromptAt(order, ids, i) && ids[..n][..i] == ids[..i];
    }
  }

  lemma SameThroughoutIff(order: seq<Id>, ids: seq<Id>)
    ensures SameThroughout(order, ids) <==> Prompt(order, ids)
  {
    hide Cached, Used;
    if Prompt(order, ids) {
      forall n | 0 <= n <= |ids| ensures CacheAll(order, ids[..n]) == UseAll(order, ids[..n]) {
        PromptInit(order, ids, n);
        PromptAll(order, ids[..n]);
      }
    }
    if SameThroughout(order, ids) {
      forall i | 0 <= i < |ids| ensures PromptAt(order, ids, i) {
        assert ids[..i + 1][..i] == ids[..i];
        assert CacheAll(order, ids[..i + 1]) == UseAll(order, ids[..i + 1]);
        assert CacheAll(order, ids[..i]) == UseAll(order, ids[..i]);
      }
    }
  }

  /** How many different ids lie strictly between two places. */
  function Between(ids: seq<Id>, h: nat, i: nat): nat
    requires h < i <= |ids|
  {
    |SetOf(ids[h + 1..i])|
  }

  /** The id at `i` occurs at `h` and not in between. */
  predicate LastBefore(ids: seq<Id>, h: nat, i: nat) {
    h < i < |ids| && ids[h] == ids[i] && forall k :: h < k < i ==> ids[k] != ids[i]
  }

  /** The id at `i` was cached last at `h`, and too little has happened since for
      the second time to count as a use: it is neither the next to be evicted
      from a full cache, nor evicted already, nor still the last key of one with
      room. `size` keys were there before the first of the ids. */
  ghost predicate RepeatedSoon(size: nat, ids: seq<Id>, h: nat, i: nat) {
    && LastBefore(ids, h, i)
    && if size + |SetOf(ids[..i])| < MAX_CACHE_SIZE then Between(ids, h, i) > 0
       else Between(ids, h, i) < MAX_CACHE_SIZE - 1
  }

  /** No id is cached again too soon. */
  ghost predicate NoneSoon(size: nat, ids: seq<Id>) {
    forall h: nat, i: nat :: !RepeatedSoon(size, ids, h, i)
  }

  lemma DistinctNoneSoon(size: nat, ids: seq<Id>)
    requires Distinct(ids)
    ensures NoneSoon(size, ids)
  {
  }

  /** With the cache full, and not ids enough to fill it anew, every repetition
      comes too soon. */
  lemma FullNoneSoon(ids: seq<Id>)
    requires |SetOf(ids)| < MAX_CACHE_SIZE
    ensures NoneSoon(MAX_CACHE_SIZE, ids) <==> Distinct(ids)
  {
    if Distinct(ids) {
      DistinctNoneSoon(MAX_CACHE_SIZE, ids);
    } else {
      var g, i :| 0 <= g < i < |ids| && ids[g] == ids[i];
      assert ids[..i][g] == ids[i];
      var h := LastPlace(ids, i);
      assert ids[i] in SetOf(ids) && ids[i] !in SetOf(ids[h + 1..i]);
      SubsetSize(SetOf(ids[h + 1..i]), SetOf(ids) - {ids[i]});
      assert RepeatedSoon(MAX_CACHE_SIZE, ids, h, i);
    }
  }

  /** Where a key used before stands now. */
  lemma LastUsedAt(order: seq<Id>, ids: seq<Id>, h: nat, i: nat) returns (early: seq<Id>)
    requires LastBefore(ids, h, i)
    ensures order + Recent(ids[..i]) == early + [ids[i]] + Recent(ids[h + 1..i])
  {
    var id := ids[i];
    var before, since := ids[..h], ids[h + 1..i];
    assert ids[..i] == before + [id] + since;
    RecentConcat(before + [id], since);
    RecentNext(before, id);
    var rest := Without(Recent(before), {id});
    WithoutConcat(rest, [id], SetOf(since));
    WithoutAbsent([id], SetOf(since));
    hide Without, Recent, SetOf;
    early := order + Without(rest, SetOf(since));
    Assoc(order, Without(rest, SetOf(since)), [id]);
    Assoc(order, Without(rest, SetOf(since)) + [id], Recent(since));
  }

  /** Position of a key in the latest of a list, by what follows it. */
  lemma PlaceInLatest(early: seq<Id>, id: Id, late: seq<Id>)
    requires Distinct(early + [id] + late)
    ensures var all := early + [id] + late;
      Misplaced(Latest(all), id) <==>
        if |all| < MAX_CACHE_SIZE then |late| > 0 else |late| < MAX_CACHE_SIZE - 1
  {
    var all := early + [id] + late;
    assert all[|early|] == id;
    assert forall j :: 0 <= j < |late| ==> all[|early| + 1 + j] == late[j];
    assert id !in late;
    if |late| >= MAX_CACHE_SIZE {
      assert forall x :: x in Latest(all) ==> x in late;
    } else {
      var cut := if |all| <= MAX_CACHE_SIZE then 0 else |all| - MAX_CACHE_SIZE;
      assert Latest(all) == all[cut..];
      assert Latest(all)[|early| - cut] == id;
    }
  }

  /** One id of a batch of misses is misplaced exactly when it was cached before
      in the batch, too soon. */
  lemma MisplacedIffRepeated(order: seq<Id>, ids: seq<Id>, i: nat)
    requires Distinct(order) && |order| <= MAX_CACHE_SIZE && forall x :: x in ids ==> x !in order
    requires i < |ids|
    ensures Misplaced(UseAll(order, ids[..i]), ids[i]) <==> exists h: nat :: RepeatedSoon(|order|, ids, h, i)
  {
    var id := ids[i];
    UseAllIsLatest(order, ids[..i]);
    hide Misplaced, Recent, UseAll, Latest, Distinct;
    if id in ids[..i] {
      var h := LastPlace(ids, i);
      var early := LastUsedAt(order, ids, h, i);
      PlaceInLatest(early, id, Recent(ids[h + 1..i]));
      RecentSize(ids[..i]);
      RecentSize(ids[h + 1..i]);
      OnlyThere(|order|, ids, h, i);
    } else {
      NotInLatest(order, ids[..i], id);
      assert forall h :: 0 <= h < i ==> ids[..i][h] != id;
    }
  }

  /** There is one last place before `i`, so one place to look at. */
  lemma OnlyThere(size: nat, ids: seq<Id>, h: nat, i: nat)
    requires LastBefore(ids, h, i)
    ensures (exists k: nat :: RepeatedSoon(size, ids, k, i)) <==> RepeatedSoon(size, ids, h, i)
  {
    assert forall k: nat :: LastBefore(ids, k, i) ==> k == h;
  }

  lemma NotInLatest(order: seq<Id>, ids: seq<Id>, id: Id)
    requires id !in order && id !in ids
    ensures !Misplaced(Latest(order + Recent(ids)), id)
  {
    RecentByUse(ids);
    NotThere(Latest(order + Recent(ids)), id);
  }

  lemma NotThere(order: seq<Id>, id: Id)
    requires id !in order
    ensures !Misplaced(order, id)
  {
  }

  lemma LastPlace(ids: seq<Id>, i: nat) returns (h: nat)
    requires i < |ids| && ids[i] in ids[..i]
    ensures LastBefore(ids, h, i)
  {
    h := i - 1;
    while ids[h] != ids[i]
      invariant h < i && (forall k :: h < k < i ==> ids[k] != ids[i]) && ids[i] in ids[..h + 1]
      decreases h
    {
      assert ids[..h + 1] == ids[..h] + [ids[h]];
      h := h - 1;
    }
  }

  /** A batch of misses is cached as if used one by one exactly when none of
      them is repeated too soon. */
  lemma PromptIff(order: seq<Id>, ids: seq<Id>)
    requires Distinct(order) && |order| <= MAX_CACHE_SIZE && forall x :: x in ids ==> x !in order
    ensures Prompt(order, ids) <==> NoneSoon(|order|, ids)
  {
    hide Misplaced, RepeatedSoon, Cached, Used, UseAll;
    forall i | 0 <= i < |ids|
      ensures PromptAt(order, ids, i) <==> !exists h: nat :: RepeatedSoon(|order|, ids, h, i)
    {
      UseAllKeys(order, ids[..i]);
      CachedIsUse(UseAll(order, ids[..i]), ids[i]);
      MisplacedIffRepeated(order, ids, i);
    }
    forall h: nat, i: nat | RepeatedSoon(|order|, ids, h, i) ensures i < |ids| && !PromptAt(order, ids, i) {
      RepeatedIndex(|order|, ids, h, i);
    }
  }

  lemma RepeatedIndex(size: nat, ids: seq<Id>, h: nat, i: nat)
    requires RepeatedSoon(size, ids, h, i)
    ensures h < i < |ids| && ids[h] == ids[i]
  {
  }

  lemma {:induction false} UseAllKeys(order: seq<Id>, ids: seq<Id>)
    requires Distinct(order) && |order| <= MAX_CACHE_SIZE
    ensures Distinct(UseAll(order, ids)) && |UseAll(order, ids)| <= MAX_CACHE_SIZE
  {
    if ids != [] {
      UseAllKeys(order, ids[..|ids| - 1]);
      UsedKeys(UseAll(order, ids[..|ids| - 1]), ids[|ids| - 1]);
    }
  }
}
