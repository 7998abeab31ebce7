/**
 * The per-key cache of a `LookupMap` as a value, and what flushing it does to
 * storage. A cache maps each key touched so far to its `CacheEntry`; a key
 * absent from the map is an uninitialised slot.
 */
module CacheModel {
  import opened Wrappers
  import opened Host
  import opened Codecs

  /** `Cached`: the value mirrors storage. `Modified`: it must be persisted. */
  datatype EntryState = Cached | Modified

  datatype CacheEntry<V> = CacheEntry(value: Option<V>, state: EntryState) {
    predicate IsModified() {
      state == Modified
    }

    /** `replace` and writes through `value_mut`: the new value, marked Modified. */
    function Replace(newValue: Option<V>): CacheEntry<V> {
      CacheEntry(newValue, Modified)
    }

    /** `replace_state(Cached)`, done by flush once the value is persisted. */
    function Demote(): CacheEntry<V> {
      this.(state := Cached)
    }
  }

  type Cache<K, V> = map<K, CacheEntry<V>>

  type Store = map<Digest, Bytes>

  /** Every `Cached` slot holds what storage holds for its key. */
  ghost predicate Coherent<K, V>(codec: Codec<K, V>, prefix: Bytes, cache: Cache<K, V>, storage: Store) {
    forall k :: k in cache && cache[k].state == Cached ==> Mirrors(codec, prefix, storage, k, cache[k].value)
  }

  /** The value `get(k)` yields: the slot's value once the slot is
      initialised, otherwise what is loaded from storage. */
  function Visible<K, V>(codec: Codec<K, V>, prefix: Bytes, cache: Cache<K, V>, storage: Store, k: K): Option<V>
    requires k in cache || Loadable(codec, prefix, storage, k)
  {
    if k in cache then cache[k].value else LoadElement(codec, prefix, storage, k)
  }

  /** What `contains_key(k)` answers: a cached `Some` is proof of presence;
      anything else, a cached `None` included, defers to storage. */
  function ContainsKeyResult<K, V>(codec: Codec<K, V>, prefix: Bytes, cache: Cache<K, V>, storage: Store, k: K): bool {
    (k in cache && cache[k].value.Some?) || LookupKey(codec, prefix, k) in storage
  }

  /** The cache after a flush: every slot `Cached`, values unchanged. */
  ghost function Demoted<K, V>(cache: Cache<K, V>): Cache<K, V> {
    map k | k in cache :: cache[k].Demote()
  }

  /** The bytes a flush writes for a value, `None` meaning a remove. */
  function EncodedValue<K, V>(codec: Codec<K, V>, value: Option<V>): Option<Bytes> {
    match value
    case None => None
    case Some(v) => Some(codec.encodeValue(v))
  }

  /** One write (`Some`) or remove (`None`) applied to storage. */
  ghost function Put(storage: Store, d: Digest, w: Option<Bytes>): Store {
    match w
    case None => storage - {d}
    case Some(b) => storage[d := b]
  }

  /** Storage holds `w` at `d`: the bytes for `Some`, nothing for `None`. */
  ghost predicate HoldsAt(storage: Store, d: Digest, w: Option<Bytes>) {
    match w
    case None => d !in storage
    case Some(b) => d in storage && storage[d] == b
  }

  /** `s1` and `s2` agree at `d`. */
  ghost predicate SameAt(s1: Store, s2: Store, d: Digest) {
    (d in s1 <==> d in s2) && (d in s1 ==> s1[d] == s2[d])
  }

  /** Every key of `order` has a slot. */
  ghost predicate InCache<K, V>(order: seq<K>, cache: Cache<K, V>) {
    forall i :: 0 <= i < |order| ==> order[i] in cache
  }

  /** The storage effect of flushing slot `k`: its value written or removed
      if it is `Modified`, nothing otherwise. */
  ghost function FlushOne<K, V>(codec: Codec<K, V>, prefix: Bytes, storage: Store, k: K, e: CacheEntry<V>): Store {
    if e.IsModified() then Put(storage, LookupKey(codec, prefix, k), EncodedValue(codec, e.value))
    else storage
  }

  /** Storage after flushing the slots of `order`, one after the other. */
  ghost function FlushAll<K, V>(codec: Codec<K, V>, prefix: Bytes, cache: Cache<K, V>, storage: Store, order: seq<K>): Store
    requires InCache(order, cache)
    decreases |order|
  {
    if order == [] then storage
    else
      var last := order[|order| - 1];
      FlushOne(codec, prefix, FlushAll(codec, prefix, cache, storage, order[..|order| - 1]), last, cache[last])
  }

  /** How many writes (`present`) or removes a flush of the slots of
      `order` issues: one per visited `Modified` slot. */
  ghost function FlushCount<K, V>(cache: Cache<K, V>, order: seq<K>, present: bool): nat
    requires InCache(order, cache)
    decreases |order|
  {
    if order == [] then 0
    else
      var last := order[|order| - 1];
      FlushCount(cache, order[..|order| - 1], present)
        + (if cache[last].IsModified() && cache[last].value.Some? == present then 1 else 0)
  }

  /** What a flush leaves at the lookup key of any `k`, whatever the order
      the slots are visited in: the encoded value of `k` (or nothing) when
      `k` is a visited `Modified` slot, the old contents otherwise. No other
      key of the cache shares the lookup key of `k`, so no other slot's write
      lands there. */
  lemma {:induction false} FlushAllAt<K, V>(codec: Codec<K, V>, prefix: Bytes, cache: Cache<K, V>, storage: Store, order: seq<K>, k: K)
    requires Apart(codec, prefix, cache.Keys, k)
    requires InCache(order, cache)
    ensures k in cache && cache[k].IsModified() && k in order ==>
      HoldsAt(FlushAll(codec, prefix, cache, storage, order), LookupKey(codec, prefix, k), EncodedValue(codec, cache[k].value))
    ensures !(k in cache && cache[k].IsModified() && k in order) ==>
      SameAt(FlushAll(codec, prefix, cache, storage, order), storage, LookupKey(codec, prefix, k))
    decreases |order|
  {
    if order != [] {
      var init := order[..|order| - 1];
      var last := order[|order| - 1];
      assert InCache(init, cache);
      FlushAllAt(codec, prefix, cache, storage, init, k);
      assert k in order <==> k in init || k == last;
      if last != k {
        assert last in cache;
        assert LookupKey(codec, prefix, last) != LookupKey(codec, prefix, k);
      }
    }
  }

  /** A flush touches nothing but the lookup keys of the slots it visits:
      any other digest of the shared storage, another collection's keys
      included, keeps its contents. */
  lemma {:induction false} FlushAllFrame<K, V>(codec: Codec<K, V>, prefix: Bytes, cache: Cache<K, V>, storage: Store, order: seq<K>, d: Digest)
    requires InCache(order, cache)
    requires forall i :: 0 <= i < |order| ==> LookupKey(codec, prefix, order[i]) != d
    ensures SameAt(FlushAll(codec, prefix, cache, storage, order), storage, d)
    decreases |order|
  {
    if order != [] {
      var init := order[..|order| - 1];
      assert InCache(init, cache);
      FlushAllFrame(codec, prefix, cache, storage, init, d);
    }
  }

  /** The storage a flush leaves behind does not depend on the order it
      visits the slots in. */
  lemma FlushOrderIrrelevant<K, V>(codec: Codec<K, V>, prefix: Bytes, cache: Cache<K, V>, storage: Store, o1: seq<K>, o2: seq<K>)
    requires Separated(codec, prefix, cache.Keys)
    requires InCache(o1, cache) && InCache(o2, cache)
    requires forall k :: k in cache ==> k in o1 && k in o2
    ensures FlushAll(codec, prefix, cache, storage, o1) == FlushAll(codec, prefix, cache, storage, o2)
  {
    var s1 := FlushAll(codec, prefix, cache, storage, o1);
    var s2 := FlushAll(codec, prefix, cache, storage, o2);
    forall d: Digest
      ensures d in s1 <==> d in s2
      ensures d in s1 ==> s1[d] == s2[d]
    {
      if k :| k in cache && LookupKey(codec, prefix, k) == d {
        FlushAllAt(codec, prefix, cache, storage, o1, k);
        FlushAllAt(codec, prefix, cache, storage, o2, k);
      } else {
        FlushAllFrame(codec, prefix, cache, storage, o1, d);
        FlushAllFrame(codec, prefix, cache, storage, o2, d);
      }
    }
    assert s1.Keys == s2.Keys;
  }

  /** A flush keeps every other collection over the same storage coherent,
      as long as the two never share a lookup key. */
  lemma {:induction false} FlushKeepsOtherCoherent<K, V, K2, V2>(codec: Codec<K, V>, prefix: Bytes, cache: Cache<K, V>, storage: Store, order: seq<K>,
                                              codec2: Codec<K2, V2>, prefix2: Bytes, cache2: Cache<K2, V2>)
    requires InCache(order, cache)
    requires forall a, b :: a in cache && b in cache2 ==> LookupKey(codec, prefix, a) != LookupKey(codec2, prefix2, b)
    requires Coherent(codec2, prefix2, cache2, storage)
    ensures Coherent(codec2, prefix2, cache2, FlushAll(codec, prefix, cache, storage, order))
  {
    forall k | k in cache2
      ensures SameAt(FlushAll(codec, prefix, cache, storage, order), storage, LookupKey(codec2, prefix2, k))
    {
      FlushAllFrame(codec, prefix, cache, storage, order, LookupKey(codec2, prefix2, k));
    }
  }

  /** No key occurs twice in `order`. */
  ghost predicate Distinct<K>(order: seq<K>) {
    forall i, j :: 0 <= i < j < |order| ==> order[i] != order[j]
  }

  /** A sequence has at most as many distinct elements as positions, and
      exactly as many only when no element repeats. */
  lemma {:induction false} ElementsBound<K>(order: seq<K>)
    ensures |set k | k in order| <= |order|
    ensures |set k | k in order| == |order| ==> Distinct(order)
    decreases |order|
  {
    if order != [] {
      var init := order[..|order| - 1];
      var last := order[|order| - 1];
      ElementsBound(init);
      assert order == init + [last];
      var before := set k | k in init;
      var after := set k | k in order;
      assert after == before + {last};
      if last in init {
        assert after == before;
      } else if |after| == |order| {
        forall i, j | 0 <= i < j < |order| ensures order[i] != order[j] {
          if j < |order| - 1 {
            assert order[i] == init[i] && order[j] == init[j];
          } else {
            assert order[i] == init[i];
          }
        }
      }
    }
  }

  /** An order that lists every key of `cache`, only keys of `cache`, and
      has as many positions as `cache` has keys, lists each key once. */
  lemma VisitsEachOnce<K, V>(order: seq<K>, cache: Cache<K, V>)
    requires InCache(order, cache) && |order| == |cache|
    requires forall k :: k in cache ==> k in order
    ensures Distinct(order)
  {
    assert (set k | k in order) == cache.Keys;
    ElementsBound(order);
  }

  /** The keys whose slots are `Modified` and hold a value (`present`) or
      hold `None` (`!present`): the slots a flush writes or removes. */
  ghost function Pending<K, V>(cache: Cache<K, V>, present: bool): set<K> {
    set k | k in cache && cache[k].IsModified() && cache[k].value.Some? == present
  }

  /** A flush that visits every slot once (as `Flush` does: an order of
      keys of the cache, covering it, as long as the cache) issues exactly
      one write per pending `Some` and one remove per pending `None`. */
  lemma FlushCountPending<K, V>(cache: Cache<K, V>, order: seq<K>, present: bool)
    requires InCache(order, cache) && |order| == |cache|
    requires forall k :: k in cache ==> k in order
    ensures FlushCount(cache, order, present) == |Pending(cache, present)|
  {
    VisitsEachOnce(order, cache);
    FlushCountVisited(cache, order, present);
    assert Pending(cache, present) == set k | k in order && cache[k].IsModified() && cache[k].value.Some? == present;
  }

  lemma {:induction false} FlushCountVisited<K, V>(cache: Cache<K, V>, order: seq<K>, present: bool)
    requires InCache(order, cache) && Distinct(order)
    ensures FlushCount(cache, order, present)
      == |set k | k in order && cache[k].IsModified() && cache[k].value.Some? == present|
    decreases |order|
  {
    if order != [] {
      var init := order[..|order| - 1];
      var last := order[|order| - 1];
      assert InCache(init, cache) && Distinct(init);
      FlushCountVisited(cache, init, present);
      var before := set k | k in init && cache[k].IsModified() && cache[k].value.Some? == present;
      var after := set k | k in order && cache[k].IsModified() && cache[k].value.Some? == present;
      assert order == init + [last];
      assert last !in init by {
        forall i | 0 <= i < |init| ensures init[i] != last {
          assert order[i] == init[i];
        }
      }
      if cache[last].IsModified() && cache[last].value.Some? == present {
        assert after == before + {last};
      } else {
        assert after == before;
      }
    }
  }

  /** After a flush that visited every slot, storage mirrors every cached
      value (a fresh map over the same prefix loads exactly what this one had
      cached), and the demoted cache is coherent with it. */
  lemma FlushMirrorsCache<K, V(!new)>(codec: Codec<K, V>, prefix: Bytes, cache: Cache<K, V>, storage: Store, order: seq<K>)
    requires RoundTrips(codec) && Separated(codec, prefix, cache.Keys)
    requires Coherent(codec, prefix, cache, storage)
    requires InCache(order, cache) && forall k :: k in cache ==> k in order
    ensures forall k :: k in cache ==> Mirrors(codec, prefix, FlushAll(codec, prefix, cache, storage, order), k, cache[k].value)
    ensures Coherent(codec, prefix, Demoted(cache), FlushAll(codec, prefix, cache, storage, order))
  {
    var s := FlushAll(codec, prefix, cache, storage, order);
    forall k | k in cache
      ensures Mirrors(codec, prefix, s, k, cache[k].value)
    {
      FlushAllAt(codec, prefix, cache, storage, order, k);
    }
  }

  /** A flush changes no visible value, not even that of a key never
      touched, whose lookup key it does not write. (Automatic induction is
      off so that the call to `FlushAllAt` is the proof.) */
  lemma {:induction false} FlushPreservesVisible<K, V>(codec: Codec<K, V>, prefix: Bytes, cache: Cache<K, V>, storage: Store, order: seq<K>, k: K)
    requires Apart(codec, prefix, cache.Keys, k)
    requires InCache(order, cache)
    requires k in cache || Loadable(codec, prefix, storage, k)
    ensures k in Demoted(cache) || Loadable(codec, prefix, FlushAll(codec, prefix, cache, storage, order), k)
    ensures Visible(codec, prefix, Demoted(cache), FlushAll(codec, prefix, cache, storage, order), k)
         == Visible(codec, prefix, cache, storage, k)
  {
    FlushAllAt(codec, prefix, cache, storage, order, k);
  }

  /** A second flush has nothing left to do: no slot is `Modified`, so it
      issues no write or remove and leaves storage as it is, whatever order
      it visits the slots in. */
  lemma {:induction false} FlushIdempotent<K, V>(codec: Codec<K, V>, prefix: Bytes, cache: Cache<K, V>, storage: Store, order: seq<K>)
    requires InCache(order, Demoted(cache))
    ensures Demoted(Demoted(cache)) == Demoted(cache)
    ensures FlushCount(Demoted(cache), order, true) == 0 && FlushCount(Demoted(cache), order, false) == 0
    ensures FlushAll(codec, prefix, Demoted(cache), storage, order) == storage
    decreases |order|
  {
    if order != [] {
      var init := order[..|order| - 1];
      assert InCache(init, Demoted(cache));
      FlushIdempotent(codec, prefix, cache, storage, init);
    }
  }

  /** `contains_key` agrees with `get` on every key except one whose slot
      holds an unflushed `None`: there it reports what storage still holds. */
  lemma ContainsKeyAgreesWithGet<K, V>(codec: Codec<K, V>, prefix: Bytes, cache: Cache<K, V>, storage: Store, k: K)
    requires Coherent(codec, prefix, cache, storage)
    requires k in cache || Loadable(codec, prefix, storage, k)
    ensures !(k in cache && cache[k] == CacheEntry(None, Modified)) ==>
      (ContainsKeyResult(codec, prefix, cache, storage, k) <==> Visible(codec, prefix, cache, storage, k).Some?)
    ensures k in cache && cache[k] == CacheEntry(None, Modified) ==>
      (ContainsKeyResult(codec, prefix, cache, storage, k) <==> LookupKey(codec, prefix, k) in storage)
  {
  }
}
