/**
 * The documented examples and unit tests of `LookupMap`, replayed against
 * the model. Each scenario allocates its own storage host and map, so what
 * it promises follows from the contracts of the map's operations alone.
 */
module Scenarios {
  import opened Wrappers
  import opened Host
  import opened Codecs
  import opened CacheModel
  import opened LookupMaps
  import ByteCodec

  /** The prefix `b"m"` used by the examples and tests. */
  const M: Bytes := [109]

  /** The first doc example: a value put with `set` is seen by
      `contains_key` and `get`, and `insert` returns it. */
  method SetThenInsert<K(==, !new), V(!new)>(codec: Codec<K, V>, prefix: Bytes, k: K, v1: V, v2: V)
    returns (present: bool, seen: Option<V>, prev: Option<V>, now: Option<V>)
    ensures present && seen == Some(v1) && prev == Some(v1) && now == Some(v2)
  {
    var store := new Storage();
    var m := new LookupMap<K, V>(prefix, codec, store);
    m.Set(k, Some(v1));
    present := m.ContainsKey(k);
    seen := m.Get(k);
    prev := m.Insert(k, v2);
    now := m.Get(k);
  }

  /** The body of the counting loop: `*count.entry(x).or_insert(0) += 1`. */
  method Tally(count: LookupMap<int, int>, x: int)
    requires count.Valid() && count.CanLoad(x)
    modifies count, count.store
    ensures count.Valid()
    ensures count.store.data == old(count.store.data)
    ensures count.cache == old(count.cache)[x := CacheEntry(Some(
      match old(count.ValueOf(x)) case None => 1 case Some(n) => n + 1), Modified)]
  {
    var e := count.Entry(x);
    var _ := count.OrInsert(e, 0, n => n + 1);
  }

  /** The counting loop: after tallying `keys` into an empty map, exactly
      the keys that occur are present, each with its number of occurrences. */
  method TallyAll(count: LookupMap<int, int>, keys: seq<int>)
    requires count.Valid() && count.cache == map[] && count.store.data == map[]
    modifies count, count.store
    ensures count.Valid() && count.store.data == map[]
    ensures forall x :: x in count.cache ==> count.cache[x].value == Some(multiset(keys)[x]) && multiset(keys)[x] > 0
    ensures forall x :: x !in count.cache ==> multiset(keys)[x] == 0
  {
    for i := 0 to |keys|
      invariant count.Valid() && count.store.data == map[]
      invariant forall x :: x in count.cache ==> count.cache[x].value == Some(multiset(keys[..i])[x]) && multiset(keys[..i])[x] > 0
      invariant forall x :: x !in count.cache ==> multiset(keys[..i])[x] == 0
    {
      Tally(count, keys[i]);
      assert multiset(keys[..i + 1]) == multiset(keys[..i]) + multiset{keys[i]} by {
        assert keys[..i + 1] == keys[..i] + [keys[i]];
      }
    }
    assert keys[..|keys|] == keys;
  }

  /** The counting example of `entry`: for each key of [7, 2, 4, 7, 4, 1, 7],
      `or_insert(0)` and then add one; each key ends up with its number of
      occurrences and an unseen key stays absent. */
  method CountOccurrences(codec: Codec<int, int>) returns (c4: Option<int>, c7: Option<int>, c1: Option<int>, c8: Option<int>)
    ensures c4 == Some(2) && c7 == Some(3) && c1 == Some(1) && c8 == None
  {
    var store := new Storage();
    var count := new LookupMap<int, int>(M, codec, store);
    var keys := [7, 2, 4, 7, 4, 1, 7];
    TallyAll(count, keys);
    assert multiset(keys)[4] == 2 && multiset(keys)[7] == 3 && multiset(keys)[1] == 1 && multiset(keys)[8] == 0;
    c4 := count.Get(4);
    c7 := count.Get(7);
    c1 := count.Get(1);
    c8 := count.Get(8);
  }

  /** Removing the last inserted key and inserting it again: `remove`
      returns its value and the re-insert finds nothing. */
  method RemoveLastReinsert<K(==, !new), V(!new)>(codec: Codec<K, V>, prefix: Bytes, k1: K, v1: V, k2: K, v2: V)
    returns (removed: Option<V>, reinserted: Option<V>)
    ensures removed == Some(v2) && reinserted == None
  {
    var store := new Storage();
    var m := new LookupMap<K, V>(prefix, codec, store);
    var _ := m.Insert(k1, v1);
    var _ := m.Insert(k2, v2);
    removed := m.Remove(k2);
    reinserted := m.Insert(k2, v2);
  }

  /** Overriding an inserted key returns the first value, and removing it
      returns the second. */
  method InsertOverrideRemove<K(==, !new), V(!new)>(codec: Codec<K, V>, prefix: Bytes, k: K, v1: V, v2: V)
    returns (first: Option<V>, second: Option<V>, removed: Option<V>, after: Option<V>)
    ensures first == None && second == Some(v1) && removed == Some(v2) && after == None
  {
    var store := new Storage();
    var m := new LookupMap<K, V>(prefix, codec, store);
    first := m.Insert(k, v1);
    second := m.Insert(k, v2);
    removed := m.Remove(k);
    after := m.Get(k);
  }

  /** `set` writes nothing until the flush; after it, a fresh map over the
      same prefix and storage loads the value. */
  method FlushRoundTrip<K(==, !new), V(!new)>(codec: Codec<K, V>, prefix: Bytes, k: K, v: V)
    returns (seen: Option<V>, storedBefore: bool, reloaded: Option<V>)
    requires RoundTrips(codec)
    ensures seen == Some(v) && !storedBefore && reloaded == Some(v)
  {
    var store := new Storage();
    var m := new LookupMap<K, V>(prefix, codec, store);
    m.Set(k, Some(v));
    seen := m.Get(k);
    storedBefore := store.HasKey(LookupKey(codec, prefix, k));
    var _ := m.Flush();
    assert m.cache[k] == CacheEntry(Some(v), Cached);
    assert Mirrors(codec, prefix, store.data, k, Some(v));
    MirrorsUnique(codec, prefix, store.data, k, Some(v));
    var other := new LookupMap<K, V>(prefix, codec, store);
    reloaded := other.Get(k);
  }

  /** The flush test with its own constants: `u8` key 5, value 8, prefix
      `b"m"`. */
  method FlushOnDrop() returns (seen: Option<byte>, storedBefore: bool, reloaded: Option<byte>)
    ensures seen == Some(8) && !storedBefore && reloaded == Some(8)
  {
    ByteCodec.U8CodecLawful(M);
    seen, storedBefore, reloaded := FlushRoundTrip(ByteCodec.U8Codec(), M, 5, 8);
  }

  /** Flushing a map whose only slot is a pending `Some(v)` into empty
      storage writes exactly that value, with one write and no remove. */
  lemma FlushSinglePending<K, V>(codec: Codec<K, V>, prefix: Bytes, k: K, v: V, order: seq<K>)
    requires InCache(order, map[k := CacheEntry(Some(v), Modified)]) && |order| == 1
    ensures FlushAll(codec, prefix, map[k := CacheEntry(Some(v), Modified)], map[], order)
      == map[LookupKey(codec, prefix, k) := codec.encodeValue(v)]
    ensures FlushCount(map[k := CacheEntry(Some(v), Modified)], order, true) == 1
    ensures FlushCount(map[k := CacheEntry(Some(v), Modified)], order, false) == 0
  {
    assert order == [k] by { assert order[0] in map[k := CacheEntry(Some(v), Modified)]; }
    assert order[..0] == [];
  }

  /** Two flushes in a row: the first writes the one pending value, the
      second issues no storage call at all. */
  method FlushTwice<K(==, !new), V(!new)>(codec: Codec<K, V>, prefix: Bytes, k: K, v: V) returns (store: Storage)
    requires RoundTrips(codec)
    ensures store.io == IoCounts(0, 1, 0, 0)
    ensures store.data == map[LookupKey(codec, prefix, k) := codec.encodeValue(v)]
  {
    store := new Storage();
    var m := new LookupMap<K, V>(prefix, codec, store);
    m.Set(k, Some(v));
    ghost var pending := m.cache;
    var order := m.Flush();
    FlushSinglePending(codec, prefix, k, v, order);
    ghost var flushed := store.data;
    ghost var counted := store.io;
    assert counted == IoCounts(0, 1, 0, 0);
    var again := m.Flush();
    FlushIdempotent(codec, prefix, pending, flushed, again);
    assert store.data == flushed && store.io == counted;
  }

  /** `contains_key` on a key that storage does not hold, twice: both calls
      check storage, since a cached `None` does not answer `contains_key`;
      the `get` that follows is answered by the cache without a read. */
  method MissingKeyChecks<K(==, !new), V(!new)>(codec: Codec<K, V>, prefix: Bytes, k: K)
    returns (first: bool, second: bool, got: Option<V>, store: Storage)
    ensures !first && !second && got == None
    ensures store.io == IoCounts(0, 0, 0, 2)
  {
    store := new Storage();
    var m := new LookupMap<K, V>(prefix, codec, store);
    first := m.ContainsKey(k);
    second := m.ContainsKey(k);
    got := m.Get(k);
  }

  /** After a flushed insert and an unflushed remove, `get` sees the removal
      but `contains_key` still answers from storage. */
  method ContainsKeyAfterRemove<K(==, !new), V(!new)>(codec: Codec<K, V>, prefix: Bytes, k: K, v: V)
    returns (removed: Option<V>, present: bool, got: Option<V>)
    requires RoundTrips(codec)
    ensures removed == Some(v) && present && got == None
  {
    var store := new Storage();
    var m := new LookupMap<K, V>(prefix, codec, store);
    var _ := m.Insert(k, v);
    assert m.cache == map[k := CacheEntry(Some(v), Modified)];
    var _ := m.Flush();
    assert m.cache[k] == CacheEntry(Some(v), Cached);
    assert LookupKey(codec, prefix, k) in store.data;
    removed := m.Remove(k);
    assert m.cache[k] == CacheEntry(None, Modified);
    present := m.ContainsKey(k);
    got := m.Get(k);
  }

  /** Two collections over one storage, with prefixes whose lookup keys
      never meet: flushing the first leaves the second coherent, so its
      cached absence of `k` still stands and a fresh map over its prefix
      finds nothing either. */
  method SharedStorage<K(==, !new), V(!new)>(codec: Codec<K, V>, p1: Bytes, p2: Bytes, k: K, v: V)
    returns (before: Option<V>, after: Option<V>, fresh2: Option<V>, own: Option<V>)
    requires RoundTrips(codec)
    requires LookupKey(codec, p1, k) != LookupKey(codec, p2, k)
    ensures before == None && after == None && fresh2 == None && own == Some(v)
  {
    var store := new Storage();
    var m1 := new LookupMap<K, V>(p1, codec, store);
    var m2 := new LookupMap<K, V>(p2, codec, store);
    before := m2.Get(k);
    var _ := m1.Insert(k, v);
    ghost var c1 := m1.cache;
    ghost var s1 := store.data;
    var order := m1.Flush();
    FlushKeepsOtherCoherent(codec, p1, c1, s1, order, codec, p2, m2.cache);
    assert m2.Valid();
    after := m2.Get(k);
    var other := new LookupMap<K, V>(p2, codec, store);
    fresh2 := other.Get(k);
    var reread := new LookupMap<K, V>(p1, codec, store);
    MirrorsUnique(codec, p1, store.data, k, Some(v));
    own := reread.Get(k);
  }
}
