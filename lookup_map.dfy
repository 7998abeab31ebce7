/**
 * `LookupMap`: a non-iterable map over the storage host that loads each key
 * at most once, keeps every change in its cache, and writes the changes back
 * only when flushed.
 */
module LookupMaps {
  import opened Wrappers
  import opened Host
  import opened Codecs
  import opened CacheModel

  /** The result of `entry`: the slot of `key` holds `Some(value)`
      (`Occupied`) or `None` (`Vacant`). */
  datatype EntryView<K, V> = Occupied(key: K, value: V) | Vacant(key: K)

  class LookupMap<K(==, !new), V(!new)> {
    const prefix: Bytes
    const codec: Codec<K, V>
    const store: Storage
    var cache: Cache<K, V>

    /** Every `Cached` slot mirrors storage. */
    ghost predicate Valid()
      reads this, store
    {
      Coherent(codec, prefix, cache, store.data)
    }

    /** `k` can be read without an abort: its slot is initialised, or what
        storage holds for it decodes. */
    ghost predicate CanLoad(k: K)
      reads this, store
    {
      k in cache || Loadable(codec, prefix, store.data, k)
    }

    /** The value the map currently holds for `k`. */
    ghost function ValueOf(k: K): Option<V>
      reads this, store
      requires CanLoad(k)
    {
      Visible(codec, prefix, cache, store.data, k)
    }

    /** The handle `e` still describes the slot of its key. */
    ghost predicate Holds(e: EntryView<K, V>)
      reads this
    {
      e.key in cache && cache[e.key].value == (if e.Occupied? then Some(e.value) else None)
    }

    /** `new_with_hasher`: an empty cache over `store`, with the hasher
        carried by `codec`. */
    constructor (prefix: Bytes, codec: Codec<K, V>, store: Storage)
      ensures Valid()
      ensures this.prefix == prefix && this.codec == codec && this.store == store
      ensures cache == map[]
    {
      this.prefix := prefix;
      this.codec := codec;
      this.store := store;
      cache := map[];
    }

    /** `set`: overwrites the value of `k` without reading storage; `None`
        schedules a delete. */
    method Set(k: K, value: Option<V>)
      requires Valid()
      modifies this
      ensures Valid()
      ensures cache == old(cache)[k := CacheEntry(value, Modified)]
      ensures k in cache && ValueOf(k) == value
    {
      if k in cache {
        // writing through `value_mut` marks the slot Modified
        cache := cache[k := cache[k].Replace(value)];
      } else {
        cache := cache[k := CacheEntry(value, Modified)];
      }
    }

    /** `load_element`: one storage read for the lookup key of `k`. */
    method Load(k: K) returns (r: Option<V>)
      requires Loadable(codec, prefix, store.data, k)
      modifies store
      ensures r == LoadElement(codec, prefix, old(store.data), k)
      ensures store.data == old(store.data)
      ensures store.io == old(store.io).Plus(1, 0, 0, 0)
    {
      var bytes := store.Read(LookupKey(codec, prefix, k));
      match bytes
      case None =>
        r := None;
      case Some(b) =>
        r := Some(DeserializeElement(codec, b));
    }

    /** The slot initialisation shared by `get` and `get_mut_inner`: an
        uninitialised slot is loaded from storage, once, and cached as
        `Cached`; an initialised one is returned as it is. */
    method Resolve(k: K) returns (e: CacheEntry<V>)
      requires Valid() && CanLoad(k)
      modifies this, store
      ensures Valid()
      ensures k in cache && cache[k] == e
      ensures e.value == old(ValueOf(k))
      ensures cache == if old(k in cache) then old(cache) else old(cache)[k := CacheEntry(e.value, Cached)]
      ensures store.data == old(store.data)
      ensures store.io == old(store.io).Plus(if old(k in cache) then 0 else 1, 0, 0, 0)
    {
      if k !in cache {
        var loaded := Load(k);
        cache := cache[k := CacheEntry(loaded, Cached)];
      }
      e := cache[k];
    }

    /** `get`: the value of `k`, reading storage only on the first touch of
        the key and caching what it read, an absent value included. */
    method Get(k: K) returns (r: Option<V>)
      requires Valid() && CanLoad(k)
      modifies this, store
      ensures Valid()
      ensures r == old(ValueOf(k))
      ensures cache == if old(k in cache) then old(cache) else old(cache)[k := CacheEntry(r, Cached)]
      ensures store.data == old(store.data)
      ensures store.io == old(store.io).Plus(if old(k in cache) then 0 else 1, 0, 0, 0)
    {
      var e := Resolve(k);
      r := e.value;
    }

    /** `get_mut`: resolves the slot and marks it `Modified` whether or not
        the value is then changed; the mutation made through the returned
        reference is `update`, applied to a present value. */
    method GetMut(k: K, update: V -> V) returns (r: Option<V>)
      requires Valid() && CanLoad(k)
      modifies this, store
      ensures Valid()
      ensures r.Some? <==> old(ValueOf(k)).Some?
      ensures r.Some? ==> r.value == update(old(ValueOf(k)).value)
      ensures cache == old(cache)[k := CacheEntry(r, Modified)]
      ensures store.data == old(store.data)
      ensures store.io == old(store.io).Plus(if old(k in cache) then 0 else 1, 0, 0, 0)
    {
      var e := Resolve(k);
      r := if e.value.Some? then Some(update(e.value.value)) else None;
      cache := cache[k := e.Replace(r)];
    }

    /** `insert`: stores `Some(v)` for `k` and returns the value it replaced,
        loaded from storage if the slot was uninitialised. */
    method Insert(k: K, v: V) returns (prev: Option<V>)
      requires Valid() && CanLoad(k)
      modifies this, store
      ensures Valid()
      ensures prev == old(ValueOf(k))
      ensures cache == old(cache)[k := CacheEntry(Some(v), Modified)]
      ensures store.data == old(store.data)
      ensures store.io == old(store.io).Plus(if old(k in cache) then 0 else 1, 0, 0, 0)
    {
      var e := Resolve(k);
      prev := e.value;
      cache := cache[k := e.Replace(Some(v))];
    }

    /** `remove`: leaves `None` for `k` and returns the value it replaced. */
    method Remove(k: K) returns (prev: Option<V>)
      requires Valid() && CanLoad(k)
      modifies this, store
      ensures Valid()
      ensures prev == old(ValueOf(k))
      ensures cache == old(cache)[k := CacheEntry(None, Modified)]
      ensures store.data == old(store.data)
      ensures store.io == old(store.io).Plus(if old(k in cache) then 0 else 1, 0, 0, 0)
    {
      var e := Resolve(k);
      prev := e.value;
      cache := cache[k := e.Replace(None)];
    }

    /** `contains_key`: `true` at no cost when the slot holds a value;
        otherwise one existence check in storage, and when that finds nothing
        an uninitialised slot records a `Cached` `None`. */
    method ContainsKey(k: K) returns (b: bool)
      requires Valid()
      modifies this, store
      ensures Valid()
      ensures b == ContainsKeyResult(codec, prefix, old(cache), old(store.data), k)
      ensures store.data == old(store.data)
      ensures old(k in cache && cache[k].value.Some?) ==> cache == old(cache) && store.io == old(store.io)
      ensures !old(k in cache && cache[k].value.Some?) ==>
        store.io == old(store.io).Plus(0, 0, 0, 1) &&
        cache == if !b && old(k !in cache) then old(cache)[k := CacheEntry(None, Cached)] else old(cache)
    {
      if k in cache && cache[k].value.Some? {
        return true;
      }
      b := store.HasKey(LookupKey(codec, prefix, k));
      if !b && k !in cache {
        cache := cache[k := CacheEntry(None, Cached)];
      }
    }

    /** `entry`: resolves the slot once and reports whether it holds a value. */
    method Entry(k: K) returns (e: EntryView<K, V>)
      requires Valid() && CanLoad(k)
      modifies this, store
      ensures Valid()
      ensures e.key == k && Holds(e)
      ensures e.Occupied? <==> old(ValueOf(k)).Some?
      ensures e.Occupied? ==> Some(e.value) == old(ValueOf(k))
      ensures cache == if old(k in cache) then old(cache) else old(cache)[k := CacheEntry(old(ValueOf(k)), Cached)]
      ensures store.data == old(store.data)
      ensures store.io == old(store.io).Plus(if old(k in cache) then 0 else 1, 0, 0, 0)
    {
      var slot := Resolve(k);
      if slot.value.Some? {
        e := Occupied(k, slot.value.value);
      } else {
        e := Vacant(k);
      }
    }

    /** `or_insert` on an entry, followed by the mutation `update` made
        through the returned reference: a vacant slot receives `fallback`, an
        occupied one keeps its value, and either way the slot is marked
        `Modified` and holds the updated value. No storage access. */
    method OrInsert(e: EntryView<K, V>, fallback: V, update: V -> V) returns (v: V)
      requires Valid() && Holds(e)
      modifies this
      ensures Valid()
      ensures v == update(if e.Occupied? then e.value else fallback)
      ensures cache == old(cache)[e.key := CacheEntry(Some(v), Modified)]
    {
      var current := if e.Occupied? then e.value else fallback;
      v := update(current);
      cache := cache[e.key := cache[e.key].Replace(Some(v))];
    }

    /** The body of the flush loop for one slot: a `Modified` slot is written
        (or removed) and demoted; a `Cached` one costs nothing. */
    method FlushSlot(k: K)
      requires k in cache
      modifies this, store
      ensures cache == old(cache)[k := old(cache)[k].Demote()]
      ensures store.data == FlushOne(codec, prefix, old(store.data), k, old(cache)[k])
      ensures store.io == old(store.io).Plus(0,
        if old(cache)[k].IsModified() && old(cache)[k].value.Some? then 1 else 0,
        if old(cache)[k].IsModified() && old(cache)[k].value.None? then 1 else 0, 0)
    {
      var slot := cache[k];
      if slot.IsModified() {
        var d := LookupKey(codec, prefix, k);
        if slot.value.Some? {
          store.Write(d, codec.encodeValue(slot.value.value));
        } else {
          // the element was removed: clear its storage
          store.Remove(d);
        }
        // mark the slot Cached, to avoid a duplicate write on the next flush
        cache := cache[k := slot.Demote()];
      } else {
        assert slot.Demote() == slot;
        assert cache[k := slot] == cache;
      }
    }

    /** `flush`: writes every `Modified` slot to storage (the encoded value,
        or a remove for `None`) and demotes it to `Cached`; `Cached` slots
        cost nothing. `order` is the order the slots were visited in, each
        once; what storage ends up holding does not depend on it
        (`FlushOrderIrrelevant`). Distinct keys of the cache must have
        distinct lookup keys (`Separated`), as a collision-free hash gives. */
    method Flush() returns (ghost order: seq<K>)
      requires Valid() && RoundTrips(codec) && Separated(codec, prefix, cache.Keys)
      modifies this, store
      ensures Valid()
      ensures cache == Demoted(old(cache))
      ensures InCache(order, old(cache)) && |order| == |old(cache)|
      ensures forall k :: k in old(cache) ==> k in order
      ensures store.data == FlushAll(codec, prefix, old(cache), old(store.data), order)
      ensures store.io == old(store.io).Plus(0, FlushCount(old(cache), order, true), FlushCount(old(cache), order, false), 0)
    {
      ghost var c0 := cache;
      ghost var s0 := store.data;
      ghost var io0 := store.io;
      order := [];
      var todo := cache.Keys;
      while todo != {}
        invariant todo <= c0.Keys && InCache(order, c0)
        invariant |order| + |todo| == |c0|
        invariant forall k :: k in c0 ==> k in todo || k in order
        invariant cache.Keys == c0.Keys
        invariant forall j :: j in c0 ==> cache[j] == if j in todo then c0[j] else c0[j].Demote()
        invariant store.data == FlushAll(codec, prefix, c0, s0, order)
        invariant store.io == io0.Plus(0, FlushCount(c0, order, true), FlushCount(c0, order, false), 0)
        decreases |todo|
      {
        var k :| k in todo;
        FlushSlot(k);
        assert (order + [k])[..|order|] == order;
        order := order + [k];
        todo := todo - {k};
      }
      assert cache == Demoted(c0);
      FlushMirrorsCache(codec, prefix, c0, s0, order);
    }
  }
}
