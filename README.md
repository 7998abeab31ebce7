# LookupMap — a Dafny model of near-sdk's lazily loaded storage map

`near_sdk::store::LookupMap` is a non-iterable key→value map that sits on top
of the contract storage host. Each key `k` lives under the 32-byte lookup key
`hash(prefix ++ borsh(k))`. The cache holds one slot per key the map has
touched. `get`, `get_mut`, `insert`, `remove` and `entry` read storage only
when the key has no slot yet; they then keep what they read in a new slot,
an absent value included. `set` never reads: it fills the slot with the new
value directly. `contains_key` makes no read at all: a slot holding `Some`
answers `true`, and anything else (no slot, or a slot holding `None`) goes
to a storage existence check. It creates a slot, holding `None`, only when
that check finds nothing and the key had no slot. Changes (`set`, `insert`,
`remove`, `get_mut`, `entry(..).or_insert(..)`) stay in the cache, marked
`Modified`, until `flush` writes each `Modified` slot back (the encoded
value, or a remove for `None`) and demotes it to `Cached`.

The model has five modules:

- `Host` (`host.dfy`): the storage host as a class `Storage`. It holds a `map<Digest, Bytes>` and ghost counters of the storage calls made (`IoCounts`: reads, writes, removes, existence checks). Calls to the hasher are not counted, although with the built-in hashers each `lookup_key` is itself a host call (mod.rs:26-27, 159): one per load, per `contains_key` not answered by a cached `Some`, and per `Modified` slot in `flush`.
- `Codecs` (`codecs.dfy`): the key and value encoders, the value decoder and the hasher, as function values in a `Codec`. It also holds `LookupKey`, `DeserializeElement`, `LoadElement`, and the two assumptions the flush needs: values round-trip (`RoundTrips`), and the keys the map holds get distinct lookup keys (`Separated`).
- `CacheModel` (`cache_model.dfy`): the slot type `CacheEntry` (`Cached | Modified`) and the specification functions.
  - `Coherent`: every `Cached` slot mirrors storage.
  - `Visible`: the value a key currently has.
  - `FlushAll`: what a flush does to storage, as a fold over the order in which slots are visited.
  - The lemmas about these functions.
- `LookupMaps` (`lookup_map.dfy`): the class `LookupMap` with a `cache: map<K, CacheEntry<V>>` field. A key missing from the map is an uninitialised `OnceCell`. Each operation is a method whose contract gives:
  - its result;
  - the new cache;
  - the storage contents;
  - the storage calls it made.

  Every method keeps `Valid()`, which is `Coherent`.
- `ByteCodec` and `Scenarios`:
  - `ByteCodec` is a concrete `u8` codec with a stand-in hasher whose values round-trip and whose lookup keys separate all `u8` keys (`Lawful`).
  - `Scenarios` replays the doc examples and unit tests of the source against the contracts.

`contains_key` is modelled as the code is written. Only a cached `Some` answers `true` without a storage call (near-sdk/src/store/lookup_map/mod.rs:251-257). A cached `None`, whether a confirmed absence or an unflushed `remove`, falls through to `storage_has_key`. The comment at mod.rs:262 speaks of caching the negative answer, but the check at mod.rs:251-254 consults only a cached `Some`, so the cached `None` never spares a later existence check. Two `contains_key` calls on a missing key therefore make two existence checks (`Scenarios.MissingKeyChecks`). After a flushed insert and an unflushed remove, `contains_key` still reports `true` while `get` reports `None` (`Scenarios.ContainsKeyAfterRemove`).

All collections of a contract share one storage. A flush writes only the lookup keys of its own `Modified` slots (`CacheModel.FlushAllFrame`), so another collection whose lookup keys never meet this one's stays coherent (`CacheModel.FlushKeepsOtherCoherent`, `Scenarios.SharedStorage`).

## Model

| member | source | states |
|---|---|---|
| LookupMaps.LookupMap.constructor | near-sdk/src/store/lookup_map/mod.rs:123-132 | a new map has the given prefix and hasher and an empty cache, and is coherent with any storage |
| Codecs.LookupKey | near-sdk/src/store/lookup_map/mod.rs:150-160 | `lookup_key`: the hasher applied to the prefix followed by the key's encoding, a 32-byte digest. It has no contract of its own. That the keys a map holds get distinct lookup keys is the assumption `Separated`, asked of the cache's keys by `Flush`; it is not a proved fact. Separation of all keys (`KeyInjective`) is possible only for key types with at most 256^32 values; `ByteCodec.U8CodecLawful` shows it for `u8` |
| LookupMaps.LookupMap.Set | near-sdk/src/store/lookup_map/mod.rs:140-148 | the slot of `k` becomes `Modified` holding `value`, whether or not it was initialised; it makes no storage call; afterwards the map's value for `k` is `value` |
| Codecs.DeserializeElement | near-sdk/src/store/lookup_map/mod.rs:169-171 | the element returned is the one the decoder reads from the bytes; bytes that do not decode are excluded, as the source aborts on them |
| Codecs.LoadElement | near-sdk/src/store/lookup_map/mod.rs:173-180 | the result mirrors storage: `None` exactly when nothing is stored under the lookup key, otherwise the value the stored bytes decode to |
| LookupMaps.LookupMap.Load | near-sdk/src/store/lookup_map/mod.rs:173-180 | one storage read at the lookup key of `k`, returning `LoadElement` of the storage before the call; storage contents unchanged |
| LookupMaps.LookupMap.Resolve | near-sdk/src/store/lookup_map/mod.rs:200-211 | an uninitialised slot is loaded with exactly one read and cached as `Cached`; an initialised slot is returned with no storage call and no change; the slot's value is the value the map held for `k` |
| LookupMaps.LookupMap.Get | near-sdk/src/store/lookup_map/mod.rs:187-198 | returns the value the map held for `k`; on the first touch it reads storage once and caches the result (an absent one too) as `Cached`; later calls make no storage call and change nothing |
| LookupMaps.LookupMap.GetMut | near-sdk/src/store/lookup_map/mod.rs:218-224 | returns the updated value exactly when the key had one; the slot is marked `Modified` either way; storage is read only on the first touch |
| LookupMaps.LookupMap.Insert | near-sdk/src/store/lookup_map/mod.rs:233-238 | returns the value visible for `k` before the call, loading it on the first touch; the slot then holds `Some(v)`, `Modified`; storage contents unchanged |
| LookupMaps.LookupMap.ContainsKey | near-sdk/src/store/lookup_map/mod.rs:245-266 | `true` with no storage call when the slot holds `Some`; otherwise one existence check whose answer is returned; a negative answer on an uninitialised slot records a `Cached` `None`, and an initialised slot is left as it was; storage contents never change |
| CacheModel.ContainsKeyAgreesWithGet | near-sdk/src/store/lookup_map/mod.rs:245-266 | on a coherent cache, `contains_key` agrees with `get(k).is_some()` for every slot except an unflushed `None`; there it reports what storage still holds |
| LookupMaps.LookupMap.Remove | near-sdk/src/store/lookup_map/mod.rs:274-280 | returns the value visible for `k` before the call; the slot then holds `None`, `Modified`; storage contents unchanged |
| LookupMaps.LookupMap.Entry | near-sdk/src/store/lookup_map/mod.rs:298-310 | loads the slot at most once; the result is `Occupied` with the value exactly when the map's value for `k` is `Some`, and `Vacant` otherwise; the handle describes the slot |
| LookupMaps.LookupMap.OrInsert | near-sdk/src/store/lookup_map/mod.rs:63-72 | a vacant entry receives the fallback and an occupied one keeps its value; the mutation made through the returned reference is applied; the slot ends `Modified` holding the result; no storage call |
| LookupMaps.LookupMap.FlushSlot | near-sdk/src/store/lookup_map/mod.rs:325-344 | a `Modified` slot is written (`Some`) or removed (`None`) at its lookup key with one storage call, then demoted to `Cached`; a `Cached` slot costs nothing and is unchanged |
| LookupMaps.LookupMap.Flush | near-sdk/src/store/lookup_map/mod.rs:322-347 | the visit order lists every slot and is as long as the cache, so each slot is visited once (`VisitsEachOnce`); storage becomes the fold `FlushAll` over that order; the storage calls counted are `FlushCount` of the order, which `FlushCountPending` shows is one write per `Modified` `Some` and one remove per `Modified` `None`; every slot is demoted with its value kept; the cache is coherent afterwards and every cached value mirrors storage |
| CacheModel.FlushAllAt | near-sdk/src/store/lookup_map/mod.rs:322-347 | when no other key of the cache shares the lookup key of `k`: whatever the visit order, after a flush the lookup key of a `Modified` slot holds its encoded value (or nothing for `None`), and the lookup key of any other key is unchanged |
| CacheModel.FlushOrderIrrelevant | near-sdk/src/store/lookup_map/mod.rs:324 | when the cache's keys have distinct lookup keys, any two visit orders that cover the cache leave the same storage |
| CacheModel.FlushAllFrame | near-sdk/src/store/lookup_map/mod.rs:322-347 | a flush leaves every digest of the shared storage unchanged except the lookup keys of the slots it visits |
| CacheModel.FlushKeepsOtherCoherent | near-sdk/src/store/lookup_map/mod.rs:322-347 | a flush keeps any other collection over the same storage coherent when no key of one shares a lookup key with a key of the other |
| CacheModel.FlushCountPending | near-sdk/src/store/lookup_map/mod.rs:326-338 | for an order that visits every slot of the cache once (which is what `Flush` guarantees), the writes counted equal the number of `Modified` slots holding `Some`, and the removes counted equal the number holding `None` |
| CacheModel.VisitsEachOnce | near-sdk/src/store/lookup_map/mod.rs:324 | an order that lists only and all keys of the cache, and is exactly as long as the cache, lists each key once |
| CacheModel.FlushMirrorsCache | near-sdk/src/store/lookup_map/mod.rs:322-347 | when values round-trip and the cache's keys have distinct lookup keys: after a flush of a coherent cache, every slot's value, `Modified` or not, is what storage holds for its key, so the demoted cache is coherent |
| CacheModel.FlushPreservesVisible | near-sdk/src/store/lookup_map/mod.rs:319-321 | when no key of the cache shares the lookup key of `k`, a flush does not change the value the map shows for `k`: the cached values stay in memory and storage agrees with them |
| CacheModel.FlushIdempotent | near-sdk/src/store/lookup_map/mod.rs:341-343 | on a flushed cache a second flush issues no write and no remove and leaves storage and every slot unchanged |
| Host.Storage.Read | near-sdk/src/store/lookup_map/mod.rs:178 | `storage_read`: the stored bytes, if any, counted as one read |
| Host.Storage.HasKey | near-sdk/src/store/lookup_map/mod.rs:259 | `storage_has_key`: whether the key is stored, counted as one existence check |
| Host.Storage.Write | near-sdk/src/store/lookup_map/mod.rs:333 | `storage_write`: the key now holds the bytes, nothing else changes, counted as one write |
| Host.Storage.Remove | near-sdk/src/store/lookup_map/mod.rs:337 | `storage_remove`: the key is no longer stored, nothing else changes, counted as one remove |
| ByteCodec.U8CodecLawful | near-sdk/src/store/lookup_map/mod.rs:150-160 | for `u8` keys and values with a prefix of at most 30 bytes, the lookup key `hash(prefix ++ borsh(k))` separates all distinct keys and values round-trip, so the assumptions of the flush proofs can be met |
| Codecs.MirrorsUnique | near-sdk/src/store/lookup_map/mod.rs:173-180 | a value that storage mirrors for `k` is exactly what `load_element` returns |
| Scenarios.SetThenInsert | near-sdk/src/store/lookup_map/mod.rs:35-43 | after `set(k, Some(7))`, `contains_key` is true and `get` returns 7; `insert(k, 5)` returns 7 and the map then holds 5 |
| Scenarios.Tally | near-sdk/src/store/lookup_map/mod.rs:289-290 | `entry(x).or_insert(0)` followed by `+= 1` leaves `x` holding one more than before (1 when it was absent), with storage contents unchanged |
| Scenarios.TallyAll | near-sdk/src/store/lookup_map/mod.rs:288-291 | after the counting loop, exactly the keys that occur have a slot, each holding its number of occurrences |
| Scenarios.CountOccurrences | near-sdk/src/store/lookup_map/mod.rs:286-296 | counting [7, 2, 4, 7, 4, 1, 7] gives 4→2, 7→3, 1→1, and `get(8)` is `None` |
| Scenarios.RemoveLastReinsert | near-sdk/src/store/lookup_map/mod.rs:414-428 | removing the last inserted key returns its value, and inserting it again returns `None` |
| Scenarios.InsertOverrideRemove | near-sdk/src/store/lookup_map/mod.rs:431-455 | for one key (the test runs the same steps on 100 random keys): a re-insert returns the first value, a remove returns the second, and `get` then returns `None` |
| Scenarios.FlushRoundTrip | near-sdk/src/store/lookup_map/mod.rs:502-520 | `set` leaves storage without the key until the flush; after it, a new map over the same prefix and storage loads the value |
| Scenarios.FlushOnDrop | near-sdk/src/store/lookup_map/mod.rs:502-520 | the same round trip with the test's constants: `u8` key 5, value 8, prefix `b"m"` |
| Scenarios.FlushSinglePending | near-sdk/src/store/lookup_map/mod.rs:322-347 | flushing one pending `Some(v)` into empty storage stores exactly its encoding, with one write and no remove |
| Scenarios.FlushTwice | near-sdk/src/store/lookup_map/mod.rs:341-343 | two flushes after one `set` make exactly one write in total; the second makes no storage call |
| Scenarios.MissingKeyChecks | near-sdk/src/store/lookup_map/mod.rs:245-266 | `contains_key` on a missing key answers `false` and makes one existence check each time it is called; the following `get` is answered from the cache without a read |
| Scenarios.SharedStorage | near-sdk/src/store/lookup_map/mod.rs:322-347 | with two collections over one storage that give the key different lookup keys, flushing an insert into the first leaves the second's cached absence valid, and a fresh map over either prefix sees only its own data |
| Scenarios.ContainsKeyAfterRemove | near-sdk/src/store/lookup_map/mod.rs:251-259 | after a flushed insert and an unflushed remove, `contains_key` is `true` (storage still holds the key) while `get` is `None` |

## Left out

- Hashing: `Sha256` and `Keccak256` are not modelled. The hasher is a function value. `Flush` and the flush lemmas assume it is collision-free on the keys the map holds (`Separated`, `Apart`), not on all keys: a 32-byte digest cannot separate every `String` or unbounded integer. Hash calls are not counted in `IoCounts`.
- Borsh serialisation is not modelled. The encoders and the decoder are function values, and the flush proofs assume values round-trip (`RoundTrips`).
- Encode failure: encoders are total, so the `env::panic` on a failed serialisation is not modelled.
- Decode failure: the abort on bytes that do not decode is a precondition (`Loadable` / `CanLoad`) of the operations that load, not an abort outcome.
- `new` is covered by the constructor with the hasher passed in (`new_with_hasher`); the default `Sha256` choice is not modelled.
- `LookupMaps.LookupMap.GetMut`: the `&mut V` reference the source returns is replaced by an `update` function applied to the value, because references and their aliasing are not modelled. For the same reason `OrInsert` takes the mutation made through its returned reference as a parameter.
- Pointer stability is not modelled, and neither is the borrow checker's aliasing rule for references returned from the cache. These concern `OnceCell` and `Box` slots inside a `StableMap`.
- The generic `Borrow`/`ToOwned` key forms and the struct's own Borsh derive are not modelled.
- The `entry` submodule is not part of this model.
  - `or_insert` is modelled as its doc examples use it.
  - `or_insert_with` is `OrInsert` given the producer's value.
  - The remaining `OccupiedEntry`/`VacantEntry` methods are not modelled.
- The `impls` submodule is not part of this model.
  - The flush run on `Drop` is modelled as an explicit `Flush` call.
  - `Index` is modelled as `Get`.
  - `Extend` is not modelled.
- The iteration order of the cache's `BTreeMap` is replaced by an arbitrary visit order, returned as a ghost value. `FlushOrderIrrelevant` shows that the resulting storage does not depend on it.
- The flush's reusable serialisation buffer is not modelled, because it has no observable effect.
- `CacheEntry` lives in a crate module that is not part of this model. The model follows its documented behaviour:
  - replacing a value, or taking the value mutably, marks the slot `Modified`;
  - `replace_state` sets the state.
- The randomised tests (`test_insert`, `test_insert_has_key`, `test_insert_remove`, `test_get_non_existent`, `test_extend`) are not replayed. Their properties are the contracts of `Insert`, `Remove`, `ContainsKey` and `Get`.
- `Scenarios.InsertOverrideRemove` replays `test_insert_override_remove` for one key only, not its 100 random keys in shuffled order.
- near-sdk/src/environment/mod.rs holds only module declarations, so there is nothing in it to model.
