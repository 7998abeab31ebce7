/**
 * Key derivation and element loading: how a logical key becomes a 32-byte
 * lookup key, and how the bytes stored under it become a value again.
 *
 * The Borsh encoders and the `CryptoHasher` are collaborators whose code is not
 * part of this model; a map is handed them as function values (the hasher is
 * chosen per map, as with `new_with_hasher`). What the map relies on them for
 * is stated as `RoundTrips` and `Separated`, assumed where it is needed.
 */
module Codecs {
  import opened Wrappers
  import opened Host

  /** The map's collaborators: key and value encoders, the value decoder
      (`None` where the bytes do not parse) and the hash function. */
  datatype Codec<!K, !V> = Codec(
    encodeKey: K -> Bytes,
    encodeValue: V -> Bytes,
    decodeValue: Bytes -> Option<V>,
    hash: Bytes -> Digest)

  /** Decoding an encoded value gives that value back. */
  ghost predicate RoundTrips<K, V(!new)>(codec: Codec<K, V>) {
    forall v :: codec.decodeValue(codec.encodeValue(v)) == Some(v)
  }

  /** Every two distinct keys get distinct lookup keys: the strongest form
      of separation, which implies `Separated` for every set of keys. Only
      key types with at most 256^32 values can meet it. */
  ghost predicate KeyInjective<K(!new), V>(codec: Codec<K, V>, prefix: Bytes) {
    forall k1, k2 :: LookupKey(codec, prefix, k1) == LookupKey(codec, prefix, k2) ==> k1 == k2
  }

  ghost predicate Lawful<K(!new), V(!new)>(codec: Codec<K, V>, prefix: Bytes) {
    RoundTrips(codec) && KeyInjective(codec, prefix)
  }

  /** No key of `keys` other than `k` shares the lookup key of `k`. */
  ghost predicate Apart<K, V>(codec: Codec<K, V>, prefix: Bytes, keys: set<K>, k: K) {
    forall a :: a in keys && LookupKey(codec, prefix, a) == LookupKey(codec, prefix, k) ==> a == k
  }

  /** No two keys of `keys` share a lookup key. A 32-byte digest cannot
      separate all keys of a type with more than 256^32 values (strings,
      unbounded integers), but a collision-free hash separates any finite
      set of them, and the keys a map holds are such a set: this, not
      `KeyInjective`, is what the flush relies on. */
  ghost predicate Separated<K, V>(codec: Codec<K, V>, prefix: Bytes, keys: set<K>) {
    forall a, b :: a in keys && b in keys && LookupKey(codec, prefix, a) == LookupKey(codec, prefix, b) ==> a == b
  }

  /** `lookup_key`: the hash of the prefix followed by the encoded key. */
  function LookupKey<K, V>(codec: Codec<K, V>, prefix: Bytes, k: K): Digest {
    codec.hash(prefix + codec.encodeKey(k))
  }

  /** Whatever is stored for `k` decodes; where it does not, the source
      aborts the whole call, so loading requires it. */
  predicate Loadable<K, V>(codec: Codec<K, V>, prefix: Bytes, storage: map<Digest, Bytes>, k: K) {
    var d := LookupKey(codec, prefix, k);
    d in storage ==> codec.decodeValue(storage[d]).Some?
  }

  /** `value` is what storage holds for `k`: absent for `None`, bytes
      decoding to `v` for `Some(v)`. */
  ghost predicate Mirrors<K, V>(codec: Codec<K, V>, prefix: Bytes, storage: map<Digest, Bytes>, k: K, value: Option<V>) {
    var d := LookupKey(codec, prefix, k);
    match value
    case None => d !in storage
    case Some(v) => d in storage && codec.decodeValue(storage[d]) == Some(v)
  }

  /** `deserialize_element`: decodes stored bytes. */
  function DeserializeElement<K, V>(codec: Codec<K, V>, bytes: Bytes): (v: V)
    requires codec.decodeValue(bytes).Some?
    ensures codec.decodeValue(bytes) == Some(v)
  {
    codec.decodeValue(bytes).value
  }

  /** `load_element`: the value storage holds for `k`, `None` when nothing is
      stored under its lookup key. */
  function LoadElement<K, V>(codec: Codec<K, V>, prefix: Bytes, storage: map<Digest, Bytes>, k: K): (r: Option<V>)
    requires Loadable(codec, prefix, storage, k)
    ensures Mirrors(codec, prefix, storage, k, r)
  {
    var d := LookupKey(codec, prefix, k);
    if d in storage then Some(DeserializeElement(codec, storage[d])) else None
  }

  /** A stored value mirrors exactly one element: `LoadElement` is the only
      value that storage mirrors for `k`. */
  lemma MirrorsUnique<K, V>(codec: Codec<K, V>, prefix: Bytes, storage: map<Digest, Bytes>, k: K, value: Option<V>)
    requires Mirrors(codec, prefix, storage, k, value)
    ensures Loadable(codec, prefix, storage, k)
    ensures LoadElement(codec, prefix, storage, k) == value
  {
  }
}
