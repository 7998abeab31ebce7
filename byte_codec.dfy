/**
 * A concrete instance of the collaborators for `LookupMap<u8, u8>`: Borsh
 * encodes a `u8` as that single byte, and a stand-in hasher that is
 * injective on short inputs takes the place of Keccak-256. It shows that the
 * flush assumptions (`RoundTrips`, and `Separated` through the stronger
 * `KeyInjective`) can be met for `u8`, and lets the flush round trip be
 * replayed with the source's own constants.
 */
module ByteCodec {
  import opened Wrappers
  import opened Host
  import opened Codecs

  function EncodeU8(b: byte): Bytes {
    [b]
  }

  function DecodeU8(bytes: Bytes): Option<byte> {
    if |bytes| == 1 then Some(bytes[0]) else None
  }

  /** The input's length followed by the input, zero-padded to 32 bytes;
      inputs of 32 bytes or more are truncated. */
  function PadHash(bytes: Bytes): (d: Digest)
    ensures |bytes| < DIGEST_LEN ==> d[0] as int == |bytes| && d[1..|bytes| + 1] == bytes
  {
    if |bytes| < DIGEST_LEN then [|bytes| as byte] + bytes + seq(DIGEST_LEN - 1 - |bytes|, _ => 0)
    else bytes[..DIGEST_LEN]
  }

  function U8Codec(): Codec<byte, byte> {
    Codec(EncodeU8, EncodeU8, DecodeU8, PadHash)
  }

  /** With a prefix of at most 30 bytes, `u8` values round-trip and distinct
      `u8` keys get distinct lookup keys. */
  lemma U8CodecLawful(prefix: Bytes)
    requires |prefix| <= DIGEST_LEN - 2
    ensures Lawful(U8Codec(), prefix)
  {
    forall k1, k2 | LookupKey(U8Codec(), prefix, k1) == LookupKey(U8Codec(), prefix, k2)
      ensures k1 == k2
    {
      var b1, b2 := prefix + [k1], prefix + [k2];
      assert PadHash(b1)[1..|b1| + 1] == b1;
      assert PadHash(b2)[1..|b2| + 1] == b2;
      assert b1[|prefix|] == k1 && b2[|prefix|] == k2;
    }
  }
}
