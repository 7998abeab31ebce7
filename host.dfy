/**
 * The storage host the map sits on: one flat, byte-keyed store shared by every
 * collection of a contract, reached through the `env::storage_*` host calls.
 * The host is modelled by its interface only: a map from lookup key to stored
 * bytes, plus ghost counters of the storage calls made, since every host call
 * is charged for and keeping their number down is the map's reason to exist.
 * Calls to the hasher are not counted.
 */
module Host {
  import opened Wrappers

  newtype byte = b: int | 0 <= b < 256

  type Bytes = seq<byte>

  /** Width of a lookup key (`LookupKey = [u8; 32]`). */
  const DIGEST_LEN: nat := 32

  type Digest = d: Bytes | |d| == DIGEST_LEN witness seq(DIGEST_LEN, _ => 0)

  /** How many storage calls of each kind have been made. */
  datatype IoCounts = IoCounts(readOps: nat, writeOps: nat, removeOps: nat, hasKeyOps: nat) {
    function Plus(r: nat, w: nat, rm: nat, h: nat): IoCounts {
      IoCounts(readOps + r, writeOps + w, removeOps + rm, hasKeyOps + h)
    }
  }

  class Storage {
    var data: map<Digest, Bytes>
    ghost var io: IoCounts

    /** An empty store on which no call has been made yet. */
    constructor ()
      ensures data == map[] && io == IoCounts(0, 0, 0, 0)
    {
      data := map[];
      io := IoCounts(0, 0, 0, 0);
    }

    /** `env::storage_read`: the stored bytes, if any. */
    method Read(key: Digest) returns (r: Option<Bytes>)
      modifies this
      ensures data == old(data)
      ensures r.Some? <==> key in data
      ensures r.Some? ==> r.value == data[key]
      ensures io == old(io).Plus(1, 0, 0, 0)
    {
      r := if key in data then Some(data[key]) else None;
      io := io.Plus(1, 0, 0, 0);
    }

    /** `env::storage_write`: stores `value` under `key`. */
    method Write(key: Digest, value: Bytes)
      modifies this
      ensures data == old(data)[key := value]
      ensures io == old(io).Plus(0, 1, 0, 0)
    {
      data := data[key := value];
      io := io.Plus(0, 1, 0, 0);
    }

    /** `env::storage_remove`: deletes whatever is stored under `key`. */
    method Remove(key: Digest)
      modifies this
      ensures data == old(data) - {key}
      ensures io == old(io).Plus(0, 0, 1, 0)
    {
      data := data - {key};
      io := io.Plus(0, 0, 1, 0);
    }

    /** `env::storage_has_key`: an existence check that reads no value. */
    method HasKey(key: Digest) returns (b: bool)
      modifies this
      ensures data == old(data)
      ensures b <==> key in data
      ensures io == old(io).Plus(0, 0, 0, 1)
    {
      b := key in data;
      io := io.Plus(0, 0, 0, 1);
    }
  }
}
