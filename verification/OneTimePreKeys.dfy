/**
  One-time pre-keys in memory, on disk and at the relay: the synchronous pieces of `src/sdk/session-manager.ts` and of
  the pre-key handlers of `node/src/index.ts`, for one identity.
 */
module OneTimePreKeys {
  import opened Wrappers
  import opened Crypto

  const OPK_POOL_SIZE := 10
  const OPK_LOW_WATERMARK := 3
  const MAX_OPKS_PER_UPLOAD := 20
  const MAX_OPKS_PER_IDENTITY := 100

  /** Public keys with their private keys. */
  type Pool = map<PublicKey, nat>

  /** `generateOneTimePreKeys`: key pairs nobody has seen. */
  function Generated(unseen: nat, count: nat): seq<PublicKey> {
    seq(count, i requires 0 <= i => PublicKey(unseen + i))
  }

  function Lookup(pool: Pool, key: PublicKey): Option<KeyPair> {
    if key in pool then Some(KeyPair(pool[key], key)) else None
  }

  function Pairs(keys: seq<PublicKey>): Pool {
    map k | k in keys :: k.secret
  }

  lemma PairsNext(pool: Pool, keys: seq<PublicKey>, i: nat)
    requires i < |keys|
    ensures (pool + Pairs(keys[..i]))[keys[i] := keys[i].secret] == pool + Pairs(keys[..i + 1])
  {
    assert keys[..i + 1] == keys[..i] + [keys[i]];
  }

  lemma PairsFirst(pool: Pool, key: PublicKey, keys: seq<PublicKey>)
    ensures pool[key := key.secret] + Pairs(keys) == pool + Pairs([key] + keys)
  {
  }

  lemma PairsOfNone(pool: Pool)
    ensures pool + Pairs([]) == pool
  {
  }

  class OpkPool {
    var opkPool: Pool
    var disk: Pool       // the stored `opks/` entries

    constructor (stored: Pool)
      ensures opkPool == map[] && disk == stored
    {
      opkPool, disk := map[], stored;
    }

    /** The first half of `initOPKPool`. */
    method Load()
      modifies this`opkPool
      ensures opkPool == old(opkPool) + disk
    {
      var todo := disk.Keys;
      while todo != {}
        invariant todo <= disk.Keys
        invariant opkPool == old(opkPool) + map k | k in disk.Keys - todo :: disk[k]
        decreases todo
      {
        var k :| k in todo;
        opkPool := opkPool[k := disk[k]];
        todo := todo - {k};
      }
    }

    /** A generated pair enters memory before it is stored: from now on an `x3dh_init` naming it finds it. */
    method Hold(key: PublicKey)
      modifies this`opkPool
      ensures opkPool == old(opkPool)[key := key.secret]
      ensures Lookup(opkPool, key) == Some(KeyPairOf(key.secret))
      ensures forall k | k != key :: Lookup(opkPool, k) == Lookup(old(opkPool), k)
    {
      opkPool := opkPool[key := key.secret];
    }

    method Save(key: PublicKey)
      modifies this`disk
      ensures disk == old(disk)[key := key.secret]
    {
      disk := disk[key := key.secret];
    }

    /** The loop of a refill that nothing interrupts: each pair enters memory, then the disk. */
    method PersistAll(keys: seq<PublicKey>)
      modifies this
      ensures opkPool == old(opkPool) + Pairs(keys)
      ensures disk == old(disk) + Pairs(keys)
    {
      hide Pairs;
      PairsOfNone(opkPool);
      PairsOfNone(disk);
      assert keys[..0] == [];
      var i := 0;
      while i < |keys|
        invariant 0 <= i <= |keys|
        invariant opkPool == old(opkPool) + Pairs(keys[..i])
        invariant disk == old(disk) + Pairs(keys[..i])
      {
        PairsNext(old(opkPool), keys, i);
        PairsNext(old(disk), keys, i);
        Hold(keys[i]);
        Save(keys[i]);
        i := i + 1;
      }
      assert keys[..i] == keys;
    }

    /** The look-up of `completeIncomingHandshake`: a key leaves memory at once and the disk later. */
    method Take(key: PublicKey) returns (pair: Option<KeyPair>)
      modifies this`opkPool
      ensures pair == Lookup(old(opkPool), key) && opkPool == old(opkPool) - {key}
    {
      pair := None;
      if key in opkPool {
        pair := Some(KeyPair(opkPool[key], key));
        opkPool := opkPool - {key};
      }
    }
  }

  // ---- The relay ----

  function InsertOrIgnore(opks: seq<PublicKey>, batch: seq<PublicKey>): seq<PublicKey> {
    if batch == [] then opks else
    var rest, key := InsertOrIgnore(opks, batch[..|batch| - 1]), batch[|batch| - 1];
    if key in rest then rest else rest + [key]
  }

  function Min(a: int, b: int): int {
    if a < b then a else b
  }

  function ToStore(opks: seq<PublicKey>, batch: seq<PublicKey>): seq<PublicKey> {
    var first := batch[..Min(|batch|, MAX_OPKS_PER_UPLOAD)];
    var canStore := if |opks| < MAX_OPKS_PER_IDENTITY then MAX_OPKS_PER_IDENTITY - |opks| else 0;
    first[..Min(|first|, canStore)]
  }

  function Without(opks: seq<PublicKey>, row: nat): seq<PublicKey>
    requires row < |opks|
  {
    opks[..row] + opks[row + 1..]
  }

  /** One identity's rows of the `opks` table, oldest first. */
  class OpkDirectory {
    var opks: seq<PublicKey>

    constructor ()
      ensures opks == []
    {
      opks := [];
    }

    /** `POST /opks` for a non-empty list. */
    method Store(batch: seq<PublicKey>) returns (stored: nat)
      modifies this
      ensures opks == InsertOrIgnore(old(opks), ToStore(old(opks), batch)) && stored == |ToStore(old(opks), batch)|
    {
      var toStore := ToStore(opks, batch);
      var i := 0;
      while i < |toStore|
        invariant 0 <= i <= |toStore|
        invariant opks == InsertOrIgnore(old(opks), toStore[..i])
      {
        assert toStore[..i + 1][..i] == toStore[..i];
        if toStore[i] !in opks {
          opks := opks + [toStore[i]];
        }
        i := i + 1;
      }
      assert toStore[..i] == toStore;
      stored := |toStore|;
    }

    /** `claimOpkTx`: some row is selected and deleted in one transaction; its query orders nothing. */
    method Claim(row: nat) returns (claimed: Option<PublicKey>)
      requires opks != [] ==> row < |opks|
      modifies this
      ensures if old(opks) == [] then claimed == None && opks == []
              else claimed == Some(old(opks)[row]) && opks == Without(old(opks), row)
    {
      if opks == [] {
        claimed := None;
      } else {
        claimed := Some(opks[row]);
        opks := opks[..row] + opks[row + 1..];
      }
    }
  }

  /** An upload adds keys of the batch only, each at most once, keeps the older rows, and respects the cap. */
  lemma {:induction false} StoreAdds(opks: seq<PublicKey>, batch: seq<PublicKey>)
    ensures var after := InsertOrIgnore(opks, batch);
            && opks <= after
            && |after| <= |opks| + |batch|
            && multiset(after) <= multiset(opks) + multiset(batch)
            && (forall k <- batch :: k in after)
            && (forall k :: multiset(after)[k] ==
                  if k in opks then multiset(opks)[k] else if k in batch then 1 else 0)
  {
    if batch == [] {
    } else {
      var front, key := batch[..|batch| - 1], batch[|batch| - 1];
      StoreAdds(opks, front);
      assert batch == front + [key];
    }
  }

  /** What an upload stores of a batch is its longest prefix within both caps. */
  lemma StoresLongestPrefix(opks: seq<PublicKey>, batch: seq<PublicKey>)
    ensures var kept := ToStore(opks, batch);
            && kept <= batch
            && |kept| <= 20 && (kept != [] ==> |opks| + |kept| <= 100)
            && (kept != batch ==> |kept| == 20 || |opks| + |kept| >= 100)
  {
  }

  lemma RelayStaysBounded(opks: seq<PublicKey>, batch: seq<PublicKey>)
    requires |opks| <= MAX_OPKS_PER_IDENTITY
    ensures |InsertOrIgnore(opks, ToStore(opks, batch))| <= MAX_OPKS_PER_IDENTITY
    ensures |batch| <= MAX_OPKS_PER_UPLOAD && |opks| + |batch| <= MAX_OPKS_PER_IDENTITY ==>
              forall k <- batch :: k in InsertOrIgnore(opks, ToStore(opks, batch))
  {
    StoreAdds(opks, ToStore(opks, batch));
  }
}
