/** The gossiped address book of `node/src/federation.ts`: self-signed relay records, newest wins. */
module Gossip {
  import opened Wrappers

  type Relay = string   // a relay's federation public key, in hex

  const MAX_VIA_ANCHORS := 16

  /** A record as its owner signed it. `via` is empty and the options are `None` where the JSON leaves the field out. */
  datatype AddrRecord = AddrRecord(
    pubkey: Relay, endpoint: Option<string>, via: seq<Relay>, onionKey: Option<string>, ts: nat, sig: Signature)

  /** An Ed25519 signature, symbolically: the signer and what was signed. */
  datatype Signature = Signature(
    signer: Relay, endpoint: Option<string>, via: multiset<Relay>, onionKey: Option<string>, ts: nat)

  type Book = map<Relay, AddrRecord>
  type Frame = seq<AddrRecord>

  function Digits(n: nat): nat {
    if n < 10 then 1 else 1 + Digits(n / 10)
  }

  /** `Number.isFinite`: no finite number has more digits before its decimal point. */
  const MAX_NUMBER_DIGITS: nat := 309

  predicate IsHex(s: string, length: nat) {
    |s| == length && forall c <- s :: '0' <= c <= '9' || 'a' <= c <= 'f'
  }

  /** The signed bytes sort `via`, so its order is not signed. */
  function Sign(signer: Relay, r: AddrRecord): Signature {
    Signature(signer, r.endpoint, multiset(r.via), r.onionKey, r.ts)
  }

  /** The format checks and the signature check of `handleAddrGossip`. */
  predicate WellFormed(r: AddrRecord) {
    && IsHex(r.pubkey, 64)
    && (r.endpoint.Some? ==> ("ws://" <= r.endpoint.value || "wss://" <= r.endpoint.value) && |r.endpoint.value| <= 256)
    && |r.via| <= MAX_VIA_ANCHORS
    && (forall v <- r.via :: IsHex(v, 64))
    && (r.endpoint.Some? || r.via != [])
    && (r.onionKey.Some? ==> IsHex(r.onionKey.value, 64))
    && Digits(r.ts) <= MAX_NUMBER_DIGITS
    && r.sig == Sign(r.pubkey, r)
  }

  /** The book knows the record's owner by a record at least as new. */
  predicate Holds(book: Book, r: AddrRecord) {
    r.pubkey in book && book[r.pubkey].ts >= r.ts
  }

  predicate Accepts(self: Relay, book: Book, r: AddrRecord) {
    WellFormed(r) && r.pubkey != self && !Holds(book, r)
  }

  /** Ingesting a frame, record by record: the new book and the records that changed it. */
  function Merge(self: Relay, book: Book, frame: Frame): (Book, Frame) {
    if frame == [] then (book, []) else
    var (merged, changed) := Merge(self, book, frame[..|frame| - 1]);
    var r := frame[|frame| - 1];
    if Accepts(self, merged, r) then (merged[r.pubkey := r], changed + [r]) else (merged, changed)
  }

  class AddrBook {
    const self: Relay
    var records: Book

    constructor (self: Relay, own: Option<AddrRecord>)
      ensures this.self == self
      ensures records == if own.Some? then map[self := own.value] else map[]
    {
      this.self := self;
      records := if own.Some? then map[self := own.value] else map[];
    }

    /** The verification loop of `handleAddrGossip`; `changed` is what it re-gossips. */
    method Ingest(frame: Frame) returns (changed: Frame)
      modifies this`records
      ensures (records, changed) == Merge(self, old(records), frame)
      ensures forall k <- records :: Get(old(records), k) == Some(records[k]) || records[k].sig == Sign(k, records[k])
      ensures forall r <- changed :: r.sig == Sign(r.pubkey, r)
    {
      changed := [];
      var i := 0;
      while i < |frame|
        invariant 0 <= i <= |frame|
        invariant (records, changed) == Merge(self, old(records), frame[..i])
      {
        var r := frame[i];
        assert frame[..i + 1][..i] == frame[..i];
        if WellFormed(r) && r.pubkey != self {
          if !(r.pubkey in records && records[r.pubkey].ts >= r.ts) {
            records := records[r.pubkey := r];
            changed := changed + [r];
          }
        }
        i := i + 1;
      }
      assert frame[..i] == frame;
      MergeAdmitsOnlySigned(self, old(records), frame);
      MergeTakesNewest(self, old(records), frame);
    }
  }

  function Get(book: Book, k: Relay): Option<AddrRecord> {
    if k in book then Some(book[k]) else None
  }

  /**
    Whatever a frame holds, every record that enters the book or is passed on came with it, carries its owner's
    signature over exactly its fields, keeps to the format limits and offers a way to reach its owner.
   */
  lemma {:induction false} MergeAdmitsOnlySigned(self: Relay, book: Book, frame: Frame)
    ensures var (merged, changed) := Merge(self, book, frame);
            && (forall k <- merged :: Get(book, k) == Some(merged[k]) || merged[k] in changed)
            && (forall r <- changed ::
                  && r in frame
                  && r.sig == Signature(r.pubkey, r.endpoint, multiset(r.via), r.onionKey, r.ts)
                  && IsHex(r.pubkey, 64) && |r.via| <= 16 && (forall v <- r.via :: IsHex(v, 64))
                  && (r.onionKey.Some? ==> IsHex(r.onionKey.value, 64))
                  && (r.endpoint.Some? ==>
                        |r.endpoint.value| <= 256 && ("ws://" <= r.endpoint.value || "wss://" <= r.endpoint.value))
                  && (r.endpoint.None? ==> r.via != []))
  {
    if frame == [] {
    } else {
      MergeAdmitsOnlySigned(self, book, frame[..|frame| - 1]);
      assert frame == frame[..|frame| - 1] + [frame[|frame| - 1]];
      hide IsHex;
    }
  }

  lemma {:induction false} ChangedAreWellFormed(self: Relay, book: Book, frame: Frame)
    ensures forall r <- Merge(self, book, frame).1 :: WellFormed(r)
  {
    hide WellFormed;
    if frame == [] {
    } else {
      ChangedAreWellFormed(self, book, frame[..|frame| - 1]);
    }
  }

  /**
    Merging keeps the newest record per owner, from the frame or from before; only strictly newer records change it.
   */
  lemma {:induction false} MergeTakesNewest(self: Relay, book: Book, frame: Frame)
    ensures var (merged, changed) := Merge(self, book, frame);
            && (forall k <- book :: k in merged && merged[k].ts >= book[k].ts)
            && (forall r <- frame :: WellFormed(r) && r.pubkey != self ==> Holds(merged, r))
            && (forall k <- merged ::
                  (k in book && merged[k] == book[k]) || (merged[k] in changed && merged[k].pubkey == k))
            && (forall r <- changed :: r in frame && r.pubkey != self && Holds(merged, r) && !Holds(book, r))
  {
    if frame == [] {
    } else {
      MergeTakesNewest(self, book, frame[..|frame| - 1]);
    }
  }
}
