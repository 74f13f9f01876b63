/**
  Onion layers, `node/src/onion.ts`. A buffer is a sequence of cells: plain bytes, or the cells of
  a sealed box, which say what was sealed to whom. All offsets and lengths are the source's own.
 */
module Onion {
  import opened Wrappers

  datatype Cell = Byte(value: int) | BoxCell(recipient: nat, seed: nat, plaintext: seq<Cell>, at: nat)

  type Buffer = seq<Cell>

  const EPH_LEN: nat := 32
  const IV_LEN: nat := 12
  const TAG_LEN: nat := 16
  const LAYER_OVERHEAD: nat := EPH_LEN + IV_LEN + TAG_LEN

  const T_FORWARD := 0
  const T_DELIVER := 1

  /** A relay's 32-byte federation key and the onion key its layer is sealed to. */
  datatype OnionHop = OnionHop(pubkey: Buffer, onionKey: nat)

  datatype OnionResult = Forward(next: Buffer, inner: Buffer) | Deliver(inner: Buffer)

  /** An anonymous sealed box: ephemeral key, IV, tag and ciphertext; `seed` is its randomness. */
  function Seal(recipient: nat, seed: nat, plaintext: Buffer): Buffer {
    seq(LAYER_OVERHEAD + |plaintext|, i requires 0 <= i => BoxCell(recipient, seed, plaintext, i))
  }

  /** Authenticated decryption: whole boxes open, under their recipient's key only. */
  function Unseal(privateKey: nat, blob: Buffer): Option<Buffer> {
    if blob != [] && blob[0].BoxCell? && blob[0].recipient == privateKey
       && blob == Seal(privateKey, blob[0].seed, blob[0].plaintext)
    then Some(blob[0].plaintext) else None
  }

  /** The onion for `hops[from..]`. */
  function Layered(hops: seq<OnionHop>, packet: Buffer, seeds: seq<nat>, from: nat): Buffer
    requires from < |hops| <= |seeds|
    decreases |hops| - from
  {
    if from == |hops| - 1 then Seal(hops[from].onionKey, seeds[from], [Byte(T_DELIVER)] + packet)
    else Seal(hops[from].onionKey, seeds[from],
              [Byte(T_FORWARD)] + hops[from + 1].pubkey + Layered(hops, packet, seeds, from + 1))
  }

  method SealOnion(hops: seq<OnionHop>, packet: Buffer, seeds: seq<nat>) returns (r: Result<Buffer, string>)
    requires |hops| <= |seeds|
    ensures r.Success? <==> hops != []
    ensures r.Success? ==> r.value == Layered(hops, packet, seeds, 0)
  {
    if |hops| == 0 {
      return Failure("onion path is empty");
    }
    var last := |hops| - 1;
    var blob := Seal(hops[last].onionKey, seeds[last], [Byte(T_DELIVER)] + packet);
    var i: int := last - 1;
    while i >= 0
      invariant -1 <= i < last
      invariant blob == Layered(hops, packet, seeds, i + 1)
    {
      blob := Seal(hops[i].onionKey, seeds[i], [Byte(T_FORWARD)] + hops[i + 1].pubkey + blob);
      i := i - 1;
    }
    return Success(blob);
  }

  function OpenOnion(privateKey: nat, blob: Buffer): Option<OnionResult> {
    if |blob| < LAYER_OVERHEAD + 1 then None else
    match Unseal(privateKey, blob)
    case None => None
    case Some(pt) =>
      if |pt| < 1 then None
      else if pt[0] == Byte(T_DELIVER) then Some(Deliver(pt[1..]))
      else if pt[0] == Byte(T_FORWARD) && |pt| >= 33 then Some(Forward(pt[1..33], pt[33..]))
      else None
  }

  lemma SealedLength(recipient: nat, seed: nat, plaintext: Buffer)
    ensures |Seal(recipient, seed, plaintext)| == 60 + |plaintext|
    ensures Seal(recipient, seed, plaintext)[0] == BoxCell(recipient, seed, plaintext, 0)
  {
  }

  /** Whatever it is given, a peel strictly shrinks: by a forwarding header of 93 cells, or by 61. */
  lemma PeelShrinks(privateKey: nat, blob: Buffer)
    ensures match OpenOnion(privateKey, blob)
            case None => true
            case Some(Forward(next, inner)) => |next| == 32 && |inner| + 93 == |blob|
            case Some(Deliver(inner)) => |inner| + 61 == |blob|
  {
    if blob != [] && blob[0].BoxCell? {
      SealedLength(privateKey, blob[0].seed, blob[0].plaintext);
    }
  }

  ghost predicate PathOk(hops: seq<OnionHop>) {
    hops != [] && forall i | 0 <= i < |hops| :: |hops[i].pubkey| == 32
  }

  lemma {:induction false} LayeredLength(hops: seq<OnionHop>, packet: Buffer, seeds: seq<nat>, from: nat)
    requires PathOk(hops) && from < |hops| <= |seeds|
    ensures |Layered(hops, packet, seeds, from)| == |packet| + 93 * (|hops| - from) - 32
    decreases |hops| - from
  {
    if from == |hops| - 1 {
      SealedLength(hops[from].onionKey, seeds[from], [Byte(T_DELIVER)] + packet);
    } else {
      LayeredLength(hops, packet, seeds, from + 1);
      SealedLength(hops[from].onionKey, seeds[from],
                   [Byte(T_FORWARD)] + hops[from + 1].pubkey + Layered(hops, packet, seeds, from + 1));
    }
  }

  /** A hop's own key opens its layer, to the next hop and the onion for it, or at the last hop to the packet. */
  lemma PeelOneLayer(hops: seq<OnionHop>, packet: Buffer, seeds: seq<nat>, at: nat)
    requires PathOk(hops) && at < |hops| <= |seeds|
    ensures OpenOnion(hops[at].onionKey, Layered(hops, packet, seeds, at)) ==
            Some(if at == |hops| - 1 then Deliver(packet)
                 else Forward(hops[at + 1].pubkey, Layered(hops, packet, seeds, at + 1)))
    ensures forall key | key != hops[at].onionKey :: OpenOnion(key, Layered(hops, packet, seeds, at)).None?
  {
    if at == |hops| - 1 {
      var pt := [Byte(T_DELIVER)] + packet;
      SealedLength(hops[at].onionKey, seeds[at], pt);
      assert pt[1..] == packet;
    } else {
      var inner := Layered(hops, packet, seeds, at + 1);
      var pt := [Byte(T_FORWARD)] + hops[at + 1].pubkey + inner;
      SealedLength(hops[at].onionKey, seeds[at], pt);
      LayeredLength(hops, packet, seeds, at + 1);
      assert pt[1..33] == hops[at + 1].pubkey && pt[33..] == inner;
    }
  }

  /** What relays see of a blob: each peels with its own onion key and hands the rest to the relay named. */
  datatype Journey = Journey(visited: seq<Buffer>, delivered: Option<Buffer>)

  /** `keyOf` gives each relay's onion key, by federation key. */
  function Travel(keyOf: Buffer -> nat, relay: Buffer, blob: Buffer): Journey
    decreases |blob|
  {
    PeelShrinks(keyOf(relay), blob);
    match OpenOnion(keyOf(relay), blob)
    case None => Journey([relay], None)
    case Some(Deliver(inner)) => Journey([relay], Some(inner))
    case Some(Forward(next, inner)) =>
      var rest := Travel(keyOf, next, inner);
      Journey([relay] + rest.visited, rest.delivered)
  }

  function Pubkeys(hops: seq<OnionHop>): seq<Buffer> {
    seq(|hops|, i requires 0 <= i < |hops| => hops[i].pubkey)
  }

  lemma {:induction false} TravelFrom(keyOf: Buffer -> nat, hops: seq<OnionHop>, packet: Buffer, seeds: seq<nat>,
                                      from: nat)
    requires PathOk(hops) && from < |hops| <= |seeds|
    requires forall i | 0 <= i < |hops| :: keyOf(hops[i].pubkey) == hops[i].onionKey
    ensures Travel(keyOf, hops[from].pubkey, Layered(hops, packet, seeds, from)) ==
            Journey(Pubkeys(hops)[from..], Some(packet))
    decreases |hops| - from
  {
    PeelOneLayer(hops, packet, seeds, from);
    if from < |hops| - 1 {
      TravelFrom(keyOf, hops, packet, seeds, from + 1);
      assert Pubkeys(hops)[from..] == [hops[from].pubkey] + Pubkeys(hops)[from + 1..];
    } else {
      assert Pubkeys(hops)[from..] == [hops[from].pubkey];
    }
  }

  /** Handed to its first hop, an onion visits exactly its path and yields the packet at the end of it;
      k hops cost 93k - 32 bytes, so every later frame fits whenever the first did. */
  lemma OnionFollowsItsPath(keyOf: Buffer -> nat, hops: seq<OnionHop>, packet: Buffer, seeds: seq<nat>)
    requires PathOk(hops) && |hops| <= |seeds|
    requires forall i | 0 <= i < |hops| :: keyOf(hops[i].pubkey) == hops[i].onionKey
    ensures Travel(keyOf, hops[0].pubkey, Layered(hops, packet, seeds, 0)) == Journey(Pubkeys(hops), Some(packet))
    ensures |Layered(hops, packet, seeds, 0)| == |packet| + 93 * |hops| - 32
    ensures forall i | 0 < i < |hops| :: |Layered(hops, packet, seeds, i)| < |Layered(hops, packet, seeds, i - 1)|
  {
    TravelFrom(keyOf, hops, packet, seeds, 0);
    forall i | 0 <= i < |hops| ensures |Layered(hops, packet, seeds, i)| == |packet| + 93 * (|hops| - i) - 32 {
      LayeredLength(hops, packet, seeds, i);
    }
  }
}
