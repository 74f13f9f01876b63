/** Packet forwarding between relays, `FederationManager` in `node/src/federation.ts`. */
module Federation {
  import opened Wrappers
  import opened Gossip
  import opened Onion

  const MAX_PENDING_FORWARDS: nat := 64
  const MAX_FRAME_BODY: nat := 8192

  /** The bounds an operator may set. */
  datatype Limits = Limits(maxHops: nat, maxTransitHops: nat)

  datatype Wire =
    | FloodFrame(id: nat, forwardCount: nat, packet: Buffer)
    | RoutedFrame(hops: nat, target: Relay, packet: Buffer)
    | OnionFrame(blob: Buffer)

  /** A forward queued while its peer is being dialed. */
  datatype Pending =
    | PendingPacket(packet: Buffer)
    | PendingRouted(target: Relay, packet: Buffer, hops: nat)
    | PendingOnion(blob: Buffer)

  /** `open`: the handshake is done and the socket accepts frames. */
  datatype Peer = Peer(open: bool, url: Option<string>, pending: seq<Pending>)

  type Peers = map<Relay, Peer>

  datatype LocalOutcome = Delivered | Stored | Unknown

  /** What forwarding one packet comes to: at most one frame, or one entry queued behind a dial. */
  datatype Action = Drop | Send(to: Relay, frame: Wire) | Queue(to: Relay, endpoint: string, entry: Pending)

  /** The part of a relay's state that forwarding reads. */
  datatype Routing = Routing(self: Relay, limits: Limits, noDial: bool, onionTransit: bool, peers: Peers, book: Book)

  predicate IsOpen(peers: Peers, relay: Relay) {
    relay in peers && peers[relay].open
  }

  predicate Dialable(m: Routing, relay: Relay) {
    !m.noDial && relay in m.book && m.book[relay].endpoint.Some?
  }

  function HexDigit(n: int): char {
    if 0 <= n < 10 then "0123456789"[n] else if 10 <= n < 16 then "abcdef"[n - 10] else '?'
  }

  function Hex(b: Buffer): Relay {
    if b == [] then [] else
    (match b[0]
     case Byte(v) => [HexDigit(v / 16), HexDigit(v % 16)]
     case BoxCell(_, _, _, _) => "??") + Hex(b[1..])
  }

  /** `sendOnionTo`. */
  function OnionAction(m: Routing, next: Relay, blob: Buffer): Action {
    if IsOpen(m.peers, next) then Send(next, OnionFrame(blob))
    else if Dialable(m, next) then Queue(next, m.book[next].endpoint.value, PendingOnion(blob))
    else Drop
  }

  /** The first usable transit anchor: connected, or else dialable. */
  function TransitAction(m: Routing, via: seq<Relay>, target: Relay, packet: Buffer, hops: nat): Action {
    if via == [] then Drop
    else if via[0] != m.self && IsOpen(m.peers, via[0]) then Send(via[0], RoutedFrame(hops + 1, target, packet))
    else if via[0] != m.self && Dialable(m, via[0]) then
      Queue(via[0], m.book[via[0]].endpoint.value, PendingRouted(target, packet, hops + 1))
    else TransitAction(m, via[1..], target, packet, hops)
  }

  /** The onion for a chosen path, if the path is usable and the onion fits a frame. */
  function PathOnion(m: Routing, path: Option<seq<OnionHop>>, packet: Buffer, seeds: seq<nat>): Action
    requires path.Some? ==> |path.value| <= |seeds|
  {
    if !m.onionTransit || path.None? || |path.value| < 2 then Drop else
    var onion := Layered(path.value, packet, seeds, 0);
    if |onion| > MAX_FRAME_BODY then Drop else OnionAction(m, Hex(path.value[0].pubkey), onion)
  }

  /** `forwardToRelay`: direct, else an on-demand dial, else an onion, else cleartext transit. `path` is what
      `selectOnionPath` chose and `id` the packet id a direct forward would draw. */
  function ForwardAction(m: Routing, target: Relay, packet: Buffer, hops: nat, path: Option<seq<OnionHop>>,
                         seeds: seq<nat>, id: nat): Action
    requires path.Some? ==> |path.value| <= |seeds|
  {
    if |packet| > MAX_FRAME_BODY - 33 || target == m.self then Drop
    else if IsOpen(m.peers, target) then Send(target, FloodFrame(id, 0, packet))
    else if hops >= m.limits.maxTransitHops || target !in m.book then Drop
    else if Dialable(m, target) then Queue(target, m.book[target].endpoint.value, PendingPacket(packet))
    else if PathOnion(m, path, packet, seeds) != Drop then PathOnion(m, path, packet, seeds)
    else TransitAction(m, m.book[target].via, target, packet, hops)
  }

  function Enqueued(peers: Peers, relay: Relay, endpoint: string, entry: Pending): Peers {
    var st := if relay in peers then peers[relay] else Peer(false, Some(endpoint), []);
    var pending := st.pending + [entry];
    peers[relay := Peer(st.open,
                        if st.url.Some? then st.url else Some(endpoint),
                        if |pending| > MAX_PENDING_FORWARDS then pending[1..] else pending)]
  }

  function Flushed(id: nat, entry: Pending): Wire {
    match entry
    case PendingPacket(packet) => FloodFrame(id, 0, packet)
    case PendingRouted(target, packet, hops) => RoutedFrame(hops, target, packet)
    case PendingOnion(blob) => OnionFrame(blob)
  }

  function FlushedTo(relay: Relay, ids: seq<nat>, entries: seq<Pending>): seq<(Relay, Wire)>
    requires |ids| >= |entries|
  {
    seq(|entries|, i requires 0 <= i < |entries| => (relay, Flushed(ids[i], entries[i])))
  }

  /** The open peers among the given ones, without the one a packet came from. */
  function FloodTargets(peers: Peers, order: seq<Relay>, exclude: Option<Relay>): seq<Relay> {
    if order == [] then [] else
    var rest := FloodTargets(peers, order[..|order| - 1], exclude);
    var relay := order[|order| - 1];
    if Some(relay) != exclude && IsOpen(peers, relay) then rest + [relay] else rest
  }

  function SentTo(targets: seq<Relay>, frame: Wire): seq<(Relay, Wire)> {
    seq(|targets|, i requires 0 <= i < |targets| => (targets[i], frame))
  }

  class FederationManager {
    const self: Relay
    const limits: Limits
    const noDial: bool
    const onionTransit: bool
    var order: seq<Relay>               // the peer map's insertion order
    var peers: Peers
    var addrBook: Book
    var outbox: seq<(Relay, Wire)>      // frames handed to sockets, oldest first

    constructor (self: Relay, limits: Limits, noDial: bool, onionTransit: bool)
      ensures peers == map[] && order == [] && addrBook == map[] && outbox == []
      ensures State() == Routing(self, limits, noDial, onionTransit, map[], map[])
    {
      this.self, this.limits, this.noDial, this.onionTransit := self, limits, noDial, onionTransit;
      order, peers, addrBook, outbox := [], map[], map[], [];
    }

    function State(): Routing
      reads this`peers, this`addrBook
    {
      Routing(self, limits, noDial, onionTransit, peers, addrBook)
    }

    ghost predicate Did(action: Action, order0: seq<Relay>, peers0: Peers, outbox0: seq<(Relay, Wire)>)
      reads this`order, this`peers, this`outbox
    {
      match action
      case Drop => peers == peers0 && order == order0 && outbox == outbox0
      case Send(to, frame) => peers == peers0 && order == order0 && outbox == outbox0 + [(to, frame)]
      case Queue(to, endpoint, entry) =>
        && peers == Enqueued(peers0, to, endpoint, entry)
        && order == (if to in peers0 then order0 else order0 + [to])
        && outbox == outbox0
    }

    method QueueAndDial(relay: Relay, endpoint: string, entry: Pending)
      modifies this`peers, this`order
      ensures Did(Queue(relay, endpoint, entry), old(order), old(peers), old(outbox))
    {
      if relay !in peers {
        peers := peers[relay := Peer(false, Some(endpoint), [])];
        order := order + [relay];
      } else if peers[relay].url.None? {
        peers := peers[relay := peers[relay].(url := Some(endpoint))];
      }
      peers := peers[relay := peers[relay].(pending := peers[relay].pending + [entry])];
      if |peers[relay].pending| > MAX_PENDING_FORWARDS {
        peers := peers[relay := peers[relay].(pending := peers[relay].pending[1..])];
      }
    }

    method SendOnionTo(next: Relay, blob: Buffer) returns (sent: bool)
      modifies this`peers, this`order, this`outbox
      ensures Did(OnionAction(old(State()), next, blob), old(order), old(peers), old(outbox))
      ensures sent <==> OnionAction(old(State()), next, blob) != Drop
    {
      if next in peers && peers[next].open {
        outbox := outbox + [(next, OnionFrame(blob))];
        return true;
      }
      if noDial {
        return false;
      }
      if next in addrBook && addrBook[next].endpoint.Some? {
        QueueAndDial(next, addrBook[next].endpoint.value, PendingOnion(blob));
        return true;
      }
      return false;
    }

    method ForwardToRelay(target: Relay, packet: Buffer, hops: nat, path: Option<seq<OnionHop>>, seeds: seq<nat>,
                          id: nat)
      returns (sent: bool)
      requires path.Some? ==> |path.value| <= |seeds|
      modifies this`peers, this`order, this`outbox
      ensures var action := ForwardAction(old(State()), target, packet, hops, path, seeds, id);
              Did(action, old(order), old(peers), old(outbox)) && (sent <==> action != Drop)
    {
      if |packet| > MAX_FRAME_BODY - 33 || target == self {
        return false;
      }
      if target in peers && peers[target].open {
        outbox := outbox + [(target, FloodFrame(id, 0, packet))];
        return true;
      }
      if hops >= limits.maxTransitHops || target !in addrBook {
        return false;
      }
      var addr := addrBook[target];
      if addr.endpoint.Some? && !noDial {
        QueueAndDial(target, addr.endpoint.value, PendingPacket(packet));
        return true;
      }
      if onionTransit && path.Some? && |path.value| >= 2 {
        var onion := SealOnion(path.value, packet, seeds);
        if |onion.value| <= MAX_FRAME_BODY {
          var handed := SendOnionTo(Hex(path.value[0].pubkey), onion.value);
          if handed {
            return true;
          }
        }
      }
      sent := ForwardInTransit(addr.via, target, packet, hops);
    }

    /** The transit loop of `forwardToRelay`. */
    method ForwardInTransit(via: seq<Relay>, target: Relay, packet: Buffer, hops: nat) returns (sent: bool)
      modifies this`peers, this`order, this`outbox
      ensures var action := TransitAction(old(State()), via, target, packet, hops);
              Did(action, old(order), old(peers), old(outbox)) && (sent <==> action != Drop)
    {
      var i := 0;
      while i < |via|
        invariant 0 <= i <= |via|
        invariant peers == old(peers) && order == old(order) && outbox == old(outbox)
        invariant TransitAction(old(State()), via, target, packet, hops) ==
                  TransitAction(old(State()), via[i..], target, packet, hops)
      {
        var transit := via[i];
        if transit != self {
          if transit in peers && peers[transit].open {
            outbox := outbox + [(transit, RoutedFrame(hops + 1, target, packet))];
            return true;
          }
          if transit in addrBook && addrBook[transit].endpoint.Some? && !noDial {
            QueueAndDial(transit, addrBook[transit].endpoint.value, PendingRouted(target, packet, hops + 1));
            return true;
          }
        }
        i := i + 1;
      }
      return false;
    }

    method FanOut(id: nat, forwardCount: nat, packet: Buffer, exclude: Option<Relay>)
      modifies this`outbox
      ensures outbox == old(outbox) + SentTo(FloodTargets(peers, order, exclude), FloodFrame(id, forwardCount, packet))
    {
      var frame := FloodFrame(id, forwardCount, packet);
      var i := 0;
      while i < |order|
        invariant 0 <= i <= |order|
        invariant outbox == old(outbox) + SentTo(FloodTargets(peers, order[..i], exclude), frame)
      {
        assert order[..i + 1][..i] == order[..i];
        ghost var targets := FloodTargets(peers, order[..i], exclude);
        if Some(order[i]) != exclude && order[i] in peers && peers[order[i]].open {
          assert SentTo(targets + [order[i]], frame) == SentTo(targets, frame) + [(order[i], frame)];
          outbox := outbox + [(order[i], frame)];
        }
        i := i + 1;
      }
      assert order[..i] == order;
    }

    /** A packet from one of this relay's own clients goes to every open peer. */
    method ForwardFromLocal(id: nat, packet: Buffer)
      modifies this`outbox
      ensures outbox == old(outbox) + if |packet| > MAX_FRAME_BODY - 17 then []
                                      else SentTo(FloodTargets(peers, order, None), FloodFrame(id, 0, packet))
    {
      if |packet| > MAX_FRAME_BODY - 17 {
        return;
      }
      FanOut(id, 0, packet, None);
    }

    /** A flooded frame: `seen` is the dedup cache's answer and `outcome` that of local delivery. */
    method HandleFlood(frame: Wire, from: Relay, seen: bool, outcome: LocalOutcome)
      requires frame.FloodFrame?
      modifies this`outbox
      ensures outbox ==
                old(outbox) + SentTo(FloodOnward(limits, peers, order, frame, from, seen, outcome), Onward(frame))
      ensures seen || frame.forwardCount >= limits.maxHops || outcome != Unknown ==> outbox == old(outbox)
      ensures !seen && frame.forwardCount < limits.maxHops && outcome == Unknown ==>
                && |outbox| == |old(outbox)| + |FloodTargets(peers, order, Some(from))|
                && forall i | |old(outbox)| <= i < |outbox| ::
                     outbox[i] == (FloodTargets(peers, order, Some(from))[i - |old(outbox)|],
                                   FloodFrame(frame.id, frame.forwardCount + 1, frame.packet))
    {
      assert SentTo([], Onward(frame)) == [];
      if seen || frame.forwardCount >= limits.maxHops || outcome != Unknown {
        return;
      }
      FanOut(frame.id, frame.forwardCount + 1, frame.packet, Some(from));
    }

    method HandleRoutedForward(frame: Wire, path: Option<seq<OnionHop>>, seeds: seq<nat>, id: nat)
      requires frame.RoutedFrame? && (path.Some? ==> |path.value| <= |seeds|)
      modifies this`peers, this`order, this`outbox
      ensures Did(RoutedAction(old(State()), frame, path, seeds, id), old(order), old(peers), old(outbox))
    {
      if frame.hops >= limits.maxTransitHops {
        return;
      }
      var _ := ForwardToRelay(frame.target, frame.packet, frame.hops, path, seeds, id);
    }

    method HandleOnion(frame: Wire, privateKey: nat) returns (delivered: Option<Buffer>)
      requires frame.OnionFrame?
      modifies this`peers, this`order, this`outbox
      ensures Did(PeelAction(old(State()), frame, privateKey), old(order), old(peers), old(outbox))
      ensures delivered ==
                match OpenOnion(privateKey, frame.blob) case Some(Deliver(inner)) => Some(inner) case _ => None
    {
      match OpenOnion(privateKey, frame.blob)
      case None => return None;
      case Some(Deliver(inner)) => return Some(inner);
      case Some(Forward(next, inner)) =>
        var _ := SendOnionTo(Hex(next), inner);
        return None;
    }

    /** Once a dialed peer is up, its queue is sent out in order. */
    method FlushPending(relay: Relay, ids: seq<nat>)
      requires relay in peers && |ids| >= |peers[relay].pending|
      modifies this`peers, this`outbox
      ensures peers == old(peers)[relay := old(peers)[relay].(pending := [])]
      ensures outbox == old(outbox) + FlushedTo(relay, ids, old(peers)[relay].pending)
      ensures |outbox| == |old(outbox)| + |old(peers)[relay].pending|
      ensures forall i | 0 <= i < |old(peers)[relay].pending| ::
                outbox[|old(outbox)| + i] == (relay, Flushed(ids[i], old(peers)[relay].pending[i]))
    {
      var queued := peers[relay].pending;
      peers := peers[relay := peers[relay].(pending := [])];
      var i := 0;
      while i < |queued|
        invariant 0 <= i <= |queued|
        invariant peers == old(peers)[relay := old(peers)[relay].(pending := [])]
        invariant outbox == old(outbox) + FlushedTo(relay, ids, queued[..i])
      {
        assert FlushedTo(relay, ids, queued[..i + 1]) ==
               FlushedTo(relay, ids, queued[..i]) + [(relay, Flushed(ids[i], queued[i]))];
        outbox := outbox + [(relay, Flushed(ids[i], queued[i]))];
        i := i + 1;
      }
      assert queued[..i] == queued;
    }
  }

  function Onward(frame: Wire): Wire
    requires frame.FloodFrame?
  {
    frame.(forwardCount := frame.forwardCount + 1)
  }

  /** The peers a flooded frame goes on to. */
  function FloodOnward(limits: Limits, peers: Peers, order: seq<Relay>, frame: Wire, from: Relay, seen: bool,
                       outcome: LocalOutcome): seq<Relay>
    requires frame.FloodFrame?
  {
    if seen || frame.forwardCount >= limits.maxHops || outcome != Unknown then []
    else FloodTargets(peers, order, Some(from))
  }

  function RoutedAction(m: Routing, frame: Wire, path: Option<seq<OnionHop>>, seeds: seq<nat>, id: nat): Action
    requires frame.RoutedFrame? && (path.Some? ==> |path.value| <= |seeds|)
  {
    if frame.hops >= m.limits.maxTransitHops then Drop
    else ForwardAction(m, frame.target, frame.packet, frame.hops, path, seeds, id)
  }

  function PeelAction(m: Routing, frame: Wire, privateKey: nat): Action
    requires frame.OnionFrame?
  {
    match OpenOnion(privateKey, frame.blob)
    case Some(Forward(next, inner)) => OnionAction(m, Hex(next), inner)
    case _ => Drop
  }

  // ---- What the choices mean ----

  predicate Usable(m: Routing, relay: Relay) {
    relay != m.self && (IsOpen(m.peers, relay) || Dialable(m, relay))
  }

  /** Transit goes through the first usable anchor, over its link if there is one, and fails only without any. */
  lemma {:induction false} TransitTakesFirst(m: Routing, via: seq<Relay>, target: Relay, packet: Buffer, hops: nat,
                                             i: nat)
    requires i < |via| && Usable(m, via[i]) && forall j | 0 <= j < i :: !Usable(m, via[j])
    ensures TransitAction(m, via, target, packet, hops) ==
              if IsOpen(m.peers, via[i]) then Send(via[i], RoutedFrame(hops + 1, target, packet))
              else Queue(via[i], m.book[via[i]].endpoint.value, PendingRouted(target, packet, hops + 1))
  {
    if i == 0 {
    } else {
      assert !Usable(m, via[0]);
      forall j | 0 <= j < i - 1 ensures !Usable(m, via[1..][j]) {
        assert via[1..][j] == via[j + 1];
      }
      TransitTakesFirst(m, via[1..], target, packet, hops, i - 1);
    }
  }

  lemma {:induction false} TransitFails(m: Routing, via: seq<Relay>, target: Relay, packet: Buffer, hops: nat)
    ensures TransitAction(m, via, target, packet, hops) == Drop <==> forall v <- via :: !Usable(m, v)
  {
    if via == [] {
    } else {
      var rest := via[1..];
      TransitFails(m, rest, target, packet, hops);
      assert via[0] in via && forall v <- rest :: v in via;
      if !Usable(m, via[0]) && forall v <- rest :: !Usable(m, v) {
        forall v <- via ensures !Usable(m, v) {
          assert v == via[0] || v in rest;
        }
      }
    }
  }

  /**
    A packet that fits is given up only when nothing can carry it: no link to its relay and, within the hop limit, no
    address, no onion that can leave, and no usable anchor.
   */
  lemma ForwardGivesUpOnlyWhenStuck(m: Routing, target: Relay, packet: Buffer, hops: nat, path: Option<seq<OnionHop>>,
                                    seeds: seq<nat>, id: nat)
    requires path.Some? ==> |path.value| <= |seeds|
    ensures ForwardAction(m, target, packet, hops, path, seeds, id) == Drop <==>
              || |packet| > MAX_FRAME_BODY - 33
              || target == m.self
              || (!IsOpen(m.peers, target) &&
                  (|| hops >= m.limits.maxTransitHops
                   || target !in m.book
                   || (!Dialable(m, target) && PathOnion(m, path, packet, seeds) == Drop &&
                       forall v <- m.book[target].via :: !Usable(m, v))))
  {
    hide Layered, TransitAction, PathOnion;
    if target in m.book {
      TransitFails(m, m.book[target].via, target, packet, hops);
    }
  }

  /** Each target is sent the same frame. */
  lemma SentToEach(targets: seq<Relay>, frame: Wire, i: nat)
    requires i < |targets|
    ensures |SentTo(targets, frame)| == |targets| && SentTo(targets, frame)[i] == (targets[i], frame)
  {
  }

  /** A fan-out reaches exactly the open peers other than the excluded one, each once. */
  lemma {:induction false} FanOutReachesEachOnce(peers: Peers, order: seq<Relay>, exclude: Option<Relay>, r: Relay)
    ensures multiset(FloodTargets(peers, order, exclude))[r] ==
              if IsOpen(peers, r) && Some(r) != exclude then multiset(order)[r] else 0
  {
    if order == [] {
    } else {
      FanOutReachesEachOnce(peers, order[..|order| - 1], exclude, r);
      assert order == order[..|order| - 1] + [order[|order| - 1]];
    }
  }

  /** A queue keeps the newest entries in order, the new one last, and only ever drops its oldest one. */
  lemma QueueKeepsNewest(peers: Peers, relay: Relay, endpoint: string, entry: Pending, other: Relay)
    requires relay in peers ==> |peers[relay].pending| <= MAX_PENDING_FORWARDS
    ensures var after := Enqueued(peers, relay, endpoint, entry);
            var before := if relay in peers then peers[relay].pending else [];
            && relay in after && after[relay].url.Some?
            && |after[relay].pending| <= MAX_PENDING_FORWARDS
            && after[relay].pending == (if |before| < MAX_PENDING_FORWARDS then before else before[1..]) + [entry]
            && (relay in peers && peers[relay].url.Some? ==> after[relay].url == peers[relay].url)
            && (other != relay && other in after ==> other in peers && after[other] == peers[other])
            && (other in peers ==> other in after)
  {
  }
}
