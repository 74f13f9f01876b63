/**
  What forwarding achieves for a packet: by which means it leaves a relay, that a queued forward leaves as it would have
  over an open link, and that the relays on its way bring it to the one it is meant for.
 */
module ForwardLaws {
  import opened Wrappers
  import opened Gossip
  import opened Onion
  import opened Federation
  import Bridge

  // ---- Relay names ----

  predicate IsBytes(b: Buffer) {
    forall c <- b :: c.Byte? && 0 <= c.value < 256
  }

  function HexValue(c: char): int {
    if '0' <= c <= '9' then c as int - '0' as int else c as int - 'a' as int + 10
  }

  function Unhex(s: Relay): Buffer {
    if |s| < 2 then [] else [Byte(16 * HexValue(s[0]) + HexValue(s[1]))] + Unhex(s[2..])
  }

  lemma HexDigitValue(n: int)
    requires 0 <= n < 16
    ensures HexValue(HexDigit(n)) == n && ('0' <= HexDigit(n) <= '9' || 'a' <= HexDigit(n) <= 'f')
  {
  }

  lemma UnhexNext(high: char, low: char, rest: Relay)
    ensures Unhex([high, low] + rest) == [Byte(16 * HexValue(high) + HexValue(low))] + Unhex(rest)
  {
    assert ([high, low] + rest)[2..] == rest;
  }

  lemma HexNext(b: Buffer)
    requires b != [] && IsBytes(b)
    ensures b[0].Byte? && 0 <= b[0].value < 256 && IsBytes(b[1..])
    ensures Hex(b) == [HexDigit(b[0].value / 16), HexDigit(b[0].value % 16)] + Hex(b[1..])
  {
    assert b[0] in b && forall c <- b[1..] :: c in b;
    hide HexDigit;
  }

  lemma HexDigits(v: int, rest: Relay, length: nat)
    requires 0 <= v < 256 && IsHex(rest, length)
    ensures IsHex([HexDigit(v / 16), HexDigit(v % 16)] + rest, length + 2)
    ensures 16 * HexValue(HexDigit(v / 16)) + HexValue(HexDigit(v % 16)) == v
  {
    HexDigitValue(v / 16);
    HexDigitValue(v % 16);
    hide HexDigit, HexValue;
  }

  /** The name an onion layer gives its next hop: two digits a byte, from which the key can be read back. */
  lemma {:induction false} HexRoundTrip(b: Buffer)
    requires IsBytes(b)
    ensures IsHex(Hex(b), 2 * |b|) && Unhex(Hex(b)) == b
  {
    if b == [] {
    } else {
      HexNext(b);
      hide *;
      var v := b[0].value;
      HexRoundTrip(b[1..]);
      HexDigits(v, Hex(b[1..]), 2 * |b[1..]|);
      UnhexNext(HexDigit(v / 16), HexDigit(v % 16), Hex(b[1..]));
      assert b == [Byte(v)] + b[1..];
    }
  }

  /** So no two keys share a name. */
  lemma HexNamesOne(a: Buffer, b: Buffer)
    requires IsBytes(a) && IsBytes(b) && Hex(a) == Hex(b)
    ensures a == b
  {
    HexRoundTrip(a);
    HexRoundTrip(b);
  }

  // ---- By which means ----

  function FrameOf(action: Action, id: nat): Wire
    requires action != Drop
  {
    if action.Send? then action.frame else Flushed(id, action.entry)
  }

  /** An onion for the path can leave: it fits, and its first hop is linked or may be dialed. */
  ghost predicate OnionLeaves(m: Routing, path: Option<seq<OnionHop>>, packet: Buffer, seeds: seq<nat>)
    requires path.Some? ==> |path.value| <= |seeds|
  {
    && m.onionTransit && path.Some? && |path.value| >= 2
    && |Layered(path.value, packet, seeds, 0)| <= 8192
    && (IsOpen(m.peers, Hex(path.value[0].pubkey)) || Dialable(m, Hex(path.value[0].pubkey)))
  }

  /** The packet itself to its relay, the packet and its relay's name to an anchor, or the onion to its first hop. */
  ghost predicate Carries(to: Relay, frame: Wire, target: Relay, packet: Buffer, hops: nat,
                          path: Option<seq<OnionHop>>, seeds: seq<nat>)
    requires path.Some? ==> |path.value| <= |seeds|
  {
    match frame
    case FloodFrame(_, forwardCount, p) => to == target && forwardCount == 0 && p == packet
    case RoutedFrame(h, t, p) => h == hops + 1 && t == target && p == packet
    case OnionFrame(blob) =>
      && path.Some? && |path.value| >= 2 && to == Hex(path.value[0].pubkey)
      && blob == Layered(path.value, packet, seeds, 0)
  }

  lemma {:induction false} TransitCarries(m: Routing, via: seq<Relay>, target: Relay, packet: Buffer, hops: nat,
                                          id: nat)
    ensures var action := TransitAction(m, via, target, packet, hops);
            action != Drop ==>
              && action.to in via && Usable(m, action.to)
              && FrameOf(action, id) == RoutedFrame(hops + 1, target, packet)
              && (action.Send? <==> IsOpen(m.peers, action.to))
              && (action.Queue? ==> m.book[action.to].endpoint == Some(action.endpoint))
  {
    if via == [] {
    } else {
      TransitCarries(m, via[1..], target, packet, hops, id);
    }
  }

  /**
    Whatever way is chosen, what leaves for a relay, at once over an open link or by the flush after a dial, carries the
    packet towards its target; and a relay with restricted egress dials nobody.
   */
  lemma ForwardCarries(m: Routing, target: Relay, packet: Buffer, hops: nat, path: Option<seq<OnionHop>>,
                       seeds: seq<nat>, id: nat)
    requires path.Some? ==> |path.value| <= |seeds|
    ensures var action := ForwardAction(m, target, packet, hops, path, seeds, id);
            action != Drop ==>
              && Carries(action.to, FrameOf(action, id), target, packet, hops, path, seeds)
              && (action.Send? <==> IsOpen(m.peers, action.to))
              && (action.Queue? ==>
                    !m.noDial && action.to in m.book && m.book[action.to].endpoint == Some(action.endpoint))
  {
    hide Layered, Hex;
    if target in m.book {
      TransitCarries(m, m.book[target].via, target, packet, hops, id);
    }
  }

  /**
    The order of preference: an open link to the target; within the hop limit a dial to it; an onion whenever one can
    leave; cleartext transit only when nothing else is possible.
   */
  lemma ForwardPrefers(m: Routing, target: Relay, packet: Buffer, hops: nat, path: Option<seq<OnionHop>>,
                       seeds: seq<nat>, id: nat)
    requires path.Some? ==> |path.value| <= |seeds|
    ensures var action := ForwardAction(m, target, packet, hops, path, seeds, id);
            var fits := |packet| + 33 <= 8192 && target != m.self;
            var linked, dialed := IsOpen(m.peers, target), Dialable(m, target);
            var onward := hops < m.limits.maxTransitHops && target in m.book;
            && (!fits || (!linked && !onward) ==> action == Drop)
            && (fits && linked ==> action.Send? && action.to == target && FrameOf(action, id).FloodFrame?)
            && (fits && !linked && onward && dialed ==>
                  action.Queue? && action.to == target && FrameOf(action, id).FloodFrame?)
            && (fits && !linked && onward && !dialed && OnionLeaves(m, path, packet, seeds) ==>
                  action != Drop && FrameOf(action, id).OnionFrame?)
            && (fits && !linked && onward && !dialed && !OnionLeaves(m, path, packet, seeds) ==>
                  (action != Drop <==> exists v <- m.book[target].via :: Usable(m, v)) &&
                  (action != Drop ==> FrameOf(action, id).RoutedFrame?))
  {
    hide Layered, Hex;
    if target in m.book {
      TransitCarries(m, m.book[target].via, target, packet, hops, id);
      TransitFails(m, m.book[target].via, target, packet, hops);
    }
  }

  // ---- A queue changes nothing but the time ----

  function WithLink(m: Routing, relay: Relay): Routing {
    var st := if relay in m.peers then m.peers[relay] else Peer(false, None, []);
    m.(peers := m.peers[relay := st.(open := true)])
  }

  lemma {:induction false} TransitAsIfLinked(m: Routing, via: seq<Relay>, target: Relay, packet: Buffer, hops: nat,
                                             id: nat)
    ensures var action := TransitAction(m, via, target, packet, hops);
            action.Queue? ==>
              TransitAction(WithLink(m, action.to), via, target, packet, hops) ==
                Send(action.to, Flushed(id, action.entry))
  {
    if via == [] {
    } else {
      TransitAsIfLinked(m, via[1..], target, packet, hops, id);
      if !Usable(m, via[0]) {
        TransitCarries(m, via[1..], target, packet, hops, id);
      }
    }
  }

  /**
    What was queued behind a dial leaves, once the link is up, exactly as it would have left had the link been open
    from the start.
   */
  lemma FlushAsIfLinked(m: Routing, target: Relay, packet: Buffer, hops: nat, path: Option<seq<OnionHop>>,
                        seeds: seq<nat>, id: nat)
    requires path.Some? ==> |path.value| <= |seeds|
    ensures var action := ForwardAction(m, target, packet, hops, path, seeds, id);
            action.Queue? ==>
              ForwardAction(WithLink(m, action.to), target, packet, hops, path, seeds, id) ==
                Send(action.to, Flushed(id, action.entry))
  {
    hide Layered, Hex;
    if target in m.book {
      TransitAsIfLinked(m, m.book[target].via, target, packet, hops, id);
      TransitCarries(m, m.book[target].via, target, packet, hops, id);
    }
  }

  /** The same of an onion that a hop passes on. */
  lemma OnionFlushAsIfLinked(m: Routing, next: Relay, blob: Buffer, id: nat)
    ensures var action := OnionAction(m, next, blob);
            && (action != Drop ==> action.to == next && FrameOf(action, id) == OnionFrame(blob))
            && (action.Queue? ==> OnionAction(WithLink(m, next), next, blob) == Send(next, Flushed(id, action.entry)))
            && (action == Drop <==> !IsOpen(m.peers, next) && !Dialable(m, next))
  {
  }

  // ---- Along the way ----

  /** Cleartext transit: an anchor linked to the target passes it the packet, while hops are left. */
  lemma TransitArrives(m: Routing, target: Relay, packet: Buffer, hops: nat, path: Option<seq<OnionHop>>,
                       seeds: seq<nat>, id: nat, anchor: Routing, id': nat)
    requires path.Some? ==> |path.value| <= |seeds|
    requires var action := ForwardAction(m, target, packet, hops, path, seeds, id);
             action != Drop && FrameOf(action, id).RoutedFrame?
    requires target != anchor.self && IsOpen(anchor.peers, target) && hops + 1 < anchor.limits.maxTransitHops
    ensures var frame := FrameOf(ForwardAction(m, target, packet, hops, path, seeds, id), id);
            RoutedAction(anchor, frame, None, seeds, id') == Send(target, FloodFrame(id', 0, packet))
  {
    ForwardCarries(m, target, packet, hops, path, seeds, id);
    ForwardPrefers(m, target, packet, hops, path, seeds, id);
  }

  /** Onion transit: each hop passes the rest of the onion to the relay named next, and the last has the packet. */
  lemma OnionHopPassesOn(m: Routing, hops: seq<OnionHop>, packet: Buffer, seeds: seq<nat>, at: nat, id: nat)
    requires PathOk(hops) && at < |hops| <= |seeds|
    requires at + 1 < |hops| ==>
               IsOpen(m.peers, Hex(hops[at + 1].pubkey)) || Dialable(m, Hex(hops[at + 1].pubkey))
    ensures var frame := OnionFrame(Layered(hops, packet, seeds, at));
            var action := PeelAction(m, frame, hops[at].onionKey);
            if at + 1 < |hops|
            then && action != Drop && action.to == Hex(hops[at + 1].pubkey)
                 && FrameOf(action, id) == OnionFrame(Layered(hops, packet, seeds, at + 1))
            else action == Drop && OpenOnion(hops[at].onionKey, frame.blob) == Some(Deliver(packet))
  {
    PeelOneLayer(hops, packet, seeds, at);
    hide Layered, OpenOnion, Hex;
    if at + 1 < |hops| {
      OnionFlushAsIfLinked(m, Hex(hops[at + 1].pubkey), Layered(hops, packet, seeds, at + 1), id);
    }
  }

  // ---- The bridge search looks for what forwarding can use ----

  /** The search's view of this relay's own state. */
  ghost predicate Sees(v: Bridge.View, m: Routing) {
    v.book == m.book && v.noDial == m.noDial && forall r :: r in v.established <==> IsOpen(m.peers, r)
  }

  /** It starts a path at exactly the relays that `sendOnionTo` does not drop an onion for. */
  lemma PathStartsWhereOnionsLeave(v: Bridge.View, m: Routing, relay: Relay, blob: Buffer)
    requires Sees(v, m)
    ensures Bridge.CanReachDirectly(v, relay) <==> OnionAction(m, relay, blob) != Drop
  {
  }

  /** A hop that knows the same book, may dial, and is linked to its anchors and to the relays it is an anchor of. */
  ghost predicate Follows(m: Routing, from: Relay, book: Book) {
    && m.book == book && !m.noDial
    && (forall r <- book :: IsOpen(m.peers, r) <==>
          (from in book && r in book[from].via) || from in book[r].via)
  }

  /** And it goes on through exactly the relays such a hop passes an onion to. */
  lemma PathGoesWhereOnionsPass(v: Bridge.View, m: Routing, from: Relay, to: Relay, blob: Buffer)
    requires Follows(m, from, v.book) && to in v.book
    ensures Bridge.CanReach(v, from, to) <==> OnionAction(m, to, blob) != Drop
  {
  }
}
