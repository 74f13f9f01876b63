/**
  The journeys of packets through the overlay. A state is the list of frames in flight and of
  forwards waiting for a dial. In a step one of them is handled by some relay, with whatever
  peers, address book and caches that relay has, and replaced by what the handler produces.
 */
module Overlay {
  import opened Wrappers
  import opened Gossip
  import opened Onion
  import opened Federation

  datatype Item = InFlight(frame: Wire) | Waiting(entry: Pending)

  /** The handling relay's choices and circumstances. */
  datatype Handling = Handling(
    routing: Routing, order: seq<Relay>, from: Relay, seen: bool, outcome: LocalOutcome,
    path: Option<seq<OnionHop>>, seeds: seq<nat>, privateKey: nat, id: nat, evicted: bool)

  /** The overlay's bounds: the operator's limits and at most `maxPeers` peers per relay. */
  datatype Bounds = Bounds(limits: Limits, maxPeers: nat)

  ghost predicate HandlingOk(b: Bounds, h: Handling) {
    && h.routing.limits == b.limits
    && |h.order| <= b.maxPeers
    && (h.path.Some? ==> |h.path.value| <= |h.seeds|)
  }

  function FromAction(action: Action): seq<Item> {
    match action
    case Drop => []
    case Send(_, frame) => [InFlight(frame)]
    case Queue(_, _, entry) => [Waiting(entry)]
  }

  /** What handling an item leaves behind. A queue that overflows or a lost link drops entries. */
  ghost function Produced(item: Item, h: Handling): seq<Item>
    requires h.path.Some? ==> |h.path.value| <= |h.seeds|
  {
    match item
    case Waiting(entry) => if h.evicted then [] else [InFlight(Flushed(h.id, entry))]
    case InFlight(frame) =>
      match frame
      case FloodFrame(_, _, _) =>
        var targets := FloodOnward(h.routing.limits, h.routing.peers, h.order, frame, h.from, h.seen, h.outcome);
        seq(|targets|, i => InFlight(Onward(frame)))
      case RoutedFrame(_, _, _) => FromAction(RoutedAction(h.routing, frame, h.path, h.seeds, h.id))
      case OnionFrame(_) => FromAction(PeelAction(h.routing, frame, h.privateKey))
  }

  // ---- The measure ----

  /** Frames in the tree a flooded frame can still grow into, itself included. */
  ghost function FloodTree(b: Bounds, forwardCount: nat): nat
    decreases b.limits.maxHops - forwardCount
  {
    if forwardCount >= b.limits.maxHops then 1 else 1 + b.maxPeers * FloodTree(b, forwardCount + 1)
  }

  ghost function RoutedWeight(b: Bounds, hops: nat): nat
    decreases b.limits.maxTransitHops - hops
  {
    if hops >= b.limits.maxTransitHops then 1
    else 2 + FloodTree(b, 0) + (MAX_FRAME_BODY + 1) + RoutedWeight(b, hops + 1)
  }

  ghost function FrameWeight(b: Bounds, frame: Wire): nat {
    match frame
    case FloodFrame(_, forwardCount, _) => FloodTree(b, forwardCount)
    case RoutedFrame(hops, _, _) => RoutedWeight(b, hops)
    case OnionFrame(blob) => 1 + |blob|
  }

  ghost function Weight(b: Bounds, item: Item): nat {
    match item
    case InFlight(frame) => FrameWeight(b, frame)
    case Waiting(entry) => 1 + FrameWeight(b, Flushed(0, entry))
  }

  ghost function TotalWeight(b: Bounds, items: seq<Item>): nat {
    if items == [] then 0 else TotalWeight(b, items[..|items| - 1]) + Weight(b, items[|items| - 1])
  }

  lemma {:induction false} TotalWeightSplits(b: Bounds, s: seq<Item>, t: seq<Item>)
    ensures TotalWeight(b, s + t) == TotalWeight(b, s) + TotalWeight(b, t)
  {
    if t == [] {
      assert s + t == s;
    } else {
      TotalWeightSplits(b, s, t[..|t| - 1]);
      assert (s + t)[..|s + t| - 1] == s + t[..|t| - 1];
    }
  }

  lemma {:induction false} FloodTargetsFewer(peers: Peers, order: seq<Relay>, exclude: Option<Relay>)
    ensures |FloodTargets(peers, order, exclude)| <= |order|
  {
    if order == [] {
    } else {
      FloodTargetsFewer(peers, order[..|order| - 1], exclude);
    }
  }

  lemma {:induction false} CopiesWeigh(b: Bounds, item: Item, n: nat)
    ensures TotalWeight(b, seq(n, i => item)) == n * Weight(b, item)
  {
    if n == 0 {
    } else {
      CopiesWeigh(b, item, n - 1);
      assert seq(n, i => item)[..n - 1] == seq(n - 1, i => item);
    }
  }

  lemma {:induction false} TransitStays(m: Routing, via: seq<Relay>, target: Relay, packet: Buffer, hops: nat)
    ensures var action := TransitAction(m, via, target, packet, hops);
            || action == Drop
            || (action.Send? && action.frame == RoutedFrame(hops + 1, target, packet))
            || (action.Queue? && action.entry == PendingRouted(target, packet, hops + 1))
  {
    if via == [] {
    } else {
      TransitStays(m, via[1..], target, packet, hops);
    }
  }

  /** A routed frame becomes at most one other thing: a flood, an onion that fits a frame,
      or a routed frame with one hop more, still within the transit limit. */
  ghost predicate RoutedSuccessor(b: Bounds, hops: nat, frame: Wire) {
    match frame
    case FloodFrame(_, forwardCount, _) => forwardCount == 0
    case RoutedFrame(hops', _, _) => hops' == hops + 1 <= b.limits.maxTransitHops
    case OnionFrame(blob) => |blob| <= MAX_FRAME_BODY
  }

  function WireOf(item: Item): Wire {
    match item
    case InFlight(frame) => frame
    case Waiting(entry) => Flushed(0, entry)
  }

  lemma RoutedProduces(b: Bounds, h: Handling, frame: Wire)
    requires HandlingOk(b, h) && frame.RoutedFrame?
    ensures var out := Produced(InFlight(frame), h);
            |out| <= 1 &&
            (out != [] ==> frame.hops < b.limits.maxTransitHops && RoutedSuccessor(b, frame.hops, WireOf(out[0])))
  {
    if frame.hops < b.limits.maxTransitHops && frame.target in h.routing.book {
      TransitStays(h.routing, h.routing.book[frame.target].via, frame.target, frame.packet, frame.hops);
    }
  }

  lemma RoutedLosesWeight(b: Bounds, h: Handling, frame: Wire)
    requires HandlingOk(b, h) && frame.RoutedFrame?
    ensures TotalWeight(b, Produced(InFlight(frame), h)) < FrameWeight(b, frame)
  {
    RoutedProduces(b, h, frame);
    var out := Produced(InFlight(frame), h);
    if out != [] {
      assert out == [] + [out[0]];
      TotalWeightSplits(b, [], out);
      assert FrameWeight(b, WireOf(out[0])) + 2 <= FrameWeight(b, frame);
    }
  }

  lemma OnionLosesWeight(b: Bounds, h: Handling, frame: Wire)
    requires HandlingOk(b, h) && frame.OnionFrame?
    ensures TotalWeight(b, Produced(InFlight(frame), h)) < FrameWeight(b, frame)
  {
    PeelShrinks(h.privateKey, frame.blob);
    var out := Produced(InFlight(frame), h);
    if out != [] {
      assert out[..|out| - 1] == [];
    }
  }

  lemma FloodLosesWeight(b: Bounds, h: Handling, frame: Wire)
    requires HandlingOk(b, h) && frame.FloodFrame?
    ensures TotalWeight(b, Produced(InFlight(frame), h)) < FrameWeight(b, frame)
  {
    var targets := FloodOnward(h.routing.limits, h.routing.peers, h.order, frame, h.from, h.seen, h.outcome);
    FloodTargetsFewer(h.routing.peers, h.order, Some(h.from));
    CopiesWeigh(b, InFlight(Onward(frame)), |targets|);
    if targets != [] {
      var tree := FloodTree(b, frame.forwardCount + 1);
      MoreCopies(|targets|, b.maxPeers, tree);
    }
  }

  /** One measure for every kind of frame: handling an item always loses weight. */
  lemma HandlingLosesWeight(b: Bounds, h: Handling, item: Item)
    requires HandlingOk(b, h)
    ensures TotalWeight(b, Produced(item, h)) < Weight(b, item)
  {
    match item
    case Waiting(entry) =>
      assert !h.evicted ==> Produced(item, h)[..0] == [];
      assert FrameWeight(b, Flushed(h.id, entry)) == FrameWeight(b, Flushed(0, entry));
    case InFlight(frame) =>
      match frame
      case FloodFrame(_, _, _) => FloodLosesWeight(b, h, frame);
      case RoutedFrame(_, _, _) => RoutedLosesWeight(b, h, frame);
      case OnionFrame(_) => OnionLosesWeight(b, h, frame);
  }

  // ---- Runs ----

  ghost function Step(items: seq<Item>, at: nat, h: Handling): seq<Item>
    requires at < |items| && (h.path.Some? ==> |h.path.value| <= |h.seeds|)
  {
    items[..at] + Produced(items[at], h) + items[at + 1..]
  }

  /** A run handles one item after another, in any order and under any circumstances. */
  ghost predicate Run(b: Bounds, items: seq<Item>, steps: seq<(nat, Handling)>, items': seq<Item>)
    decreases |steps|
  {
    if steps == [] then items == items' else
    var (at, h) := steps[0];
    HandlingOk(b, h) && at < |items| && Run(b, Step(items, at, h), steps[1..], items')
  }

  lemma StepLosesWeight(b: Bounds, items: seq<Item>, at: nat, h: Handling)
    requires HandlingOk(b, h) && at < |items|
    ensures TotalWeight(b, Step(items, at, h)) < TotalWeight(b, items)
  {
    HandlingLosesWeight(b, h, items[at]);
    var front, rest, out := items[..at], items[at + 1..], Produced(items[at], h);
    assert items == front + [items[at]] + rest;
    TotalWeightSplits(b, front + [items[at]], rest);
    TotalWeightSplits(b, front, [items[at]]);
    TotalWeightSplits(b, front + out, rest);
    TotalWeightSplits(b, front, out);
    assert [items[at]][..0] == [];
  }

  /** Every journey ends: no run from `items` is longer than their total weight, whatever peers,
      address books and caches the relays have. */
  lemma {:induction false} JourneysEnd(b: Bounds, items: seq<Item>, steps: seq<(nat, Handling)>, items': seq<Item>)
    requires Run(b, items, steps, items')
    ensures |steps| + TotalWeight(b, items') <= TotalWeight(b, items)
    decreases |steps|
  {
    if steps == [] {
    } else {
      var (at, h) := steps[0];
      StepLosesWeight(b, items, at, h);
      JourneysEnd(b, Step(items, at, h), steps[1..], items');
    }
  }

  // ---- Counting frames ----

  /** Items that existed at any time of a run: those at the start and all those produced. */
  ghost function ItemsEver(items: seq<Item>, steps: seq<(nat, Handling)>): nat
    decreases |steps|
  {
    if steps == [] then |items| else
    var (at, h) := steps[0];
    if at < |items| && (h.path.Some? ==> |h.path.value| <= |h.seeds|)
    then ItemsEver(Step(items, at, h), steps[1..]) + 1
    else 0
  }

  lemma {:induction false} ItemsWeighOne(b: Bounds, items: seq<Item>)
    ensures |items| <= TotalWeight(b, items)
  {
    if items == [] {
    } else {
      ItemsWeighOne(b, items[..|items| - 1]);
    }
  }

  lemma {:induction false} ItemsEverBounded(b: Bounds, items: seq<Item>, steps: seq<(nat, Handling)>, items': seq<Item>)
    requires Run(b, items, steps, items')
    ensures ItemsEver(items, steps) == |steps| + |items'| <= TotalWeight(b, items)
    decreases |steps|
  {
    if steps == [] {
      ItemsWeighOne(b, items);
    } else {
      var (at, h) := steps[0];
      ItemsEverBounded(b, Step(items, at, h), steps[1..], items');
      StepLosesWeight(b, items, at, h);
    }
  }

  ghost function Power(base: nat, exponent: nat): nat {
    if exponent == 0 then 1 else base * Power(base, exponent - 1)
  }

  /** base^1 + ... + base^n */
  ghost function PowerSum(base: nat, n: nat): nat {
    if n == 0 then 0 else PowerSum(base, n - 1) + Power(base, n)
  }

  lemma {:induction false} PowerSumShift(base: nat, n: nat)
    ensures base + base * PowerSum(base, n) == PowerSum(base, n + 1)
  {
    if n == 0 {
      assert Power(base, 1) == base * Power(base, 0);
    } else {
      PowerSumShift(base, n - 1);
      assert base * (PowerSum(base, n - 1) + Power(base, n)) == base * PowerSum(base, n - 1) + base * Power(base, n);
    }
  }

  lemma Distribute(d: nat, t: nat)
    ensures d * (1 + t) == d + d * t
  {
  }

  lemma MoreCopies(m: nat, n: nat, weight: nat)
    requires m <= n
    ensures m * weight <= n * weight
  {
  }

  lemma {:induction false} FloodTreeIsPowerSum(b: Bounds, forwardCount: nat)
    requires forwardCount <= b.limits.maxHops
    ensures b.maxPeers * FloodTree(b, forwardCount) == PowerSum(b.maxPeers, b.limits.maxHops - forwardCount + 1)
    decreases b.limits.maxHops - forwardCount
  {
    var d := b.maxPeers;
    if forwardCount == b.limits.maxHops {
      PowerSumShift(d, 0);
    } else {
      FloodTreeIsPowerSum(b, forwardCount + 1);
      PowerSumShift(d, b.limits.maxHops - forwardCount);
      hide PowerSum;
      Distribute(d, d * FloodTree(b, forwardCount + 1));
    }
  }

  /** A packet flooded from a client costs at most D + D^2 + ... + D^(MAX_HOPS+1) frames over the whole overlay. */
  lemma FloodFramesBounded(b: Bounds, id: nat, packet: Buffer, peers: Peers, order: seq<Relay>,
                           steps: seq<(nat, Handling)>, items': seq<Item>)
    requires |order| <= b.maxPeers
    requires Run(b, seq(|FloodTargets(peers, order, None)|, i => InFlight(FloodFrame(id, 0, packet))), steps, items')
    ensures ItemsEver(seq(|FloodTargets(peers, order, None)|, i => InFlight(FloodFrame(id, 0, packet))), steps)
            <= PowerSum(b.maxPeers, b.limits.maxHops + 1)
  {
    hide Run, ItemsEver, TotalWeight, FloodTree, PowerSum;
    var n, first := |FloodTargets(peers, order, None)|, InFlight(FloodFrame(id, 0, packet));
    FloodTargetsFewer(peers, order, None);
    ItemsEverBounded(b, seq(n, i => first), steps, items');
    CopiesWeigh(b, first, n);
    FloodTreeIsPowerSum(b, 0);
    MoreCopies(n, b.maxPeers, FloodTree(b, 0));
  }

  // ---- Hop counts ----

  /** The counters frames carry on the wire. */
  ghost predicate WithinLimits(b: Bounds, item: Item) {
    match WireOf(item)
    case FloodFrame(_, forwardCount, _) => forwardCount <= b.limits.maxHops
    case RoutedFrame(hops, _, _) => hops <= b.limits.maxTransitHops
    case OnionFrame(_) => true
  }

  /** Handlings a routed chain has left, by its hop count. */
  ghost function RoutedBudget(b: Bounds, items: seq<Item>): nat {
    if items == [] then 0 else
    RoutedBudget(b, items[..|items| - 1]) +
    match WireOf(items[|items| - 1])
    case RoutedFrame(hops, _, _) => if hops <= b.limits.maxTransitHops then b.limits.maxTransitHops - hops + 1 else 0
    case _ => 0
  }

  lemma {:induction false} RoutedBudgetSplits(b: Bounds, s: seq<Item>, t: seq<Item>)
    ensures RoutedBudget(b, s + t) == RoutedBudget(b, s) + RoutedBudget(b, t)
  {
    if t == [] {
      assert s + t == s;
    } else {
      RoutedBudgetSplits(b, s, t[..|t| - 1]);
      assert (s + t)[..|s + t| - 1] == s + t[..|t| - 1];
    }
  }

  lemma {:induction false} NoRoutedNoBudget(b: Bounds, items: seq<Item>)
    requires forall i | 0 <= i < |items| :: !WireOf(items[i]).RoutedFrame?
    ensures RoutedBudget(b, items) == 0
  {
    if items == [] {
    } else {
      NoRoutedNoBudget(b, items[..|items| - 1]);
    }
  }

  /**
    Handling keeps every counter within its limit, and only a routed frame begets a routed frame, one, a hop further.
   */
  lemma HandlingKeepsLimits(b: Bounds, h: Handling, item: Item)
    requires HandlingOk(b, h) && WithinLimits(b, item)
    ensures forall out <- Produced(item, h) :: WithinLimits(b, out)
    ensures RoutedBudget(b, Produced(item, h)) + (if item.InFlight? && item.frame.RoutedFrame? then 1 else 0)
            <= RoutedBudget(b, [item])
  {
    var out := Produced(item, h);
    assert [item][..0] == [];
    if item.InFlight? && item.frame.RoutedFrame? {
      RoutedProduces(b, h, item.frame);
      assert out != [] ==> out[..0] == [];
    } else if item.InFlight? {
      NoRoutedNoBudget(b, out);
    } else {
      assert out != [] ==> out[..0] == [];
    }
  }

  ghost function RoutedSteps(items: seq<Item>, steps: seq<(nat, Handling)>): nat
    decreases |steps|
  {
    if steps == [] then 0 else
    var (at, h) := steps[0];
    if at < |items| && (h.path.Some? ==> |h.path.value| <= |h.seeds|)
    then RoutedSteps(Step(items, at, h), steps[1..]) +
         if items[at].InFlight? && items[at].frame.RoutedFrame? then 1 else 0
    else 0
  }

  lemma StepKeepsLimits(b: Bounds, items: seq<Item>, at: nat, h: Handling)
    requires HandlingOk(b, h) && at < |items| && forall item <- items :: WithinLimits(b, item)
    ensures forall item <- Step(items, at, h) :: WithinLimits(b, item)
    ensures RoutedBudget(b, Step(items, at, h)) + (if items[at].InFlight? && items[at].frame.RoutedFrame? then 1 else 0)
            <= RoutedBudget(b, items)
  {
    hide WithinLimits, Produced;
    HandlingKeepsLimits(b, h, items[at]);
    var front, rest, out := items[..at], items[at + 1..], Produced(items[at], h);
    assert items == front + [items[at]] + rest;
    RoutedBudgetSplits(b, front + [items[at]], rest);
    RoutedBudgetSplits(b, front, [items[at]]);
    RoutedBudgetSplits(b, front + out, rest);
    RoutedBudgetSplits(b, front, out);
  }

  /** In any run, flood counts stay within MAX_HOPS and hop counts within MAX_TRANSIT_HOPS, and the
      routed frames handled never number more than the hops their chains had left. */
  lemma {:induction false} HopCountsStayBounded(b: Bounds, items: seq<Item>, steps: seq<(nat, Handling)>,
                                                items': seq<Item>)
    requires Run(b, items, steps, items') && forall item <- items :: WithinLimits(b, item)
    ensures forall item <- items' :: WithinLimits(b, item)
    ensures RoutedSteps(items, steps) + RoutedBudget(b, items') <= RoutedBudget(b, items)
    decreases |steps|
  {
    if steps == [] {
    } else {
      var (at, h) := steps[0];
      StepKeepsLimits(b, items, at, h);
      HopCountsStayBounded(b, Step(items, at, h), steps[1..], items');
    }
  }

  /** What a relay starts for its own client is at most one frame, and a routed one has made one hop. */
  lemma FirstFrame(b: Bounds, m: Routing, target: Relay, packet: Buffer, path: Option<seq<OnionHop>>, seeds: seq<nat>,
                   id: nat)
    requires m.limits == b.limits && (path.Some? ==> |path.value| <= |seeds|)
    ensures var items := FromAction(ForwardAction(m, target, packet, 0, path, seeds, id));
            |items| <= 1 &&
            forall item <- items :: WithinLimits(b, item) && (WireOf(item).RoutedFrame? ==> WireOf(item).hops == 1)
  {
    hide Layered;
    if target in m.book {
      TransitStays(m, m.book[target].via, target, packet, 0);
    }
    hide TransitAction;
  }

  lemma BudgetOfOne(b: Bounds, items: seq<Item>)
    requires |items| <= 1
    requires forall item <- items :: WithinLimits(b, item) && (WireOf(item).RoutedFrame? ==> WireOf(item).hops == 1)
    ensures RoutedBudget(b, items) <= b.limits.maxTransitHops
  {
    if items != [] {
      assert items[0] in items && items[..0] == [];
    }
  }

  /** A packet a relay routes for its own client passes through at most MAX_TRANSIT_HOPS routed frames. */
  lemma RoutedChainIsShort(b: Bounds, m: Routing, target: Relay, packet: Buffer, path: Option<seq<OnionHop>>,
                           seeds: seq<nat>,
                           id: nat, steps: seq<(nat, Handling)>, items': seq<Item>)
    requires m.limits == b.limits && (path.Some? ==> |path.value| <= |seeds|)
    requires Run(b, FromAction(ForwardAction(m, target, packet, 0, path, seeds, id)), steps, items')
    ensures var items := FromAction(ForwardAction(m, target, packet, 0, path, seeds, id));
            RoutedSteps(items, steps) <= b.limits.maxTransitHops
  {
    hide *;
    var items := FromAction(ForwardAction(m, target, packet, 0, path, seeds, id));
    FirstFrame(b, m, target, packet, path, seeds, id);
    BudgetOfOne(b, items);
    HopCountsStayBounded(b, items, steps, items');
  }

  /**
    Not only is nothing multiplied: a routed forward that is flushed and then handled by an anchor linked to its target
    becomes, in two steps, the packet on its way to the target.
   */
  lemma RoutedForwardCrosses(b: Bounds, target: Relay, packet: Buffer, hops: nat, flush: Handling, anchor: Handling)
    requires HandlingOk(b, flush) && !flush.evicted && HandlingOk(b, anchor)
    requires IsOpen(anchor.routing.peers, target) && target != anchor.routing.self
    requires hops < b.limits.maxTransitHops && |packet| <= MAX_FRAME_BODY - 33
    ensures Run(b, [Waiting(PendingRouted(target, packet, hops))], [(0, flush), (0, anchor)],
                [InFlight(FloodFrame(anchor.id, 0, packet))])
  {
    var waiting := [Waiting(PendingRouted(target, packet, hops))];
    var routed := [InFlight(RoutedFrame(hops, target, packet))];
    assert Step(waiting, 0, flush) == routed;
    assert Step(routed, 0, anchor) == [InFlight(FloodFrame(anchor.id, 0, packet))];
    var steps := [(0, flush), (0, anchor)];
    assert steps[1..] == [(0, anchor)] && [(0, anchor)][1..] == [];
    hide Step;
    assert Run(b, routed, steps[1..], [InFlight(FloodFrame(anchor.id, 0, packet))]);
  }
}
