/** Several devices of one account, editing contacts and exchanging archives through the relay. */
module ArchiveRuns {
  import opened Wrappers
  import opened Archive
  import opened ArchiveLaws

  type Device = nat

  datatype Fleet = Fleet(devices: map<Device, View>, archive: View)

  datatype Event =
    | AddContact(device: Device, peer: Peer)
    | Delete(device: Device, id: Peer, now: nat)       // a contact or a group
    | Revive(device: Device, peer: Peer, stamp: nat)   // a contact, listed again
    | ReviveGroup(device: Device, group: Peer, stamp: nat)
    | Block(device: Device, peer: Peer)
    | Unblock(device: Device, peer: Peer)
    | Pull(device: Device)
    | Push(device: Device)

  const EMPTY_VIEW := View(map[], map[], {}, {}, {})

  ghost function Added(v: View, p: Peer): View {
    v.(contacts := v.contacts + {p}, accounts := v.accounts + {p})
  }

  ghost function Deleted(v: View, p: Peer, now: nat): View {
    v.(tombstones := v.tombstones[p := now], contacts := v.contacts - {p}, accounts := v.accounts - {p})
  }

  ghost function RevivedAt(v: View, p: Peer, stamp: nat): View {
    v.(revivals := v.revivals[p := stamp], contacts := v.contacts + {p}, accounts := v.accounts + {p})
  }

  ghost function GroupRevivedAt(v: View, g: Peer, stamp: nat): View {
    v.(revivals := v.revivals[g := stamp])
  }

  ghost function BlockedBy(v: View, p: Peer): View {
    v.(blocked := v.blocked + {p})
  }

  ghost function UnblockedBy(v: View, p: Peer): View {
    v.(blocked := v.blocked - {p})
  }

  /** What `recordRevival` makes of the clock: later than the tombstone, and never earlier than the last revival. */
  function RevivalStamp(tombstones: Times, revivals: Times, p: Peer, clock: nat): nat {
    Max(At(revivals, p), Max(clock, At(tombstones, p) + 1))
  }

  // ---- What each event needs ----

  /** A listed peer's delete must be later than its last revival; a group's may have any time. */
  ghost predicate MayDelete(groups: iset<Peer>, v: View, p: Peer, now: nat) {
    p in groups || (p in v.revivals ==> v.revivals[p] < now)
  }

  ghost predicate MayRevive(groups: iset<Peer>, v: View, p: Peer, stamp: nat) {
    p !in groups && At(v.tombstones, p) <= stamp
  }

  ghost predicate MayAdd(groups: iset<Peer>, v: View, p: Peer) {
    p !in groups && !Tombstoned(v.tombstones, v.revivals, p)
  }

  /** A delete keeps a state well-formed if and only if it is stamped later than the revival it undoes. */
  lemma DeleteKeepsWellFormed(groups: iset<Peer>, v: View, p: Peer, now: nat)
    requires WellFormed(groups, v)
    ensures WellFormed(groups, Deleted(v, p, now)) <==> MayDelete(groups, v, p, now)
  {
    var d := Deleted(v, p, now);
    assert forall q :: q != p ==> (Revived(d, q) <==> Revived(v, q));
    assert Revived(d, p) <==> p in v.revivals && v.revivals[p] >= now;
    assert p !in d.contacts;
  }

  /** A revival keeps it well-formed if and only if no tombstone is later. */
  lemma ReviveKeepsWellFormed(groups: iset<Peer>, v: View, p: Peer, stamp: nat)
    requires WellFormed(groups, v)
    ensures WellFormed(groups, RevivedAt(v, p, stamp)) <==> MayRevive(groups, v, p, stamp)
  {
    var r := RevivedAt(v, p, stamp);
    assert forall q :: q != p ==> (Revived(r, q) <==> Revived(v, q));
    assert forall q | q != p ::
             Tombstoned(r.tombstones, r.revivals, q) <==> Tombstoned(v.tombstones, v.revivals, q);
    assert p in r.contacts;
  }

  lemma GroupReviveKeepsWellFormed(groups: iset<Peer>, v: View, g: Peer, stamp: nat)
    requires WellFormed(groups, v) && g in groups
    ensures WellFormed(groups, GroupRevivedAt(v, g, stamp))
  {
    var r := GroupRevivedAt(v, g, stamp);
    assert forall q :: q != g ==> (Revived(r, q) <==> Revived(v, q));
    assert forall q | q != g ::
             Tombstoned(r.tombstones, r.revivals, q) <==> Tombstoned(v.tombstones, v.revivals, q);
  }

  lemma AddKeepsWellFormed(groups: iset<Peer>, v: View, p: Peer)
    requires WellFormed(groups, v)
    ensures WellFormed(groups, Added(v, p)) <==> MayAdd(groups, v, p)
  {
    var a := Added(v, p);
    assert p in a.contacts;
    assert forall q :: Revived(a, q) <==> Revived(v, q);
  }

  lemma BlockingKeepsWellFormed(groups: iset<Peer>, v: View, p: Peer)
    requires WellFormed(groups, v)
    ensures WellFormed(groups, BlockedBy(v, p)) && WellFormed(groups, UnblockedBy(v, p))
  {
    assert forall w: View, q | w.tombstones == v.tombstones && w.revivals == v.revivals ::
             Revived(w, q) <==> Revived(v, q);
  }

  /** The SDK's own revivals always qualify, whatever its clock says; and a delete right at or before one never does. */
  lemma RecordedRevivalsQualify(groups: iset<Peer>, v: View, p: Peer, clock: nat, now: nat)
    requires p !in groups
    ensures var stamp := RevivalStamp(v.tombstones, v.revivals, p, clock);
            && MayRevive(groups, v, p, stamp)
            && (MayDelete(groups, RevivedAt(v, p, stamp), p, now) <==> stamp < now)
  {
  }

  // ---- Runs ----

  ghost predicate Enabled(groups: iset<Peer>, f: Fleet, e: Event) {
    && e.device in f.devices
    && match e
       case AddContact(d, p) => MayAdd(groups, f.devices[d], p)
       case Delete(d, p, now) => MayDelete(groups, f.devices[d], p, now)
       case Revive(d, p, stamp) => MayRevive(groups, f.devices[d], p, stamp)
       case ReviveGroup(d, g, stamp) => g in groups
       case Block(d, p) => true
       case Unblock(d, p) => true
       case Pull(d) => true
       case Push(d) => true
  }

  ghost function Apply(f: Fleet, e: Event): Fleet
    requires e.device in f.devices
  {
    var v := f.devices[e.device];
    match e
    case AddContact(d, p) => f.(devices := f.devices[d := Added(v, p)])
    case Delete(d, p, now) => f.(devices := f.devices[d := Deleted(v, p, now)])
    case Revive(d, p, stamp) => f.(devices := f.devices[d := RevivedAt(v, p, stamp)])
    case ReviveGroup(d, g, stamp) => f.(devices := f.devices[d := GroupRevivedAt(v, g, stamp)])
    case Block(d, p) => f.(devices := f.devices[d := BlockedBy(v, p)])
    case Unblock(d, p) => f.(devices := f.devices[d := UnblockedBy(v, p)])
    case Pull(d) => f.(devices := f.devices[d := Join(v, f.archive)])
    case Push(d) => f.(archive := v)
  }

  ghost predicate Run(groups: iset<Peer>, f: Fleet, events: seq<Event>, f': Fleet)
    decreases |events|
  {
    if events == [] then f == f'
    else Enabled(groups, f, events[0]) && Run(groups, Apply(f, events[0]), events[1..], f')
  }

  ghost predicate FleetOk(groups: iset<Peer>, f: Fleet) {
    WellFormed(groups, f.archive) && forall d <- f.devices :: WellFormed(groups, f.devices[d])
  }

  lemma EventKeepsWellFormed(groups: iset<Peer>, f: Fleet, e: Event)
    requires FleetOk(groups, f) && Enabled(groups, f, e)
    ensures FleetOk(groups, Apply(f, e))
  {
    hide WellFormed, Join, MayAdd, MayDelete, MayRevive;
    var v := f.devices[e.device];
    match e {
      case AddContact(_, p) => AddKeepsWellFormed(groups, v, p);
      case Delete(_, p, now) => DeleteKeepsWellFormed(groups, v, p, now);
      case Revive(_, p, stamp) => ReviveKeepsWellFormed(groups, v, p, stamp);
      case ReviveGroup(_, g, stamp) => GroupReviveKeepsWellFormed(groups, v, g, stamp);
      case Block(_, p) => BlockingKeepsWellFormed(groups, v, p);
      case Unblock(_, p) => BlockingKeepsWellFormed(groups, v, p);
      case Pull(_) => JoinKeepsWellFormed(groups, v, f.archive);
      case Push(_) =>
    }
  }

  /** Well-formedness holds in every reachable state, so the join laws hold of every archive exchanged in such a run. */
  lemma {:induction false} RunsStayWellFormed(groups: iset<Peer>, f: Fleet, events: seq<Event>, f': Fleet)
    requires FleetOk(groups, f) && Run(groups, f, events, f')
    ensures FleetOk(groups, f')
    decreases |events|
  {
    if events == [] {
    } else {
      hide FleetOk, Apply, Enabled;
      EventKeepsWellFormed(groups, f, events[0]);
      RunsStayWellFormed(groups, Apply(f, events[0]), events[1..], f');
    }
  }

  /** New devices and an empty archive. */
  ghost function NewFleet(devices: set<Device>): Fleet {
    Fleet(map d | d in devices :: EMPTY_VIEW, EMPTY_VIEW)
  }

  // ---- Synchronising one device after another ----

  /** `b` already knows everything `a` does. */
  ghost predicate Below(a: View, b: View) {
    Join(a, b) == b
  }

  lemma BelowIsTransitive(groups: iset<Peer>, a: View, b: View, c: View)
    requires WellFormed(groups, a) && WellFormed(groups, b) && WellFormed(groups, c) && Below(a, b) && Below(b, c)
    ensures Below(a, c)
  {
    ListsNone(groups, b);
    hide WellFormed, Join, ListsNoGroup;
    JoinAssociates(groups, a, b, c);
  }

  lemma ListsNone(groups: iset<Peer>, v: View)
    requires WellFormed(groups, v)
    ensures ListsNoGroup(groups, v)
  {
  }

  lemma JoinIsAbove(groups: iset<Peer>, a: View, b: View)
    requires WellFormed(groups, a) && WellFormed(groups, b)
    ensures Below(a, Join(a, b)) && Below(b, Join(a, b)) && Below(a, a)
  {
    JoinIdempotent(a);
    JoinIdempotent(b);
    JoinAssociates(groups, a, a, b);
    JoinCommutes(a, b);
    JoinAssociates(groups, b, b, a);
    hide WellFormed, Join;
  }

  /** One visit of each listed device: it pulls the archive and pushes the result. */
  ghost function Synced(f: Fleet, order: seq<Device>): Fleet
    requires forall d <- order :: d in f.devices
    ensures Synced(f, order).devices.Keys == f.devices.Keys
    decreases |order|
  {
    if order == [] then f else
    var before := Synced(f, order[..|order| - 1]);
    Apply(Apply(before, Pull(order[|order| - 1])), Push(order[|order| - 1]))
  }

  lemma SyncedNext(f: Fleet, order: seq<Device>)
    requires order != [] && forall d <- order :: d in f.devices
    ensures var front, last := order[..|order| - 1], order[|order| - 1];
            && last in f.devices
            && (forall d <- front :: d in f.devices)
            && (forall d :: d in order <==> d in front || d == last)
            && Synced(f, order) == Apply(Apply(Synced(f, front), Pull(last)), Push(last))
  {
    hide Apply;
    assert order == order[..|order| - 1] + [order[|order| - 1]];
  }

  lemma SyncOne(groups: iset<Peer>, f: Fleet, d: Device)
    requires FleetOk(groups, f) && d in f.devices
    ensures var f' := Apply(Apply(f, Pull(d)), Push(d));
            && FleetOk(groups, f')
            && f'.devices[d] == f'.archive == Join(f.devices[d], f.archive)
            && Below(f.archive, f'.archive) && Below(f'.archive, f'.archive)
            && (Below(f.devices[d], f.archive) ==> f'.archive == f.archive)
            && (forall e <- f.devices :: e != d ==> f'.devices[e] == f.devices[e])
            && (forall e <- f.devices :: Below(f.devices[e], f.archive) ==> Below(f'.devices[e], f'.archive))
  {
    hide WellFormed, Join;
    JoinKeepsWellFormed(groups, f.devices[d], f.archive);
    JoinIsAbove(groups, f.devices[d], f.archive);
    var f' := Apply(Apply(f, Pull(d)), Push(d));
    JoinIsAbove(groups, f'.archive, f'.archive);
    forall e <- f.devices | e != d && Below(f.devices[e], f.archive) ensures Below(f'.devices[e], f'.archive) {
      BelowIsTransitive(groups, f.devices[e], f.archive, f'.archive);
    }
  }

  lemma {:induction false} VisitedAreBelow(groups: iset<Peer>, f: Fleet, order: seq<Device>)
    requires FleetOk(groups, f) && forall d <- order :: d in f.devices
    ensures FleetOk(groups, Synced(f, order))
    ensures forall d <- order :: Below(Synced(f, order).devices[d], Synced(f, order).archive)
    decreases |order|
  {
    if order == [] {
    } else {
      hide *;
      SyncedNext(f, order);
      var front, last := order[..|order| - 1], order[|order| - 1];
      VisitedAreBelow(groups, f, front);
      var before, after := Synced(f, front), Synced(f, order);
      SyncOne(groups, before, last);
      assert forall d <- front :: Below(after.devices[d], after.archive);
    }
  }

  lemma {:induction false} SecondRoundEquals(groups: iset<Peer>, f: Fleet, order: seq<Device>)
    requires FleetOk(groups, f) && forall d <- order :: d in f.devices
    requires forall d <- f.devices :: Below(f.devices[d], f.archive)
    ensures var f' := Synced(f, order);
            && FleetOk(groups, f') && f'.archive == f.archive
            && (forall d <- order :: f'.devices[d] == f.archive)
            && (forall d <- f.devices :: Below(f'.devices[d], f'.archive))
    decreases |order|
  {
    if order == [] {
    } else {
      hide *;
      SyncedNext(f, order);
      var front, last := order[..|order| - 1], order[|order| - 1];
      SecondRoundEquals(groups, f, front);
      var before, after := Synced(f, front), Synced(f, order);
      SyncOne(groups, before, last);
      assert forall d <- front :: after.devices[d] == f.archive;
    }
  }

  /** From any reachable state: let every device pull and push once, in any order and with repetitions,
      and then once more in any order. All devices then hold the same delete and revive times, contacts and accounts. */
  lemma TwoRoundsAgree(groups: iset<Peer>, devices: set<Device>, events: seq<Event>, f: Fleet, first: seq<Device>,
                       second: seq<Device>)
    requires Run(groups, NewFleet(devices), events, f)
    requires (forall d :: d in first <==> d in f.devices) && (forall d :: d in second <==> d in f.devices)
    ensures var f' := Synced(Synced(f, first), second);
            forall d <- f.devices :: f'.devices[d] == f'.archive
  {
    RunsStayWellFormed(groups, NewFleet(devices), events, f);
    VisitedAreBelow(groups, f, first);
    SecondRoundEquals(groups, Synced(f, first), second);
  }

  // ---- Synchronising at the same time ----

  /** Where a state's information comes from: a device's state or the archive, as they were when the exchange began. */
  datatype Source = DeviceState(device: Device) | ArchiveState

  datatype Exchange = PullBy(device: Device) | PushBy(device: Device)

  /** Which sources have flowed, with repetitions, to each device and to the archive. */
  datatype Flows = Flows(devices: map<Device, seq<Source>>, archive: seq<Source>)

  ghost predicate Among(devices: set<Device>, exchanges: seq<Exchange>) {
    forall x <- exchanges :: x.device in devices
  }

  /** Pulls and pushes in any interleaving: a device may push a state merged from an archive that was replaced since. */
  ghost function Exchanged(f: Fleet, exchanges: seq<Exchange>): Fleet
    requires Among(f.devices.Keys, exchanges)
    ensures Exchanged(f, exchanges).devices.Keys == f.devices.Keys
    decreases |exchanges|
  {
    if exchanges == [] then f else
    var before, x := Exchanged(f, exchanges[..|exchanges| - 1]), exchanges[|exchanges| - 1];
    Apply(before, if x.PullBy? then Pull(x.device) else Push(x.device))
  }

  function StartFlows(devices: set<Device>): Flows {
    Flows(map d | d in devices :: [DeviceState(d)], [ArchiveState])
  }

  function FlowsAfter(devices: set<Device>, exchanges: seq<Exchange>): (flows: Flows)
    requires forall x <- exchanges :: x.device in devices
    ensures flows.devices.Keys == devices
    decreases |exchanges|
  {
    if exchanges == [] then StartFlows(devices) else
    var before, x := FlowsAfter(devices, exchanges[..|exchanges| - 1]), exchanges[|exchanges| - 1];
    match x
    case PullBy(d) => before.(devices := before.devices[d := before.devices[d] + before.archive])
    case PushBy(d) => before.(archive := before.devices[d])
  }

  ghost predicate Known(devices: set<Device>, sources: seq<Source>) {
    forall s <- sources :: s.DeviceState? ==> s.device in devices
  }

  ghost function States(f: Fleet, sources: seq<Source>): seq<View>
    requires Known(f.devices.Keys, sources)
  {
    seq(|sources|, i requires 0 <= i < |sources| =>
      assert sources[i] in sources;
      if sources[i].DeviceState? then f.devices[sources[i].device] else f.archive)
  }

  /** A state is the join of its sources as they were at the start. */
  ghost predicate JoinOf(f: Fleet, sources: seq<Source>, v: View) {
    sources != [] && Known(f.devices.Keys, sources) && v == JoinAll(States(f, sources))
  }

  ghost predicate FlowsOk(f: Fleet, now: Fleet, flows: Flows) {
    && now.devices.Keys == f.devices.Keys == flows.devices.Keys
    && JoinOf(f, flows.archive, now.archive)
    && forall d <- f.devices :: JoinOf(f, flows.devices[d], now.devices[d])
  }

  lemma {:induction false} JoinAllConcat(groups: iset<Peer>, xs: seq<View>, ys: seq<View>)
    requires xs != [] && ys != []
    requires (forall v <- xs :: WellFormed(groups, v)) && forall v <- ys :: WellFormed(groups, v)
    ensures JoinAll(xs + ys) == Join(JoinAll(xs), JoinAll(ys))
  {
    var n := |ys| - 1;
    assert (xs + ys)[..|xs + ys| - 1] == xs + ys[..n] && (xs + ys)[|xs + ys| - 1] == ys[n];
    if |ys| == 1 {
      assert xs + ys[..n] == xs;
    } else {
      assert ys[n] in ys && forall v <- ys[..n] :: v in ys;
      JoinAllConcat(groups, xs, ys[..n]);
      JoinAllInClosedForm(groups, xs);
      JoinAllInClosedForm(groups, ys[..n]);
      ListsNone(groups, JoinAll(ys[..n]));
      hide WellFormed, Join, ListsNoGroup;
      JoinAssociates(groups, JoinAll(xs), JoinAll(ys[..n]), ys[n]);
    }
  }

  lemma StatesOk(groups: iset<Peer>, f: Fleet, sources: seq<Source>)
    requires FleetOk(groups, f) && Known(f.devices.Keys, sources)
    ensures forall v <- States(f, sources) :: WellFormed(groups, v)
  {
    hide WellFormed;
    forall i | 0 <= i < |sources| ensures WellFormed(groups, States(f, sources)[i]) {
      assert sources[i] in sources;
    }
  }

  lemma JoinOfBoth(groups: iset<Peer>, f: Fleet, xs: seq<Source>, v: View, ys: seq<Source>, w: View)
    requires FleetOk(groups, f) && JoinOf(f, xs, v) && JoinOf(f, ys, w)
    ensures JoinOf(f, xs + ys, Join(v, w))
  {
    StatesOk(groups, f, xs);
    StatesOk(groups, f, ys);
    assert States(f, xs + ys) == States(f, xs) + States(f, ys);
    hide WellFormed, FleetOk, Join, JoinAll;
    JoinAllConcat(groups, States(f, xs), States(f, ys));
  }

  lemma ExchangeKeepsFlows(groups: iset<Peer>, f: Fleet, exchanges: seq<Exchange>)
    requires FleetOk(groups, f) && Among(f.devices.Keys, exchanges) && exchanges != []
    requires var front := exchanges[..|exchanges| - 1];
             Among(f.devices.Keys, front) && FlowsOk(f, Exchanged(f, front), FlowsAfter(f.devices.Keys, front))
    ensures FlowsOk(f, Exchanged(f, exchanges), FlowsAfter(f.devices.Keys, exchanges))
  {
    hide FleetOk, JoinOf, Join;
    var front, x := exchanges[..|exchanges| - 1], exchanges[|exchanges| - 1];
    var before, flows := Exchanged(f, front), FlowsAfter(f.devices.Keys, front);
    assert x in exchanges;
    if x.PullBy? {
      JoinOfBoth(groups, f, flows.devices[x.device], before.devices[x.device], flows.archive, before.archive);
    }
  }

  /**
    Whatever the interleaving, every device and the archive hold exactly the join of the starting states whose
    information flowed to them.
   */
  lemma {:induction false} StatesFollowFlows(groups: iset<Peer>, f: Fleet, exchanges: seq<Exchange>)
    requires FleetOk(groups, f) && Among(f.devices.Keys, exchanges)
    ensures FlowsOk(f, Exchanged(f, exchanges), FlowsAfter(f.devices.Keys, exchanges))
    decreases |exchanges|
  {
    if exchanges == [] {
      assert States(f, [ArchiveState]) == [f.archive];
      assert forall d <- f.devices :: States(f, [DeviceState(d)]) == [f.devices[d]];
    } else {
      hide FleetOk, FlowsOk, Exchanged, FlowsAfter;
      StatesFollowFlows(groups, f, exchanges[..|exchanges| - 1]);
      ExchangeKeepsFlows(groups, f, exchanges);
    }
  }

  lemma SameSourcesSameStates(f: Fleet, xs: seq<Source>, ys: seq<Source>)
    requires Known(f.devices.Keys, xs) && Known(f.devices.Keys, ys) && forall s <- xs :: s in ys
    ensures forall v <- States(f, xs) :: v in States(f, ys)
  {
    forall i | 0 <= i < |xs| ensures States(f, xs)[i] in States(f, ys) {
      assert xs[i] in ys;
      var j :| 0 <= j < |ys| && ys[j] == xs[i];
      assert States(f, ys)[j] == States(f, xs)[i];
    }
  }

  lemma EqualFlowsAgree(groups: iset<Peer>, f: Fleet, exchanges: seq<Exchange>, d: Device, e: Device)
    requires FleetOk(groups, f) && Among(f.devices.Keys, exchanges) && d in f.devices && e in f.devices
    requires var flows := FlowsAfter(f.devices.Keys, exchanges).devices; forall s :: s in flows[d] <==> s in flows[e]
    ensures Exchanged(f, exchanges).devices[d] == Exchanged(f, exchanges).devices[e]
  {
    StatesFollowFlows(groups, f, exchanges);
    var flows := FlowsAfter(f.devices.Keys, exchanges).devices;
    assert JoinOf(f, flows[d], Exchanged(f, exchanges).devices[d]);
    assert JoinOf(f, flows[e], Exchanged(f, exchanges).devices[e]);
    hide Exchanged, FlowsAfter, FleetOk, FlowsOk, JoinAll, WellFormed;
    SameSourcesSameStates(f, flows[d], flows[e]);
    SameSourcesSameStates(f, flows[e], flows[d]);
    StatesOk(groups, f, flows[d]);
    AnyOrderAgrees(groups, States(f, flows[d]), States(f, flows[e]));
  }

  /** A fleet in which one source alone knows of a delete. */
  ghost function OneKnows(devices: set<Device>, source: Source): Fleet {
    var knowing := View(map["p" := 1], map[], {}, {}, {});
    Fleet(map d | d in devices :: if source == DeviceState(d) then knowing else EMPTY_VIEW,
          if source == ArchiveState then knowing else EMPTY_VIEW)
  }

  lemma OneKnowsOk(groups: iset<Peer>, devices: set<Device>, source: Source)
    ensures FleetOk(groups, OneKnows(devices, source)) && OneKnows(devices, source).devices.Keys == devices
  {
  }

  lemma KnowsIfFlowed(groups: iset<Peer>, devices: set<Device>, source: Source, sources: seq<Source>, v: View)
    requires JoinOf(OneKnows(devices, source), sources, v)
    ensures "p" in v.tombstones <==> source in sources
  {
    var f := OneKnows(devices, source);
    OneKnowsOk(groups, devices, source);
    StatesOk(groups, f, sources);
    JoinAllInClosedForm(groups, States(f, sources));
    var all := Tombs(States(f, sources));
    assert NewestOf(v.tombstones, all);
    forall i | 0 <= i < |all| ensures "p" in all[i] <==> sources[i] == source {
      assert sources[i] in sources;
    }
    hide WellFormed, FleetOk, JoinAll, JoinedAs, JoinOf, OneKnows, States, Tombs;
    if source in sources {
      var i :| 0 <= i < |sources| && sources[i] == source;
      assert "p" in all[i];
    }
    if "p" in v.tombstones {
      var i :| 0 <= i < |all| && "p" in all[i];
    }
  }

  /**
    The exact condition on a schedule: it makes two devices agree from every well-formed state if and only if the same
    starting states have flowed to both.
   */
  lemma ExchangesAgreeExactly(groups: iset<Peer>, devices: set<Device>, exchanges: seq<Exchange>, d: Device, e: Device)
    requires Among(devices, exchanges) && d in devices && e in devices
    ensures var flows := FlowsAfter(devices, exchanges).devices;
            (forall s :: s in flows[d] <==> s in flows[e]) <==>
            (forall f | FleetOk(groups, f) && f.devices.Keys == devices ::
               Exchanged(f, exchanges).devices[d] == Exchanged(f, exchanges).devices[e])
  {
    var flows := FlowsAfter(devices, exchanges).devices;
    hide FleetOk, Exchanged, FlowsAfter, OneKnows;
    forall f | FleetOk(groups, f) && f.devices.Keys == devices && forall s :: s in flows[d] <==> s in flows[e]
      ensures Exchanged(f, exchanges).devices[d] == Exchanged(f, exchanges).devices[e]
    {
      EqualFlowsAgree(groups, f, exchanges, d, e);
    }
    forall s | !(s in flows[d] <==> s in flows[e])
      ensures FleetOk(groups, OneKnows(devices, s)) && OneKnows(devices, s).devices.Keys == devices
      ensures var after := Exchanged(OneKnows(devices, s), exchanges); after.devices[d] != after.devices[e]
    {
      var f := OneKnows(devices, s);
      OneKnowsOk(groups, devices, s);
      StatesFollowFlows(groups, f, exchanges);
      KnowsIfFlowed(groups, devices, s, flows[d], Exchanged(f, exchanges).devices[d]);
      KnowsIfFlowed(groups, devices, s, flows[e], Exchanged(f, exchanges).devices[e]);
    }
  }

  /** Two devices that always pull before the other pushes, the second overwriting what the first uploaded. */
  function OverlappingRounds(a: Device, b: Device, n: nat): seq<Exchange> {
    if n == 0 then [] else OverlappingRounds(a, b, n - 1) + [PullBy(a), PullBy(b), PushBy(a), PushBy(b)]
  }

  lemma FlowsNext(devices: set<Device>, exchanges: seq<Exchange>, x: Exchange)
    requires (forall y <- exchanges :: y.device in devices) && x.device in devices
    ensures forall y <- exchanges + [x] :: y.device in devices
    ensures var before, after := FlowsAfter(devices, exchanges), FlowsAfter(devices, exchanges + [x]);
            after == match x
                     case PullBy(d) => before.(devices := before.devices[d := before.devices[d] + before.archive])
                     case PushBy(d) => before.(archive := before.devices[d])
  {
    assert (exchanges + [x])[..|exchanges|] == exchanges;
  }

  /**
    However often such rounds repeat, the second device never learns what the first knew: overlapping exchanges need not
    converge.
   */
  lemma {:induction false} OverlappingRoundsStarve(devices: set<Device>, a: Device, b: Device, n: nat)
    requires a in devices && b in devices && a != b
    ensures forall x <- OverlappingRounds(a, b, n) :: x.device in devices
    ensures var flows := FlowsAfter(devices, OverlappingRounds(a, b, n));
            DeviceState(a) !in flows.devices[b] && DeviceState(a) !in flows.archive
  {
    if n == 0 {
    } else {
      OverlappingRoundsStarve(devices, a, b, n - 1);
      var rounds := OverlappingRounds(a, b, n - 1);
      hide FlowsAfter;
      FlowsNext(devices, rounds, PullBy(a));
      FlowsNext(devices, rounds + [PullBy(a)], PullBy(b));
      FlowsNext(devices, rounds + [PullBy(a)] + [PullBy(b)], PushBy(a));
      FlowsNext(devices, rounds + [PullBy(a)] + [PullBy(b)] + [PushBy(a)], PushBy(b));
      assert OverlappingRounds(a, b, n) == rounds + [PullBy(a)] + [PullBy(b)] + [PushBy(a)] + [PushBy(b)];
    }
  }

  // ---- Blocked peers ----

  /**
    Exchanges lose no block and make none: a device blocks a peer afterwards if and only if a state that flowed to it
    did at the start.
   */
  lemma ExchangesKeepBlocks(groups: iset<Peer>, f: Fleet, exchanges: seq<Exchange>, d: Device, p: Peer)
    requires FleetOk(groups, f) && Among(f.devices.Keys, exchanges) && d in f.devices
    ensures var sources := FlowsAfter(f.devices.Keys, exchanges).devices[d];
            && DeviceState(d) in sources
            && Known(f.devices.Keys, sources)
            && (p in Exchanged(f, exchanges).devices[d].blocked <==> exists v <- States(f, sources) :: p in v.blocked)
  {
    StatesFollowFlows(groups, f, exchanges);
    OwnStateStays(f.devices.Keys, exchanges, d);
    var sources := FlowsAfter(f.devices.Keys, exchanges).devices[d];
    assert JoinOf(f, sources, Exchanged(f, exchanges).devices[d]);
    hide FleetOk, WellFormed, Exchanged, FlowsAfter, NewestOf;
    StatesOk(groups, f, sources);
    JoinAllInClosedForm(groups, States(f, sources));
  }

  lemma {:induction false} OwnStateStays(devices: set<Device>, exchanges: seq<Exchange>, d: Device)
    requires (forall x <- exchanges :: x.device in devices) && d in devices
    ensures DeviceState(d) in FlowsAfter(devices, exchanges).devices[d]
    decreases |exchanges|
  {
    if exchanges == [] {
    } else {
      OwnStateStays(devices, exchanges[..|exchanges| - 1], d);
    }
  }

  /** A block stands whatever is pulled. */
  lemma BlockStands(f: Fleet, d: Device, p: Peer)
    requires d in f.devices
    ensures p in Apply(Apply(f, Block(d, p)), Pull(d)).devices[d].blocked
  {
  }

  /**
    An unblocking does not travel: it stands after the next pull if and only if the archive does not block the peer.
   */
  lemma UnblockStandsIffArchiveAgrees(f: Fleet, d: Device, p: Peer)
    requires d in f.devices
    ensures p in Apply(Apply(f, Unblock(d, p)), Pull(d)).devices[d].blocked <==> p in f.archive.blocked
  {
  }

  // ---- seen_ids ----

  /** What `loadSeenIds` makes of the list: the last pair for an id counts. */
  ghost function SeenMap(seen: seq<(string, int)>): map<string, int> {
    if seen == [] then map[] else SeenMap(seen[..|seen| - 1])[seen[|seen| - 1].0 := seen[|seen| - 1].1]
  }

  lemma {:induction false} SeenMapOfConcat(a: seq<(string, int)>, b: seq<(string, int)>)
    ensures SeenMap(a + b) == SeenMap(a) + SeenMap(b)
  {
    if b == [] {
      assert a + b == a;
    } else {
      SeenMapOfConcat(a, b[..|b| - 1]);
      assert (a + b)[..|a + b| - 1] == a + b[..|b| - 1];
    }
  }

  /** The list of seen ids grows with every merge, by pairs it already has; as a map it is the union, and
      merging the same list again changes nothing. */
  lemma SeenIdsMergeAsMaps(local: seq<(string, int)>, remote: seq<(string, int)>, t: Times, r: Times)
    ensures var merged := MergedValue(t, r, SeenIds, Some(SeenList(local)), SeenList(remote));
            var again := MergedValue(t, r, SeenIds, Some(merged), SeenList(remote));
            && merged.SeenList? && again.SeenList?
            && SeenMap(merged.seen) == SeenMap(local) + SeenMap(remote)
            && SeenMap(again.seen) == SeenMap(merged.seen)
            && |again.seen| == |local| + 2 * |remote|
  {
    MergedSeen(local, remote, t, r);
    MergedSeen(local + remote, remote, t, r);
    SeenMapOfConcat(local, remote);
    SeenMapOfConcat(local + remote, remote);
    hide *;
    AddedAgain(SeenMap(local), SeenMap(remote));
  }

  lemma MergedSeen(local: seq<(string, int)>, remote: seq<(string, int)>, t: Times, r: Times)
    ensures MergedValue(t, r, SeenIds, Some(SeenList(local)), SeenList(remote)) == SeenList(local + remote)
  {
  }

  lemma AddedAgain(a: map<string, int>, b: map<string, int>)
    ensures a + b + b == a + b
  {
  }
}
