/**
  Merging a remote archive into local storage, `mergeKv` in `src/sdk/archive.ts`. JSON text is taken as the value it
  encodes.
 */
module Archive {
  import opened Wrappers
  import opened MessageStore

  type Peer = string
  type Times = map<Peer, nat>

  /** The archived storage keys. */
  datatype Key = Peers(id: Peer) | EdKeys(id: Peer) | Messages(id: Peer) | Contacts | ContactsV2 | SeenIds | Blocked

  datatype Account = Account(accountKey: Peer, deviceKeys: seq<string>)

  datatype Value =
    | Text(text: string)
    | PeerList(peers: seq<Peer>)
    | AccountList(accounts: seq<Account>)
    | SeenList(seen: seq<(string, int)>)
    | MessageList(messages: seq<Message>)

  type Kv = map<Key, Value>

  /** `Object.entries` of the remote key-value record. */
  type Entries = seq<(Key, Value)>

  // ---- Tombstones and revivals ----

  function At(times: Times, p: Peer): nat {
    if p in times then times[p] else 0
  }

  function Max(a: nat, b: nat): nat {
    if a < b then b else a
  }

  function Latest(local: Times, remote: Times): Times {
    map p | p in local.Keys + remote.Keys :: Max(At(local, p), At(remote, p))
  }

  /** The most recent event is a delete; equal timestamps count as revived. */
  predicate Tombstoned(tombstones: Times, revivals: Times, p: Peer) {
    p in tombstones && tombstones[p] > At(revivals, p)
  }

  predicate KeyTombstoned(tombstones: Times, revivals: Times, k: Key) {
    (k.Peers? || k.EdKeys? || k.Messages?) && Tombstoned(tombstones, revivals, k.id)
  }

  // ---- Lists ----

  /** A `Set` holds each string once, in order of first appearance. */
  function Unique(list: seq<string>): seq<string> {
    if list == [] then [] else
    var rest, x := Unique(list[..|list| - 1]), list[|list| - 1];
    if x in rest then rest else rest + [x]
  }

  function LivePeers(tombstones: Times, revivals: Times, list: seq<Peer>): seq<Peer> {
    if list == [] then [] else
    var rest, p := LivePeers(tombstones, revivals, list[..|list| - 1]), list[|list| - 1];
    if Tombstoned(tombstones, revivals, p) then rest else rest + [p]
  }

  predicate LiveAccount(tombstones: Times, revivals: Times, r: Account) {
    r.accountKey != "" && !Tombstoned(tombstones, revivals, r.accountKey)
  }

  function LiveAccounts(tombstones: Times, revivals: Times, list: seq<Account>): seq<Account> {
    if list == [] then [] else
    var rest, r := LiveAccounts(tombstones, revivals, list[..|list| - 1]), list[|list| - 1];
    if LiveAccount(tombstones, revivals, r) then rest + [r] else rest
  }

  function AddDevices(accounts: seq<Account>, r: Account): seq<Account> {
    if accounts == [] then [Account(r.accountKey, Unique(r.deviceKeys))]
    else if accounts[0].accountKey == r.accountKey
    then [Account(r.accountKey, Unique(accounts[0].deviceKeys + r.deviceKeys))] + accounts[1..]
    else [accounts[0]] + AddDevices(accounts[1..], r)
  }

  /** `byAccount` after some records: one entry per live account, its devices united. */
  function ByAccount(tombstones: Times, revivals: Times, records: seq<Account>): seq<Account> {
    if records == [] then [] else
    var rest, r := ByAccount(tombstones, revivals, records[..|records| - 1]), records[|records| - 1];
    if LiveAccount(tombstones, revivals, r) then AddDevices(rest, r) else rest
  }

  // ---- Messages ----

  /** `Map.set`: a known id keeps its place and takes the new message. */
  function PutById(messages: seq<Message>, m: Message): seq<Message> {
    if messages == [] then [m]
    else if messages[0].id == m.id then [m] + messages[1..]
    else [messages[0]] + PutById(messages[1..], m)
  }

  function LocalById(local: seq<Message>): seq<Message> {
    if local == [] then [] else
    var rest, m := LocalById(local[..|local| - 1]), local[|local| - 1];
    if m.id == "" then rest else PutById(rest, m)
  }

  function WithRemote(byId: seq<Message>, remote: seq<Message>): seq<Message> {
    if remote == [] then byId else
    var rest, m := WithRemote(byId, remote[..|remote| - 1]), remote[|remote| - 1];
    if m.id == "" || HasId(rest, m.id) then rest else rest + [m]
  }

  /** Stable insertion by timestamp. */
  function InsertByTime(sorted: seq<Message>, m: Message): seq<Message> {
    if sorted == [] then [m]
    else if sorted[|sorted| - 1].timestamp <= m.timestamp then sorted + [m]
    else InsertByTime(sorted[..|sorted| - 1], m) + [sorted[|sorted| - 1]]
  }

  /** `sort` by timestamp, which is stable. */
  function SortByTime(messages: seq<Message>): seq<Message> {
    if messages == [] then [] else
    InsertByTime(SortByTime(messages[..|messages| - 1]), messages[|messages| - 1])
  }

  function MergedMessages(local: seq<Message>, remote: seq<Message>): seq<Message> {
    SortByTime(WithRemote(LocalById(local), remote))
  }

  // ---- One key ----

  /** What `merge(k, v)` leaves under a key that holds `local`. Anything but two arrays is overwritten. */
  function MergedValue(tombstones: Times, revivals: Times, k: Key, local: Option<Value>, remote: Value): Value {
    if local.None? then remote else
    match (local.value, remote)
    case (MessageList(a), MessageList(b)) => MessageList(MergedMessages(a, b))
    case (PeerList(a), PeerList(b)) =>
      PeerList(if k == Contacts then LivePeers(tombstones, revivals, Unique(a + b)) else Unique(a + b))
    case (AccountList(a), AccountList(b)) => AccountList(ByAccount(tombstones, revivals, a + b))
    case (SeenList(a), SeenList(b)) => SeenList(a + b)   // pairs are compared by identity: none is ever dropped
    case _ => remote
  }

  function Get(kv: Kv, k: Key): Option<Value> {
    if k in kv then Some(kv[k]) else None
  }

  function MergedEntries(tombstones: Times, revivals: Times, kv: Kv, entries: Entries): Kv {
    if entries == [] then kv else
    var rest, (k, v) := MergedEntries(tombstones, revivals, kv, entries[..|entries| - 1]), entries[|entries| - 1];
    if KeyTombstoned(tombstones, revivals, k) then rest
    else rest[k := MergedValue(tombstones, revivals, k, Get(rest, k), v)]
  }

  /** The final pass over both contact lists. */
  function Refiltered(tombstones: Times, revivals: Times, kv: Kv): Kv {
    var kv1 := if Contacts in kv && kv[Contacts].PeerList?
               then kv[Contacts := PeerList(LivePeers(tombstones, revivals, kv[Contacts].peers))] else kv;
    if ContactsV2 in kv1 && kv1[ContactsV2].AccountList?
    then kv1[ContactsV2 := AccountList(LiveAccounts(tombstones, revivals, kv1[ContactsV2].accounts))] else kv1
  }

  // ---- Storage ----

  method MergeTimes(local: Times, remote: Times) returns (merged: Times)
    ensures merged == Latest(local, remote)
  {
    merged := local;
    var todo := remote.Keys;
    while todo != {}
      invariant todo <= remote.Keys
      invariant merged == map p | p in local.Keys + (remote.Keys - todo) ::
                            if p in remote.Keys - todo then Max(At(local, p), At(remote, p)) else At(local, p)
      decreases todo
    {
      var p :| p in todo;
      merged := merged[p := Max(At(merged, p), remote[p])];
      todo := todo - {p};
    }
  }

  method MergeMessages(local: seq<Message>, remote: seq<Message>) returns (merged: seq<Message>)
    ensures merged == MergedMessages(local, remote)
  {
    var byId: seq<Message> := [];
    var i := 0;
    while i < |local|
      invariant 0 <= i <= |local|
      invariant byId == LocalById(local[..i])
    {
      assert local[..i + 1][..i] == local[..i];
      if local[i].id != "" {
        byId := PutById(byId, local[i]);
      }
      i := i + 1;
    }
    assert local[..i] == local;
    i := 0;
    while i < |remote|
      invariant 0 <= i <= |remote|
      invariant byId == WithRemote(LocalById(local), remote[..i])
    {
      assert remote[..i + 1][..i] == remote[..i];
      if remote[i].id != "" && !HasId(byId, remote[i].id) {
        byId := byId + [remote[i]];
      }
      i := i + 1;
    }
    assert remote[..i] == remote;
    merged := SortByTime(byId);
  }

  method MergeAccounts(tombstones: Times, revivals: Times, records: seq<Account>) returns (byAccount: seq<Account>)
    ensures byAccount == ByAccount(tombstones, revivals, records)
  {
    byAccount := [];
    var i := 0;
    while i < |records|
      invariant 0 <= i <= |records|
      invariant byAccount == ByAccount(tombstones, revivals, records[..i])
    {
      assert records[..i + 1][..i] == records[..i];
      var r := records[i];
      if r.accountKey != "" && !Tombstoned(tombstones, revivals, r.accountKey) {
        byAccount := AddDevices(byAccount, r);
      }
      i := i + 1;
    }
    assert records[..i] == records;
  }

  class ArchiveStorage {
    var kv: Kv
    var tombstones: Times
    var revivals: Times

    constructor ()
      ensures kv == map[] && tombstones == map[] && revivals == map[]
    {
      kv, tombstones, revivals := map[], map[], map[];
    }

    /** Afterwards the id counts as deleted unless its revival is at least as new; no other id's standing changes. */
    method AddTombstone(p: Peer, now: nat)
      modifies this`tombstones
      ensures tombstones == old(tombstones)[p := now]
      ensures Tombstoned(tombstones, revivals, p) <==> now > At(revivals, p)
      ensures forall q | q != p :: Tombstoned(tombstones, revivals, q) <==> Tombstoned(old(tombstones), revivals, q)
    {
      tombstones := tombstones[p := now];
    }

    /** Afterwards the id counts as live unless its tombstone is newer; no other id's standing changes. */
    method AddRevival(p: Peer, now: nat)
      modifies this`revivals
      ensures revivals == old(revivals)[p := now]
      ensures Tombstoned(tombstones, revivals, p) <==> p in tombstones && tombstones[p] > now
      ensures forall q | q != p :: Tombstoned(tombstones, revivals, q) <==> Tombstoned(tombstones, old(revivals), q)
    {
      revivals := revivals[p := now];
    }

    /** `merge(k, v)`. */
    method MergeKey(k: Key, v: Value)
      modifies this`kv
      ensures kv == old(kv)[k := MergedValue(tombstones, revivals, k, Get(old(kv), k), v)]
    {
      if k !in kv {
        kv := kv[k := v];
        return;
      }
      match (kv[k], v)
      case (MessageList(a), MessageList(b)) =>
        var merged := MergeMessages(a, b);
        kv := kv[k := MessageList(merged)];
      case (PeerList(a), PeerList(b)) =>
        var union := Unique(a + b);
        kv := kv[k := PeerList(if k == Contacts then LivePeers(tombstones, revivals, union) else union)];
      case (AccountList(a), AccountList(b)) =>
        var merged := MergeAccounts(tombstones, revivals, a + b);
        kv := kv[k := AccountList(merged)];
      case (SeenList(a), SeenList(b)) =>
        kv := kv[k := SeenList(a + b)];
      case _ =>
        kv := kv[k := v];
    }

    method MergeKv(entries: Entries, remoteTombstones: Times, remoteRevivals: Times)
      modifies this
      ensures tombstones == Latest(old(tombstones), remoteTombstones)
      ensures revivals == Latest(old(revivals), remoteRevivals)
      ensures kv == Refiltered(tombstones, revivals, MergedEntries(tombstones, revivals, old(kv), entries))
    {
      tombstones := MergeTimes(tombstones, remoteTombstones);
      revivals := MergeTimes(revivals, remoteRevivals);
      var i := 0;
      while i < |entries|
        invariant 0 <= i <= |entries|
        invariant tombstones == Latest(old(tombstones), remoteTombstones)
        invariant revivals == Latest(old(revivals), remoteRevivals)
        invariant kv == MergedEntries(tombstones, revivals, old(kv), entries[..i])
      {
        assert entries[..i + 1][..i] == entries[..i];
        if !KeyTombstoned(tombstones, revivals, entries[i].0) {
          MergeKey(entries[i].0, entries[i].1);
        }
        i := i + 1;
      }
      assert entries[..i] == entries;
      if Contacts in kv && kv[Contacts].PeerList? {
        kv := kv[Contacts := PeerList(LivePeers(tombstones, revivals, kv[Contacts].peers))];
      }
      if ContactsV2 in kv && kv[ContactsV2].AccountList? {
        kv := kv[ContactsV2 := AccountList(LiveAccounts(tombstones, revivals, kv[ContactsV2].accounts))];
      }
    }
  }
}
