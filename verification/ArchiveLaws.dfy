/** What merging archives guarantees: message lists, untouched deleted peers, and agreement between devices. */
module ArchiveLaws {
  import opened Wrappers
  import opened Archive
  import opened MessageStore

  // ---- Message lists ----

  ghost predicate WellFormedList(messages: seq<Message>) {
    DistinctIds(messages) && forall m <- messages :: m.id != ""
  }

  ghost predicate Sorted(messages: seq<Message>) {
    forall i, j | 0 <= i < j < |messages| :: messages[i].timestamp <= messages[j].timestamp
  }

  lemma {:induction false} PutNewById(messages: seq<Message>, m: Message)
    requires !HasId(messages, m.id)
    ensures PutById(messages, m) == messages + [m]
  {
    if messages == [] {
    } else {
      assert messages[0] in messages;
      assert forall x <- messages[1..] :: x in messages;
      PutNewById(messages[1..], m);
    }
  }

  lemma {:induction false} LocalStays(local: seq<Message>)
    requires WellFormedList(local)
    ensures LocalById(local) == local
  {
    if local == [] {
    } else {
      LastIsNew(local);
      var front, m := local[..|local| - 1], local[|local| - 1];
      LocalStays(front);
      PutNewById(front, m);
      hide WellFormedList, HasId, PutById;
      assert local == front + [m];
    }
  }

  lemma {:induction false} RemoteAdds(byId: seq<Message>, remote: seq<Message>)
    requires WellFormedList(byId) && WellFormedList(remote)
    ensures var all := WithRemote(byId, remote);
            && WellFormedList(all)
            && (forall m :: m in all <==> m in byId || (m in remote && !HasId(byId, m.id)))
  {
    if remote == [] {
    } else {
      var front, m := remote[..|remote| - 1], remote[|remote| - 1];
      LastIsNew(remote);
      RemoteAdds(byId, front);
      var before := WithRemote(byId, front);
      assert HasId(before, m.id) <==> HasId(byId, m.id) by {
        assert forall x <- byId :: x in before;
      }
    }
  }

  lemma LastIsNew(list: seq<Message>)
    requires list != [] && WellFormedList(list)
    ensures var front, m := list[..|list| - 1], list[|list| - 1];
            && WellFormedList(front) && m.id != "" && !HasId(front, m.id)
            && (forall x :: x in list <==> x in front || x == m)
  {
    assert list == list[..|list| - 1] + [list[|list| - 1]];
    assert list[|list| - 1] in list;
  }

  lemma {:induction false} RemoteKnown(byId: seq<Message>, remote: seq<Message>)
    requires forall m <- remote :: HasId(byId, m.id)
    ensures WithRemote(byId, remote) == byId
  {
    if remote == [] {
    } else {
      assert remote[|remote| - 1] in remote;
      RemoteKnown(byId, remote[..|remote| - 1]);
    }
  }

  lemma {:induction false} InsertByTimeElements(sorted: seq<Message>, m: Message)
    ensures forall x :: x in InsertByTime(sorted, m) <==> x in sorted || x == m
    ensures |InsertByTime(sorted, m)| == |sorted| + 1
  {
    if sorted != [] && sorted[|sorted| - 1].timestamp > m.timestamp {
      var front := sorted[..|sorted| - 1];
      InsertByTimeElements(front, m);
      assert sorted == front + [sorted[|sorted| - 1]];
    }
  }

  lemma {:induction false} InsertByTimeSorts(sorted: seq<Message>, m: Message)
    requires Sorted(sorted)
    ensures Sorted(InsertByTime(sorted, m))
  {
    if sorted != [] && sorted[|sorted| - 1].timestamp > m.timestamp {
      var front, last := sorted[..|sorted| - 1], sorted[|sorted| - 1];
      InsertByTimeSorts(front, m);
      InsertByTimeElements(front, m);
      forall i | 0 <= i < |front| + 1 ensures InsertByTime(front, m)[i].timestamp <= last.timestamp {
        assert InsertByTime(front, m)[i] in InsertByTime(front, m);
      }
    }
  }

  lemma {:induction false} InsertByTimeDistinct(sorted: seq<Message>, m: Message)
    requires DistinctIds(sorted) && forall x <- sorted :: x.id != m.id
    ensures DistinctIds(InsertByTime(sorted, m))
  {
    if sorted != [] && sorted[|sorted| - 1].timestamp > m.timestamp {
      var front, last := sorted[..|sorted| - 1], sorted[|sorted| - 1];
      InsertByTimeDistinct(front, m);
      InsertByTimeElements(front, m);
      forall i | 0 <= i < |front| + 1 ensures InsertByTime(front, m)[i].id != last.id {
        assert InsertByTime(front, m)[i] in InsertByTime(front, m);
      }
    }
  }

  lemma {:induction false} SortByTimeElements(messages: seq<Message>)
    ensures forall x :: x in SortByTime(messages) <==> x in messages
  {
    if messages == [] {
    } else {
      var front := messages[..|messages| - 1];
      SortByTimeElements(front);
      InsertByTimeElements(SortByTime(front), messages[|messages| - 1]);
      assert messages == front + [messages[|messages| - 1]];
    }
  }

  lemma {:induction false} SortByTimeSorts(messages: seq<Message>)
    ensures Sorted(SortByTime(messages))
  {
    if messages == [] {
    } else {
      SortByTimeSorts(messages[..|messages| - 1]);
      InsertByTimeSorts(SortByTime(messages[..|messages| - 1]), messages[|messages| - 1]);
    }
  }

  lemma {:induction false} SortByTimeDistinct(messages: seq<Message>)
    requires DistinctIds(messages)
    ensures DistinctIds(SortByTime(messages))
  {
    if messages == [] {
    } else {
      var front := messages[..|messages| - 1];
      SortByTimeDistinct(front);
      SortByTimeElements(front);
      InsertByTimeDistinct(SortByTime(front), messages[|messages| - 1]);
    }
  }

  lemma {:induction false} SortKeepsSorted(messages: seq<Message>)
    requires Sorted(messages)
    ensures SortByTime(messages) == messages
  {
    if messages == [] {
    } else {
      SortKeepsSorted(messages[..|messages| - 1]);
    }
  }

  /** Merging two well-formed lists: every id of either once, in timestamp order, the local copy where both
      have one; and merging the same remote list again changes nothing. */
  lemma MergedMessagesOk(local: seq<Message>, remote: seq<Message>)
    requires WellFormedList(local) && WellFormedList(remote)
    ensures var merged := MergedMessages(local, remote);
            && WellFormedList(merged)
            && Sorted(merged)
            && (forall id :: HasId(merged, id) <==> HasId(local, id) || HasId(remote, id))
            && (forall m <- local :: m in merged)
            && (forall m <- merged :: m in local || m in remote)
            && MergedMessages(merged, remote) == merged
  {
    var all, merged := WithRemote(LocalById(local), remote), MergedMessages(local, remote);
    LocalStays(local);
    RemoteAdds(local, remote);
    SortByTimeElements(all);
    SortByTimeSorts(all);
    SortByTimeDistinct(all);
    LocalStays(merged);
    forall m <- remote ensures HasId(merged, m.id) {
      if HasId(local, m.id) {
        var x :| x in local && x.id == m.id;
        assert x in merged;
      } else {
        assert m in merged;
      }
    }
    RemoteKnown(merged, remote);
    SortKeepsSorted(merged);
  }

  lemma LastIsDistinct(list: seq<Message>)
    requires list != [] && DistinctIds(list)
    ensures var front, m := list[..|list| - 1], list[|list| - 1];
            DistinctIds(front) && !HasId(front, m.id) && forall x :: x in list <==> x in front || x == m
  {
    assert list == list[..|list| - 1] + [list[|list| - 1]];
  }

  lemma {:induction false} LocalByIdElements(local: seq<Message>)
    requires DistinctIds(local)
    ensures forall x :: x in LocalById(local) <==> x in local && x.id != ""
  {
    if local == [] {
    } else {
      LastIsDistinct(local);
      var front, m := local[..|local| - 1], local[|local| - 1];
      LocalByIdElements(front);
      if m.id != "" {
        PutNewById(LocalById(front), m);
      }
      hide DistinctIds, PutById;
    }
  }

  lemma {:induction false} WithRemoteElements(byId: seq<Message>, remote: seq<Message>)
    requires DistinctIds(remote)
    ensures forall x :: x in WithRemote(byId, remote) <==>
                          x in byId || (x in remote && x.id != "" && !HasId(byId, x.id))
  {
    if remote == [] {
    } else {
      LastIsDistinct(remote);
      var front, m := remote[..|remote| - 1], remote[|remote| - 1];
      WithRemoteElements(byId, front);
      hide DistinctIds;
      assert HasId(WithRemote(byId, front), m.id) ==> HasId(byId, m.id);
    }
  }

  /** Of lists without repeated ids: every local message that has an id, and each remote one whose id is not local. */
  lemma MergedElements(local: seq<Message>, remote: seq<Message>)
    requires DistinctIds(local) && DistinctIds(remote)
    ensures forall x :: x in MergedMessages(local, remote) <==>
                          x.id != "" && (x in local || (x in remote && !HasId(local, x.id)))
  {
    LocalByIdElements(local);
    WithRemoteElements(LocalById(local), remote);
    SortByTimeElements(WithRemote(LocalById(local), remote));
    forall x: Message | x.id != "" ensures HasId(LocalById(local), x.id) <==> HasId(local, x.id) {
    }
    hide MergedMessages, LocalById, WithRemote, SortByTime;
    assert MergedMessages(local, remote) == SortByTime(WithRemote(LocalById(local), remote)) by {
      MergedIs(local, remote);
    }
  }

  lemma MergedIs(local: seq<Message>, remote: seq<Message>)
    ensures MergedMessages(local, remote) == SortByTime(WithRemote(LocalById(local), remote))
  {
  }

  lemma {:induction false} PutByIdDistinct(messages: seq<Message>, m: Message)
    requires DistinctIds(messages)
    ensures DistinctIds(PutById(messages, m))
    ensures forall x <- PutById(messages, m) :: x == m || x in messages
  {
    if messages == [] {
    } else {
      var rest := PutById(messages[1..], m);
      PutByIdDistinct(messages[1..], m);
      if messages[0].id != m.id {
        forall x <- rest ensures x.id != messages[0].id {
          if x != m {
            var i :| 0 <= i < |messages[1..]| && messages[1..][i] == x;
          }
        }
      }
    }
  }

  lemma {:induction false} LocalByIdDistinct(local: seq<Message>)
    ensures DistinctIds(LocalById(local))
  {
    if local == [] {
    } else {
      LocalByIdDistinct(local[..|local| - 1]);
      PutByIdDistinct(LocalById(local[..|local| - 1]), local[|local| - 1]);
    }
  }

  lemma {:induction false} WithRemoteDistinct(byId: seq<Message>, remote: seq<Message>)
    requires DistinctIds(byId)
    ensures DistinctIds(WithRemote(byId, remote))
  {
    if remote == [] {
    } else {
      WithRemoteDistinct(byId, remote[..|remote| - 1]);
    }
  }

  /** Merging leaves each id once even when a list it is given repeats one. */
  lemma MergedIdsDistinct(local: seq<Message>, remote: seq<Message>)
    ensures DistinctIds(MergedMessages(local, remote))
  {
    LocalByIdDistinct(local);
    WithRemoteDistinct(LocalById(local), remote);
    SortByTimeDistinct(WithRemote(LocalById(local), remote));
  }

  // ---- Whole stores ----

  datatype Store = Store(kv: Kv, tombstones: Times, revivals: Times)

  /** The effect of `mergeKv` on a store, as `ArchiveStorage.MergeKv` computes it. */
  function MergeStore(s: Store, entries: Entries, remoteTombstones: Times, remoteRevivals: Times): Store {
    var t, r := Latest(s.tombstones, remoteTombstones), Latest(s.revivals, remoteRevivals);
    Store(Refiltered(t, r, MergedEntries(t, r, s.kv, entries)), t, r)
  }

  /** The entries are the archive of a key-value store: each key once, with its value. */
  ghost predicate Lists(entries: Entries, kv: Kv) {
    && (forall i, j | 0 <= i < j < |entries| :: entries[i].0 != entries[j].0)
    && (forall i | 0 <= i < |entries| :: entries[i].0 in kv && kv[entries[i].0] == entries[i].1)
    && (forall k <- kv :: exists i :: 0 <= i < |entries| && entries[i].0 == k)
  }

  ghost predicate Carries(entries: Entries, k: Key) {
    exists i :: 0 <= i < |entries| && entries[i].0 == k
  }

  lemma {:induction false} MergedEntriesAt(t: Times, r: Times, kv: Kv, entries: Entries, k: Key, i: nat)
    requires forall i, j | 0 <= i < j < |entries| :: entries[i].0 != entries[j].0
    requires i < |entries| ==> entries[i].0 == k
    requires i >= |entries| ==> !Carries(entries, k)
    ensures var after := MergedEntries(t, r, kv, entries);
            Get(after, k) == if i < |entries| && !KeyTombstoned(t, r, k)
                             then Some(MergedValue(t, r, k, Get(kv, k), entries[i].1)) else Get(kv, k)
    decreases |entries|
  {
    if entries == [] {
    } else {
      var front, last := entries[..|entries| - 1], |entries| - 1;
      assert forall j | 0 <= j < last :: front[j] == entries[j];
      if i == last {
        assert !Carries(front, k);
        MergedEntriesAt(t, r, kv, front, k, last);
      } else {
        assert entries[last].0 != k;
        MergedEntriesAt(t, r, kv, front, k, if i < last then i else last);
      }
    }
  }

  /**
    Merging a whole store, key by key: a deleted peer's keys keep their local state, any other key is merged or copied.
   */
  lemma MergeStoreAt(s: Store, t: Store, entries: Entries, k: Key)
    requires Lists(entries, t.kv) && k != Contacts && k != ContactsV2
    ensures var m := MergeStore(s, entries, t.tombstones, t.revivals);
            Get(m.kv, k) == if k in t.kv && !KeyTombstoned(m.tombstones, m.revivals, k)
                            then Some(MergedValue(m.tombstones, m.revivals, k, Get(s.kv, k), t.kv[k])) else Get(s.kv, k)
  {
    var m := MergeStore(s, entries, t.tombstones, t.revivals);
    if k in t.kv {
      var i :| 0 <= i < |entries| && entries[i].0 == k;
      MergedEntriesAt(m.tombstones, m.revivals, s.kv, entries, k, i);
    } else {
      MergedEntriesAt(m.tombstones, m.revivals, s.kv, entries, k, |entries|);
    }
  }

  /** No message, routing key or identity key of a deleted peer is added or changed; a live conversation
      both sides hold as well-formed lists is merged message by message. */
  lemma ConversationsAfterMerge(s: Store, t: Store, entries: Entries, p: Peer)
    requires Lists(entries, t.kv)
    ensures var m := MergeStore(s, entries, t.tombstones, t.revivals);
            && (Tombstoned(m.tombstones, m.revivals, p) ==>
                  && Get(m.kv, Messages(p)) == Get(s.kv, Messages(p))
                  && Get(m.kv, Peers(p)) == Get(s.kv, Peers(p))
                  && Get(m.kv, EdKeys(p)) == Get(s.kv, EdKeys(p)))
            && (!Tombstoned(m.tombstones, m.revivals, p) && Messages(p) in s.kv && Messages(p) in t.kv
                && s.kv[Messages(p)].MessageList? && t.kv[Messages(p)].MessageList? ==>
                  Get(m.kv, Messages(p)) ==
                    Some(MessageList(MergedMessages(s.kv[Messages(p)].messages, t.kv[Messages(p)].messages))))
  {
    MergeStoreAt(s, t, entries, Messages(p));
    MergeStoreAt(s, t, entries, Peers(p));
    MergeStoreAt(s, t, entries, EdKeys(p));
  }

  // ---- Contacts ----

  lemma {:induction false} UniqueElements(list: seq<string>)
    ensures forall x :: x in Unique(list) <==> x in list
  {
    if list == [] {
    } else {
      UniqueElements(list[..|list| - 1]);
      assert list == list[..|list| - 1] + [list[|list| - 1]];
    }
  }

  lemma {:induction false} LivePeersElements(t: Times, r: Times, list: seq<Peer>)
    ensures forall p :: p in LivePeers(t, r, list) <==> p in list && !Tombstoned(t, r, p)
  {
    if list == [] {
    } else {
      LivePeersElements(t, r, list[..|list| - 1]);
      assert list == list[..|list| - 1] + [list[|list| - 1]];
    }
  }

  ghost function KeysOf(accounts: seq<Account>): set<Peer> {
    set a | a in accounts && a.accountKey != "" :: a.accountKey
  }

  lemma KeysOfConcat(a: seq<Account>, b: seq<Account>)
    ensures KeysOf(a + b) == KeysOf(a) + KeysOf(b)
  {
  }

  lemma {:induction false} LiveAccountsKeys(t: Times, r: Times, list: seq<Account>)
    ensures KeysOf(LiveAccounts(t, r, list)) == set k | k in KeysOf(list) && !Tombstoned(t, r, k)
  {
    if list == [] {
    } else {
      var front, last := list[..|list| - 1], list[|list| - 1];
      LiveAccountsKeys(t, r, front);
      assert list == front + [last];
      KeysOfConcat(front, [last]);
      KeysOfConcat(LiveAccounts(t, r, front), [last]);
    }
  }

  lemma {:induction false} AddDevicesKeys(accounts: seq<Account>, a: Account)
    requires a.accountKey != ""
    ensures KeysOf(AddDevices(accounts, a)) == KeysOf(accounts) + {a.accountKey}
  {
    if accounts == [] {
    } else {
      AddDevicesKeys(accounts[1..], a);
      assert accounts == [accounts[0]] + accounts[1..];
      KeysOfConcat([accounts[0]], accounts[1..]);
      KeysOfConcat([accounts[0]], AddDevices(accounts[1..], a));
      KeysOfConcat([Account(a.accountKey, Unique(accounts[0].deviceKeys + a.deviceKeys))], accounts[1..]);
    }
  }

  lemma {:induction false} ByAccountKeys(t: Times, r: Times, records: seq<Account>)
    ensures KeysOf(ByAccount(t, r, records)) == set k | k in KeysOf(records) && !Tombstoned(t, r, k)
  {
    if records == [] {
    } else {
      var front, last := records[..|records| - 1], records[|records| - 1];
      ByAccountKeys(t, r, front);
      assert records == front + [last];
      KeysOfConcat(front, [last]);
      if LiveAccount(t, r, last) {
        AddDevicesKeys(ByAccount(t, r, front), last);
      }
    }
  }

  // ---- The replicated state ----

  /** What devices must agree on: delete and revive times, the contact set, the account keys and the blocked peers. */
  datatype View = View(
    tombstones: Times, revivals: Times, contacts: set<Peer>, accounts: set<Peer>, blocked: set<Peer>)

  ghost predicate Typed(kv: Kv) {
    && (Contacts in kv ==> kv[Contacts].PeerList?)
    && (ContactsV2 in kv ==> kv[ContactsV2].AccountList?)
    && (Blocked in kv ==> kv[Blocked].PeerList?)
  }

  ghost function PeerSet(v: Option<Value>): set<Peer> {
    if v.Some? && v.value.PeerList? then set p <- v.value.peers else {}
  }

  ghost function AccountSet(v: Option<Value>): set<Peer> {
    if v.Some? && v.value.AccountList? then KeysOf(v.value.accounts) else {}
  }

  ghost function ViewOf(s: Store): View {
    View(s.tombstones, s.revivals, PeerSet(Get(s.kv, Contacts)), AccountSet(Get(s.kv, ContactsV2)),
         PeerSet(Get(s.kv, Blocked)))
  }

  ghost function Live(t: Times, r: Times, members: set<Peer>): set<Peer> {
    set p | p in members && !Tombstoned(t, r, p)
  }

  /** Merging, on views. */
  ghost function Join(a: View, b: View): View {
    var t, r := Latest(a.tombstones, b.tombstones), Latest(a.revivals, b.revivals);
    View(t, r, Live(t, r, a.contacts + b.contacts), Live(t, r, a.accounts + b.accounts), a.blocked + b.blocked)
  }

  lemma MergedContacts(t: Times, r: Times, local: Option<Value>, remote: Option<Value>)
    requires (local.Some? ==> local.value.PeerList?) && (remote.Some? ==> remote.value.PeerList?)
    ensures var merged := if remote.Some? then Some(MergedValue(t, r, Contacts, local, remote.value)) else local;
            && (merged.Some? ==> merged.value.PeerList?)
            && (merged.Some? ==>
                  (set p <- LivePeers(t, r, merged.value.peers)) == Live(t, r, PeerSet(local) + PeerSet(remote)))
            && (merged.None? ==> Live(t, r, PeerSet(local) + PeerSet(remote)) == {})
  {
    var merged := if remote.Some? then Some(MergedValue(t, r, Contacts, local, remote.value)) else local;
    if merged.Some? {
      LivePeersElements(t, r, merged.value.peers);
      if local.Some? && remote.Some? {
        UniqueElements(local.value.peers + remote.value.peers);
        LivePeersElements(t, r, Unique(local.value.peers + remote.value.peers));
      }
    }
  }

  lemma MergedAccounts(t: Times, r: Times, local: Option<Value>, remote: Option<Value>)
    requires (local.Some? ==> local.value.AccountList?) && (remote.Some? ==> remote.value.AccountList?)
    ensures var merged := if remote.Some? then Some(MergedValue(t, r, ContactsV2, local, remote.value)) else local;
            && (merged.Some? ==> merged.value.AccountList?)
            && (merged.Some? ==>
                  KeysOf(LiveAccounts(t, r, merged.value.accounts)) ==
                    Live(t, r, AccountSet(local) + AccountSet(remote)))
            && (merged.None? ==> Live(t, r, AccountSet(local) + AccountSet(remote)) == {})
  {
    var merged := if remote.Some? then Some(MergedValue(t, r, ContactsV2, local, remote.value)) else local;
    if merged.Some? {
      LiveAccountsKeys(t, r, merged.value.accounts);
      if local.Some? && remote.Some? {
        KeysOfConcat(local.value.accounts, remote.value.accounts);
        ByAccountKeys(t, r, local.value.accounts + remote.value.accounts);
      }
    }
  }

  lemma EntryIndex(entries: Entries, kv: Kv, k: Key) returns (i: nat)
    requires Lists(entries, kv)
    ensures i < |entries| <==> k in kv
    ensures i < |entries| ==> entries[i] == (k, kv[k])
    ensures i >= |entries| ==> !Carries(entries, k)
  {
    if k in kv {
      i :| 0 <= i < |entries| && entries[i].0 == k;
    } else {
      i := |entries|;
    }
  }

  lemma ContactsAfterMerge(s: Store, t: Store, entries: Entries)
    requires Typed(s.kv) && Typed(t.kv) && Lists(entries, t.kv)
    ensures var m := MergeStore(s, entries, t.tombstones, t.revivals);
            && (Contacts in m.kv ==> m.kv[Contacts].PeerList?)
            && PeerSet(Get(m.kv, Contacts)) ==
               Live(m.tombstones, m.revivals, PeerSet(Get(s.kv, Contacts)) + PeerSet(Get(t.kv, Contacts)))
  {
    var m := MergeStore(s, entries, t.tombstones, t.revivals);
    var i := EntryIndex(entries, t.kv, Contacts);
    MergedEntriesAt(m.tombstones, m.revivals, s.kv, entries, Contacts, i);
    MergedContacts(m.tombstones, m.revivals, Get(s.kv, Contacts), Get(t.kv, Contacts));
    hide MergedEntries, MergedValue, LivePeers, LiveAccounts, Live, Lists, Tombstoned, Latest;
  }

  lemma AccountsAfterMerge(s: Store, t: Store, entries: Entries)
    requires Typed(s.kv) && Typed(t.kv) && Lists(entries, t.kv)
    ensures var m := MergeStore(s, entries, t.tombstones, t.revivals);
            && (ContactsV2 in m.kv ==> m.kv[ContactsV2].AccountList?)
            && AccountSet(Get(m.kv, ContactsV2)) ==
               Live(m.tombstones, m.revivals, AccountSet(Get(s.kv, ContactsV2)) + AccountSet(Get(t.kv, ContactsV2)))
  {
    var m := MergeStore(s, entries, t.tombstones, t.revivals);
    var i := EntryIndex(entries, t.kv, ContactsV2);
    MergedEntriesAt(m.tombstones, m.revivals, s.kv, entries, ContactsV2, i);
    MergedAccounts(m.tombstones, m.revivals, Get(s.kv, ContactsV2), Get(t.kv, ContactsV2));
    hide MergedEntries, MergedValue, LivePeers, LiveAccounts, Live, Lists, Tombstoned, Latest, KeysOf;
  }

  ghost function AccountsOf(v: Option<Value>): seq<Account> {
    if v.Some? && v.value.AccountList? then v.value.accounts else []
  }

  ghost function DevicesOf(accounts: seq<Account>, k: Peer): set<string> {
    set a, d | a in accounts && a.accountKey == k && d in a.deviceKeys :: d
  }

  lemma DevicesOfConcat(a: seq<Account>, b: seq<Account>, k: Peer)
    ensures DevicesOf(a + b, k) == DevicesOf(a, k) + DevicesOf(b, k)
  {
  }

  lemma DevicesOfOne(a: Account, k: Peer)
    ensures DevicesOf([a], k) == if a.accountKey == k then set d <- a.deviceKeys else {}
  {
  }

  lemma {:induction false} AddDevicesUnites(accounts: seq<Account>, a: Account, k: Peer)
    ensures DevicesOf(AddDevices(accounts, a), k) == DevicesOf(accounts, k) + DevicesOf([a], k)
  {
    DevicesOfOne(a, k);
    if accounts == [] {
      UniqueElements(a.deviceKeys);
      DevicesOfOne(Account(a.accountKey, Unique(a.deviceKeys)), k);
    } else {
      var rest, both := accounts[1..], Unique(accounts[0].deviceKeys + a.deviceKeys);
      UniqueElements(accounts[0].deviceKeys + a.deviceKeys);
      AddDevicesUnites(rest, a, k);
      assert accounts == [accounts[0]] + rest;
      DevicesOfConcat([accounts[0]], rest, k);
      DevicesOfConcat([accounts[0]], AddDevices(rest, a), k);
      DevicesOfConcat([Account(a.accountKey, both)], rest, k);
      DevicesOfOne(accounts[0], k);
      DevicesOfOne(Account(a.accountKey, both), k);
      hide DevicesOf, Unique;
    }
  }

  lemma {:induction false} ByAccountUnites(t: Times, r: Times, records: seq<Account>, k: Peer)
    requires k != ""
    ensures DevicesOf(ByAccount(t, r, records), k) == if Tombstoned(t, r, k) then {} else DevicesOf(records, k)
  {
    if records == [] {
    } else {
      var front, last := records[..|records| - 1], records[|records| - 1];
      ByAccountUnites(t, r, front, k);
      assert records == front + [last];
      DevicesOfConcat(front, [last], k);
      DevicesOfOne(last, k);
      AddDevicesUnites(ByAccount(t, r, front), last, k);
      hide DevicesOf, Tombstoned, AddDevices;
    }
  }

  lemma {:induction false} LiveAccountsDevices(t: Times, r: Times, list: seq<Account>, k: Peer)
    requires k != ""
    ensures DevicesOf(LiveAccounts(t, r, list), k) == if Tombstoned(t, r, k) then {} else DevicesOf(list, k)
  {
    if list == [] {
    } else {
      var front, last := list[..|list| - 1], list[|list| - 1];
      LiveAccountsDevices(t, r, front, k);
      assert list == front + [last];
      DevicesOfConcat(front, [last], k);
      DevicesOfConcat(LiveAccounts(t, r, front), [last], k);
      DevicesOfOne(last, k);
      hide DevicesOf, Tombstoned;
    }
  }

  /** A live account has the devices of both sides after a merge, a deleted one has none. */
  lemma DevicesAfterMerge(s: Store, t: Store, entries: Entries, k: Peer)
    requires Typed(s.kv) && Typed(t.kv) && Lists(entries, t.kv) && k != ""
    ensures var m := MergeStore(s, entries, t.tombstones, t.revivals);
            DevicesOf(AccountsOf(Get(m.kv, ContactsV2)), k) ==
              if Tombstoned(m.tombstones, m.revivals, k) then {}
              else DevicesOf(AccountsOf(Get(s.kv, ContactsV2)), k) + DevicesOf(AccountsOf(Get(t.kv, ContactsV2)), k)
  {
    var m := MergeStore(s, entries, t.tombstones, t.revivals);
    var local, remote := Get(s.kv, ContactsV2), Get(t.kv, ContactsV2);
    var i := EntryIndex(entries, t.kv, ContactsV2);
    MergedEntriesAt(m.tombstones, m.revivals, s.kv, entries, ContactsV2, i);
    MergedDevices(m.tombstones, m.revivals, local, remote, k);
    hide MergedEntries, MergedValue, LivePeers, LiveAccounts, DevicesOf, Lists, Tombstoned, Latest;
  }

  lemma MergedDevices(t: Times, r: Times, local: Option<Value>, remote: Option<Value>, k: Peer)
    requires (local.Some? ==> local.value.AccountList?) && (remote.Some? ==> remote.value.AccountList?) && k != ""
    ensures var merged := if remote.Some? then Some(MergedValue(t, r, ContactsV2, local, remote.value)) else local;
            && (merged.Some? ==> merged.value.AccountList?)
            && DevicesOf(LiveAccounts(t, r, AccountsOf(merged)), k) ==
                 if Tombstoned(t, r, k) then {}
                 else DevicesOf(AccountsOf(local), k) + DevicesOf(AccountsOf(remote), k)
  {
    var merged := if remote.Some? then Some(MergedValue(t, r, ContactsV2, local, remote.value)) else local;
    ByAccountUnites(t, r, AccountsOf(local) + AccountsOf(remote), k);
    DevicesOfConcat(AccountsOf(local), AccountsOf(remote), k);
    LiveAccountsDevices(t, r, AccountsOf(merged), k);
    assert DevicesOf([], k) == {};
    hide LiveAccounts, ByAccount, LivePeers, DevicesOf, Tombstoned;
  }

  /** Blocked peers are united, deleted or not. */
  lemma BlockedAfterMerge(s: Store, t: Store, entries: Entries)
    requires Typed(s.kv) && Typed(t.kv) && Lists(entries, t.kv)
    ensures var m := MergeStore(s, entries, t.tombstones, t.revivals);
            && (Blocked in m.kv ==> m.kv[Blocked].PeerList?)
            && PeerSet(Get(m.kv, Blocked)) == PeerSet(Get(s.kv, Blocked)) + PeerSet(Get(t.kv, Blocked))
  {
    MergeStoreAt(s, t, entries, Blocked);
    if Blocked in s.kv && Blocked in t.kv {
      UniqueElements(s.kv[Blocked].peers + t.kv[Blocked].peers);
    }
    hide MergedEntries, Refiltered, Lists, Tombstoned, Latest, Unique, LivePeers;
  }

  /** A peer's routing and identity keys: unless it is deleted, the remote copy wins. */
  lemma KeysAfterMerge(s: Store, t: Store, entries: Entries, p: Peer, k: Key)
    requires Lists(entries, t.kv) && (k == Peers(p) || k == EdKeys(p))
    requires k in t.kv && t.kv[k].Text?
    ensures var m := MergeStore(s, entries, t.tombstones, t.revivals);
            Get(m.kv, k) == if Tombstoned(m.tombstones, m.revivals, p) then Get(s.kv, k) else Some(t.kv[k])
  {
    MergeStoreAt(s, t, entries, k);
    hide MergedEntries, Refiltered, Lists, Tombstoned, Latest;
  }

  /** On views, `mergeKv` is `Join`, whatever order the entries come in. */
  lemma MergeIsJoin(s: Store, t: Store, entries: Entries)
    requires Typed(s.kv) && Typed(t.kv) && Lists(entries, t.kv)
    ensures var m := MergeStore(s, entries, t.tombstones, t.revivals);
            Typed(m.kv) && ViewOf(m) == Join(ViewOf(s), ViewOf(t))
  {
    hide Refiltered, MergedEntries, Lists, PeerSet, AccountSet, Live;
    ContactsAfterMerge(s, t, entries);
    AccountsAfterMerge(s, t, entries);
    BlockedAfterMerge(s, t, entries);
  }

  // ---- Join laws ----

  ghost predicate Revived(v: View, p: Peer) {
    p in v.revivals && v.revivals[p] >= At(v.tombstones, p)
  }

  /**
    Every revived peer is listed, and no deleted one is. Some ids are revived and deleted but never listed: groups,
    whose messages are archived like a contact's.
   */
  ghost predicate WellFormed(groups: iset<Peer>, v: View) {
    && (forall p :: Revived(v, p) && p !in groups ==> p in v.contacts && p in v.accounts)
    && (forall p :: Tombstoned(v.tombstones, v.revivals, p) ==> p !in v.contacts && p !in v.accounts)
    && ListsNoGroup(groups, v)
  }

  ghost predicate ListsNoGroup(groups: iset<Peer>, v: View) {
    forall p <- groups :: p !in v.contacts && p !in v.accounts
  }

  lemma JoinCommutes(a: View, b: View)
    ensures Join(a, b) == Join(b, a)
  {
    assert Latest(a.tombstones, b.tombstones) == Latest(b.tombstones, a.tombstones);
    assert Latest(a.revivals, b.revivals) == Latest(b.revivals, a.revivals);
    assert a.contacts + b.contacts == b.contacts + a.contacts && a.accounts + b.accounts == b.accounts + a.accounts;
    assert a.blocked + b.blocked == b.blocked + a.blocked;
  }

  /** Merging with itself changes a state exactly when some deleted peer is still listed. */
  lemma JoinIdempotent(v: View)
    ensures Join(v, v) == v <==>
            forall p :: Tombstoned(v.tombstones, v.revivals, p) ==> p !in v.contacts && p !in v.accounts
  {
    assert Latest(v.tombstones, v.tombstones) == v.tombstones && Latest(v.revivals, v.revivals) == v.revivals;
    var j := Join(v, v);
    assert forall p :: p in j.contacts <==> p in v.contacts && !Tombstoned(v.tombstones, v.revivals, p);
    assert forall p :: p in j.accounts <==> p in v.accounts && !Tombstoned(v.tombstones, v.revivals, p);
  }

  lemma JoinKeepsWellFormed(groups: iset<Peer>, a: View, b: View)
    requires WellFormed(groups, a) && WellFormed(groups, b)
    ensures WellFormed(groups, Join(a, b))
  {
    var j := Join(a, b);
    forall p | Revived(j, p) && p !in groups ensures p in j.contacts && p in j.accounts {
      assert Revived(a, p) || Revived(b, p);
    }
  }

  lemma LatestAssociates(a: Times, b: Times, c: Times)
    ensures Latest(Latest(a, b), c) == Latest(a, Latest(b, c))
  {
    var l, r := Latest(Latest(a, b), c), Latest(a, Latest(b, c));
    hide Latest;
    forall p ensures (p in l <==> p in r) && At(l, p) == At(r, p) {
      LatestAt(a, b, p);
      LatestAt(b, c, p);
      LatestAt(Latest(a, b), c, p);
      LatestAt(a, Latest(b, c), p);
    }
    forall p <- l ensures l[p] == r[p] {
      assert At(l, p) == At(r, p);
    }
  }

  lemma LatestAt(a: Times, b: Times, p: Peer)
    ensures p in Latest(a, b) <==> p in a || p in b
    ensures At(Latest(a, b), p) == Max(At(a, p), At(b, p))
  {
  }

  /** `c` brings `p` back to life after `a` and `b` are joined: it holds the one revival that beats their delete. */
  ghost predicate BroughtBack(a: View, b: View, c: View, p: Peer) {
    var ab, j := Join(a, b), Join(Join(a, b), c);
    Tombstoned(ab.tombstones, ab.revivals, p) && !Tombstoned(j.tombstones, j.revivals, p)
  }

  /** Whatever `c` brings back and `a` or `b` lists, `c` lists too. */
  ghost predicate Supplies(a: View, b: View, c: View) {
    forall p | BroughtBack(a, b, c, p) ::
      && (p in a.contacts + b.contacts ==> p in c.contacts)
      && (p in a.accounts + b.accounts ==> p in c.accounts)
  }

  /** A peer brought back by `c` was revived there, strictly later than anything in `a` and `b`. */
  lemma BroughtBackIsRevived(a: View, b: View, c: View, p: Peer)
    requires BroughtBack(a, b, c, p)
    ensures Revived(c, p) && At(c.revivals, p) > At(a.revivals, p) && At(c.revivals, p) > At(b.revivals, p)
  {
  }

  /** Joining `c` last keeps every live member exactly when `c` supplies what it brings back. */
  lemma JoinKeepsAllLive(a: View, b: View, c: View)
    ensures var j := Join(Join(a, b), c);
            && j.contacts <= Live(j.tombstones, j.revivals, a.contacts + b.contacts + c.contacts)
            && j.accounts <= Live(j.tombstones, j.revivals, a.accounts + b.accounts + c.accounts)
            && (Supplies(a, b, c) <==>
                  && j.contacts == Live(j.tombstones, j.revivals, a.contacts + b.contacts + c.contacts)
                  && j.accounts == Live(j.tombstones, j.revivals, a.accounts + b.accounts + c.accounts))
    ensures var j := Join(Join(a, b), c);
            forall p ::
              && (p in Live(j.tombstones, j.revivals, a.contacts + b.contacts + c.contacts) && p !in j.contacts ==>
                    BroughtBack(a, b, c, p))
              && (p in Live(j.tombstones, j.revivals, a.accounts + b.accounts + c.accounts) && p !in j.accounts ==>
                    BroughtBack(a, b, c, p))
  {
    var j := Join(Join(a, b), c);
    hide Latest, Tombstoned;
    if !Supplies(a, b, c) {
      var p :| BroughtBack(a, b, c, p) && !((p in a.contacts + b.contacts ==> p in c.contacts) &&
                                            (p in a.accounts + b.accounts ==> p in c.accounts));
      assert p in Live(j.tombstones, j.revivals, a.contacts + b.contacts + c.contacts) - j.contacts ||
             p in Live(j.tombstones, j.revivals, a.accounts + b.accounts + c.accounts) - j.accounts;
    }
  }

  /** No peer is lost on both ways of joining three states: each would need the strictly latest revival elsewhere. */
  lemma NotBroughtBackTwice(a: View, b: View, c: View, p: Peer)
    ensures !(BroughtBack(a, b, c, p) && BroughtBack(c, b, a, p))
  {
    if BroughtBack(a, b, c, p) {
      BroughtBackIsRevived(a, b, c, p);
      if BroughtBack(c, b, a, p) {
        BroughtBackIsRevived(c, b, a, p);
      }
    }
  }

  lemma ThreeWaysRound(a: View, b: View, c: View)
    ensures var l, r := Join(Join(a, b), c), Join(Join(c, b), a);
            && r == Join(a, Join(b, c))
            && l.tombstones == r.tombstones && l.revivals == r.revivals
            && c.contacts + b.contacts + a.contacts == a.contacts + b.contacts + c.contacts
            && c.accounts + b.accounts + a.accounts == a.accounts + b.accounts + c.accounts
            && l.blocked == r.blocked
  {
    JoinCommutes(c, b);
    JoinCommutes(Join(b, c), a);
    LatestAssociates(a.tombstones, b.tombstones, c.tombstones);
    LatestAssociates(a.revivals, b.revivals, c.revivals);
    hide Live, Latest;
  }

  /**
    For all states whatever: the join associates if and only if the last one joined, either way round, supplies what it
    brings back.
   */
  lemma JoinAssociatesExactly(a: View, b: View, c: View)
    ensures Join(Join(a, b), c) == Join(a, Join(b, c)) <==> Supplies(a, b, c) && Supplies(c, b, a)
  {
    ThreeWaysRound(a, b, c);
    JoinKeepsAllLive(a, b, c);
    JoinKeepsAllLive(c, b, a);
    hide Live, Latest, Supplies, BroughtBack, Join;
    forall p ensures !(BroughtBack(a, b, c, p) && BroughtBack(c, b, a, p)) {
      NotBroughtBackTwice(a, b, c, p);
    }
  }

  lemma WellFormedSupplies(groups: iset<Peer>, a: View, b: View, c: View)
    requires WellFormed(groups, c) && ListsNoGroup(groups, a) && ListsNoGroup(groups, b)
    ensures Supplies(a, b, c)
  {
    hide Join;
    forall p | BroughtBack(a, b, c, p)
      ensures (p in a.contacts + b.contacts ==> p in c.contacts) && (p in a.accounts + b.accounts ==> p in c.accounts)
    {
      BroughtBackIsRevived(a, b, c, p);
    }
  }

  /** In particular between well-formed states; of the middle one it is enough that it lists no group. */
  lemma JoinAssociates(groups: iset<Peer>, a: View, b: View, c: View)
    requires WellFormed(groups, a) && ListsNoGroup(groups, b) && WellFormed(groups, c)
    ensures Join(Join(a, b), c) == Join(a, Join(b, c))
  {
    JoinAssociatesExactly(a, b, c);
    WellFormedSupplies(groups, a, b, c);
    WellFormedSupplies(groups, c, b, a);
  }

  /** A failing input: `c` revived a peer it does not list, and so does not supply what it brings back. */
  lemma JoinNeedsSupply()
    ensures var a := View(map["p" := 2], map[], {}, {}, {});
            var b := View(map[], map[], {"p"}, {"p"}, {});
            var c := View(map[], map["p" := 3], {}, {}, {});
            !Supplies(a, b, c) && !WellFormed(iset{}, c) && Join(Join(a, b), c) != Join(a, Join(b, c))
  {
    var a := View(map["p" := 2], map[], {}, {}, {});
    var b := View(map[], map[], {"p"}, {"p"}, {});
    var c := View(map[], map["p" := 3], {}, {}, {});
    assert BroughtBack(a, b, c, "p") && Revived(c, "p");
    JoinAssociatesExactly(a, b, c);
  }

  // ---- Any order, any repetition ----

  ghost function JoinAll(views: seq<View>): View
    requires views != []
  {
    if |views| == 1 then views[0] else Join(JoinAll(views[..|views| - 1]), views[|views| - 1])
  }

  /** `times` holds, for every peer, the newest time any of the views holds. */
  ghost predicate NewestOf(times: Times, all: seq<Times>) {
    && (forall i, p | 0 <= i < |all| && p in all[i] :: p in times && all[i][p] <= times[p])
    && (forall p <- times :: exists i :: 0 <= i < |all| && p in all[i] && all[i][p] == times[p])
  }

  ghost function Tombs(views: seq<View>): seq<Times> {
    seq(|views|, i requires 0 <= i < |views| => views[i].tombstones)
  }

  ghost function Revivals(views: seq<View>): seq<Times> {
    seq(|views|, i requires 0 <= i < |views| => views[i].revivals)
  }

  ghost function AllContacts(views: seq<View>): set<Peer> {
    set v, p | v in views && p in v.contacts :: p
  }

  ghost function AllAccounts(views: seq<View>): set<Peer> {
    set v, p | v in views && p in v.accounts :: p
  }

  ghost function AllBlocked(views: seq<View>): set<Peer> {
    set v, p | v in views && p in v.blocked :: p
  }

  /** The join of all views, in closed form. */
  ghost predicate JoinedAs(views: seq<View>, j: View) {
    && NewestOf(j.tombstones, Tombs(views))
    && NewestOf(j.revivals, Revivals(views))
    && j.contacts == Live(j.tombstones, j.revivals, AllContacts(views))
    && j.accounts == Live(j.tombstones, j.revivals, AllAccounts(views))
    && j.blocked == AllBlocked(views)
  }

  lemma NewestGrows(times: Times, all: seq<Times>, more: Times)
    requires NewestOf(times, all)
    ensures NewestOf(Latest(times, more), all + [more])
  {
    var latest := Latest(times, more);
    forall p <- latest
      ensures exists i :: 0 <= i < |all + [more]| && p in (all + [more])[i] && (all + [more])[i][p] == latest[p]
    {
      if p in times && latest[p] == times[p] {
        var i :| 0 <= i < |all| && p in all[i] && all[i][p] == times[p];
        assert (all + [more])[i] == all[i];
      } else {
        assert (all + [more])[|all|] == more;
      }
    }
  }

  lemma {:induction false} JoinAllInClosedForm(groups: iset<Peer>, views: seq<View>)
    requires views != [] && forall v <- views :: WellFormed(groups, v)
    ensures JoinedAs(views, JoinAll(views)) && WellFormed(groups, JoinAll(views))
  {
    if |views| == 1 {
      SingleJoin(groups, views[0]);
      assert views == [views[0]];
    } else {
      var front, last := views[..|views| - 1], views[|views| - 1];
      assert views == front + [last];
      JoinAllInClosedForm(groups, front);
      JoinKeepsWellFormed(groups, JoinAll(front), last);
      NextJoin(groups, front, JoinAll(front), last);
    }
  }

  lemma SingleJoin(groups: iset<Peer>, v: View)
    requires WellFormed(groups, v)
    ensures JoinedAs([v], v)
  {
    NewestOfOne(v.tombstones);
    NewestOfOne(v.revivals);
    assert Tombs([v]) == [v.tombstones] && Revivals([v]) == [v.revivals];
    assert AllContacts([v]) == v.contacts && AllAccounts([v]) == v.accounts && AllBlocked([v]) == v.blocked;
  }

  lemma NewestOfOne(times: Times)
    ensures NewestOf(times, [times])
  {
    assert [times][0] == times;
  }

  lemma NextJoin(groups: iset<Peer>, front: seq<View>, j: View, last: View)
    requires JoinedAs(front, j) && WellFormed(groups, last) && forall v <- front :: ListsNoGroup(groups, v)
    ensures JoinedAs(front + [last], Join(j, last))
  {
    NewestGrows(j.tombstones, Tombs(front), last.tombstones);
    NewestGrows(j.revivals, Revivals(front), last.revivals);
    assert Tombs(front + [last]) == Tombs(front) + [last.tombstones];
    assert Revivals(front + [last]) == Revivals(front) + [last.revivals];
    NextMembers(groups, front, j, last);
    assert AllBlocked(front + [last]) == AllBlocked(front) + last.blocked;
    hide NewestOf, AllContacts, AllAccounts, AllBlocked, WellFormed, Live, Latest;
  }

  lemma MoreMembers(front: seq<View>, last: View)
    ensures AllContacts(front + [last]) == AllContacts(front) + last.contacts
    ensures AllAccounts(front + [last]) == AllAccounts(front) + last.accounts
  {
  }

  lemma NextMembers(groups: iset<Peer>, front: seq<View>, j: View, last: View)
    requires JoinedAs(front, j) && WellFormed(groups, last) && forall v <- front :: ListsNoGroup(groups, v)
    ensures var n := Join(j, last);
            && n.contacts == Live(n.tombstones, n.revivals, AllContacts(front + [last]))
            && n.accounts == Live(n.tombstones, n.revivals, AllAccounts(front + [last]))
  {
    hide NewestOf, AllBlocked;
    MoreMembers(front, last);
    assert forall p <- groups :: p !in AllContacts(front) && p !in AllAccounts(front);
    var n := Join(j, last);
    forall p | !Tombstoned(n.tombstones, n.revivals, p) && Tombstoned(j.tombstones, j.revivals, p)
      ensures p in groups || (p in last.contacts && p in last.accounts)
    {
      assert Revived(last, p);
    }
    hide AllContacts, AllAccounts, WellFormed;
  }

  lemma NewestIsUnique(a: Times, b: Times, all: seq<Times>, other: seq<Times>)
    requires NewestOf(a, all) && NewestOf(b, other) && forall t :: t in all <==> t in other
    ensures a == b
  {
    NewestBelow(a, b, all, other);
    NewestBelow(b, a, other, all);
  }

  lemma NewestBelow(a: Times, b: Times, all: seq<Times>, other: seq<Times>)
    requires NewestOf(a, all) && NewestOf(b, other) && forall t <- all :: t in other
    ensures forall p <- a :: p in b && a[p] <= b[p]
  {
    forall p <- a ensures p in b && a[p] <= b[p] {
      var i :| 0 <= i < |all| && p in all[i] && all[i][p] == a[p];
      assert all[i] in other;
      var j :| 0 <= j < |other| && other[j] == all[i];
    }
  }

  lemma SameViewsSameTimes(xs: seq<View>, ys: seq<View>)
    requires forall v :: v in xs <==> v in ys
    ensures forall t :: t in Tombs(xs) <==> t in Tombs(ys)
    ensures forall t :: t in Revivals(xs) <==> t in Revivals(ys)
    ensures AllContacts(xs) == AllContacts(ys) && AllAccounts(xs) == AllAccounts(ys) && AllBlocked(xs) == AllBlocked(ys)
  {
    TimesAmong(xs, ys);
    TimesAmong(ys, xs);
  }

  lemma TimesAmong(xs: seq<View>, ys: seq<View>)
    requires forall v <- xs :: v in ys
    ensures forall t <- Tombs(xs) :: t in Tombs(ys)
    ensures forall t <- Revivals(xs) :: t in Revivals(ys)
  {
    forall i | 0 <= i < |xs| ensures xs[i].tombstones in Tombs(ys) && xs[i].revivals in Revivals(ys) {
      assert xs[i] in ys;
      var j :| 0 <= j < |ys| && ys[j] == xs[i];
      assert Tombs(ys)[j] == xs[i].tombstones && Revivals(ys)[j] == xs[i].revivals;
    }
  }

  /** Devices that merged the same well-formed states agree, whatever the order and however often each was merged. */
  lemma AnyOrderAgrees(groups: iset<Peer>, xs: seq<View>, ys: seq<View>)
    requires xs != [] && ys != [] && forall v :: v in xs <==> v in ys
    requires forall v <- xs :: WellFormed(groups, v)
    ensures JoinAll(xs) == JoinAll(ys)
  {
    JoinAllInClosedForm(groups, xs);
    JoinAllInClosedForm(groups, ys);
    hide WellFormed, NewestOf, JoinAll;
    SameViewsSameTimes(xs, ys);
    NewestIsUnique(JoinAll(xs).tombstones, JoinAll(ys).tombstones, Tombs(xs), Tombs(ys));
    NewestIsUnique(JoinAll(xs).revivals, JoinAll(ys).revivals, Revivals(xs), Revivals(ys));
  }
}
