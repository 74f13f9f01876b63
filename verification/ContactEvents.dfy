/**
  The contact and group events of `src/sdk/index.ts` that touch archived storage, each taken as one step, and what they
  make of the replicated state. The permission manager's contacts are taken to be the stored ones.
 */
module ContactEvents {
  import opened Wrappers
  import opened Archive
  import opened ArchiveLaws
  import opened ArchiveRuns

  ghost function ViewIn(s: ArchiveStorage): View
    reads s
  {
    ViewOf(Store(s.kv, s.tombstones, s.revivals))
  }

  function ContactsIn(kv: Kv): seq<Peer> {
    if Contacts in kv && kv[Contacts].PeerList? then kv[Contacts].peers else []
  }

  function AccountsIn(kv: Kv): seq<Account> {
    if ContactsV2 in kv && kv[ContactsV2].AccountList? then kv[ContactsV2].accounts else []
  }

  function WithoutPeer(peers: seq<Peer>, p: Peer): seq<Peer> {
    if peers == [] then [] else
    var rest, last := WithoutPeer(peers[..|peers| - 1], p), peers[|peers| - 1];
    if last == p then rest else rest + [last]
  }

  function WithoutAccount(accounts: seq<Account>, p: Peer): seq<Account> {
    if accounts == [] then [] else
    var rest, last := WithoutAccount(accounts[..|accounts| - 1], p), accounts[|accounts| - 1];
    if last.accountKey == p then rest else rest + [last]
  }

  lemma {:induction false} WithoutPeerElements(peers: seq<Peer>, p: Peer)
    ensures forall q :: q in WithoutPeer(peers, p) <==> q in peers && q != p
  {
    if peers == [] {
    } else {
      WithoutPeerElements(peers[..|peers| - 1], p);
      assert peers == peers[..|peers| - 1] + [peers[|peers| - 1]];
    }
  }

  lemma {:induction false} WithoutAccountKeys(accounts: seq<Account>, p: Peer)
    ensures KeysOf(WithoutAccount(accounts, p)) == KeysOf(accounts) - {p}
  {
    if accounts == [] {
    } else {
      var front, last := accounts[..|accounts| - 1], accounts[|accounts| - 1];
      WithoutAccountKeys(front, p);
      assert accounts == front + [last];
      KeysOfConcat(front, [last]);
      KeysOfConcat(WithoutAccount(front, p), [last]);
    }
  }

  lemma SetsInKv(kv: Kv)
    ensures PeerSet(Get(kv, Contacts)) == set q <- ContactsIn(kv)
    ensures AccountSet(Get(kv, ContactsV2)) == KeysOf(AccountsIn(kv))
  {
  }

  /** `deleteConversation`, of a contact or a group: the stored wipes come first, the tombstone last. */
  method DeleteConversation(s: ArchiveStorage, p: Peer, now: nat)
    modifies s
    ensures ViewIn(s) == Deleted(old(ViewIn(s)), p, now)
    ensures Messages(p) !in s.kv && Peers(p) !in s.kv
    ensures forall k | k !in {Messages(p), Peers(p), Contacts, ContactsV2} :: Get(s.kv, k) == Get(old(s.kv), k)
  {
    SetsInKv(s.kv);
    WithoutPeerElements(ContactsIn(s.kv), p);
    WithoutAccountKeys(AccountsIn(s.kv), p);
    s.kv := s.kv[Contacts := PeerList(WithoutPeer(ContactsIn(s.kv), p))]
                [ContactsV2 := AccountList(WithoutAccount(AccountsIn(s.kv), p))];
    s.kv := s.kv - {Peers(p), Messages(p)};
    s.AddTombstone(p, now);
    SetsInKv(s.kv);
  }

  /** `recordRevival`: the stamp beats the tombstone whatever the clock says. */
  method RecordRevival(s: ArchiveStorage, p: Peer, clock: nat) returns (hadTombstone: bool)
    modifies s`revivals
    ensures s.revivals == old(s.revivals)[p := RevivalStamp(s.tombstones, old(s.revivals), p, clock)]
    ensures !Tombstoned(s.tombstones, s.revivals, p)
    ensures forall q | q != p ::
              Tombstoned(s.tombstones, s.revivals, q) <==> Tombstoned(s.tombstones, old(s.revivals), q)
    ensures hadTombstone <==> At(s.tombstones, p) > 0
  {
    var tombTs := At(s.tombstones, p);
    var ts := if clock < tombTs + 1 then tombTs + 1 else clock;
    s.AddRevival(p, Max(At(s.revivals, p), ts));
    return tombTs > 0;
  }

  /** Adding a contact, or adding it again: it is revived and listed. */
  method AddContact(s: ArchiveStorage, p: Peer, clock: nat) returns (hadTombstone: bool)
    requires p != ""
    modifies s
    ensures ViewIn(s) == RevivedAt(old(ViewIn(s)), p, RevivalStamp(old(s.tombstones), old(s.revivals), p, clock))
    ensures hadTombstone <==> At(old(s.tombstones), p) > 0
  {
    SetsInKv(s.kv);
    hadTombstone := RecordRevival(s, p, clock);
    var peers, accounts := ContactsIn(s.kv), AccountsIn(s.kv);
    s.kv := s.kv[Contacts := PeerList(if p in peers then peers else peers + [p])];
    if forall a <- accounts :: a.accountKey != p {
      KeysOfConcat(accounts, [Account(p, [p])]);
      accounts := accounts + [Account(p, [p])];
    }
    s.kv := s.kv[ContactsV2 := AccountList(accounts)];
    SetsInKv(s.kv);
  }

  /** Creating or joining a group revives its id and lists nothing. */
  method ReviveGroup(s: ArchiveStorage, g: Peer, clock: nat)
    modifies s`revivals
    ensures ViewIn(s) == GroupRevivedAt(old(ViewIn(s)), g, RevivalStamp(s.tombstones, old(s.revivals), g, clock))
  {
    var _ := RecordRevival(s, g, clock);
  }

  function BlockedIn(kv: Kv): seq<Peer> {
    if Blocked in kv && kv[Blocked].PeerList? then kv[Blocked].peers else []
  }

  /** `blockPeer`, and the stored list after it. */
  method BlockPeer(s: ArchiveStorage, p: Peer)
    modifies s`kv
    ensures ViewIn(s) == BlockedBy(old(ViewIn(s)), p)
    ensures forall k | k != Blocked :: Get(s.kv, k) == Get(old(s.kv), k)
  {
    var peers := BlockedIn(s.kv);
    assert PeerSet(Get(s.kv, Blocked)) == set q <- peers;
    s.kv := s.kv[Blocked := PeerList(if p in peers then peers else peers + [p])];
  }

  method UnblockPeer(s: ArchiveStorage, p: Peer)
    modifies s`kv
    ensures ViewIn(s) == UnblockedBy(old(ViewIn(s)), p)
    ensures forall k | k != Blocked :: Get(s.kv, k) == Get(old(s.kv), k)
  {
    WithoutPeerElements(BlockedIn(s.kv), p);
    assert PeerSet(Get(s.kv, Blocked)) == set q <- BlockedIn(s.kv);
    s.kv := s.kv[Blocked := PeerList(WithoutPeer(BlockedIn(s.kv), p))];
  }
}
