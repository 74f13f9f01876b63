/**
  Runs of the one-time pre-key protocol, after the one-shot migration: the owner refills its pool, crashes and
  restarts; the relay stores uploads and hands out claims; initiators use what they claimed. Every await of the owner
  is a place where anything else may happen, an upload may be lost, and an `x3dh_init` may arrive late or repeatedly.
 */
module OpkRuns {
  import opened Wrappers
  import opened Crypto
  import opened X3dh
  import opened OneTimePreKeys
  import Ratchet
  import RatchetRuns

  /**
    A running `initOPKPool` or `replenishOPKPool`: keys not yet stored, the first of them in memory if `held`, and keys
    stored.
   */
  datatype Refill = Refill(todo: seq<PublicKey>, held: bool, saved: seq<PublicKey>)

  /** Down after a crash; starting until the pool is filled, which comes before any handshake is handled. */
  datatype Phase = Down | Starting | Up

  datatype Owner = Owner(identity: KeyPair, signedPreKey: KeyPair, pqSecretKey: Option<nat>)

  datatype Envelope = Envelope(
    identityKey: PublicKey, ephemeralPublicKey: PublicKey, usedOneTimePreKeyPublic: Option<PublicKey>,
    pqCiphertext: Option<KemCiphertext>)

  /** An `x3dh_init`, the secret its sender derived, and the ratchet session it opened with it. */
  datatype Init = Init(envelope: Envelope, sharedSecret: Key, session: Ratchet.State)

  datatype World = World(
    owner: Owner, phase: Phase, pool: Pool, disk: Pool, refills: seq<Refill>, deletes: set<PublicKey>,
    uploads: seq<seq<PublicKey>>, relay: seq<PublicKey>, claims: seq<PublicKey>, inits: seq<Init>,
    used: set<PublicKey>, unseen: nat)

  datatype Event =
    | Crash
    | Restart                  // `initOPKPool` up to its first write
    | Ready                    // start-up done: handshakes are handled from now on
    | Hold(refill: nat)        // the next generated pair enters memory
    | Save(refill: nat)        // and reaches the disk
    | Fail(refill: nat)        // or the disk throws, which ends this refill
    | Upload(refill: nat)      // all stored: the request goes out
    | DeliverUpload(upload: nat)
    | LoseUpload(upload: nat)
    | Claim(row: nat)
    | Initiate(claim: Option<nat>, alice: KeyPair, ephemeral: nat, seed: nat, first: nat)
    | DeliverInit(init: nat)
    | Delete(key: PublicKey)   // the deletion of a used key reaches the disk
    | LoseDelete(key: PublicKey)

  function Bundle(owner: Owner, opk: Option<PublicKey>): PreKeyBundle {
    PreKeyBundle(owner.identity.publicKey, owner.signedPreKey.publicKey,
                 Signature(owner.identity.publicKey, owner.signedPreKey.publicKey), opk, owner.pqSecretKey)
  }

  /** What `initiateHandshake` sends and keeps; without a claimed key it falls back to three agreements. */
  function Initiated(owner: Owner, opk: Option<PublicKey>, alice: KeyPair, ephemeral: nat, seed: nat, first: nat): Init
  {
    var bundle := Bundle(owner, opk);
    var r := InitiateKeyExchange(alice, bundle, ephemeral, seed).value;
    Init(Envelope(alice.publicKey, r.ephemeralPublicKey, if r.usedOneTimePreKey then opk else None, r.pqCiphertext),
         r.sharedSecret,
         Ratchet.InitSender(r.sharedSecret, bundle.signedPreKey, first))
  }

  /** What `completeIncomingHandshake` derives; an unknown one-time pre-key falls back to three agreements. */
  function SecretWith(owner: Owner, pool: Pool, e: Envelope): Key {
    var opk := if e.usedOneTimePreKeyPublic.Some? then Lookup(pool, e.usedOneTimePreKeyPublic.value) else None;
    CompleteKeyExchange(owner.identity, owner.signedPreKey, opk, e.identityKey, e.ephemeralPublicKey,
                        e.pqCiphertext, owner.pqSecretKey)
  }

  function OwnerSecret(w: World, e: Envelope): Key {
    SecretWith(w.owner, w.pool, e)
  }

  /** `completeIncomingHandshake` up to the session: the key it uses is gone from memory when it returns. */
  method CompleteIncomingHandshake(pool: OpkPool, owner: Owner, e: Envelope) returns (secret: Key)
    modifies pool`opkPool
    ensures secret == SecretWith(owner, old(pool.opkPool), e)
    ensures pool.opkPool ==
              if e.usedOneTimePreKeyPublic.Some? then old(pool.opkPool) - {e.usedOneTimePreKeyPublic.value}
              else old(pool.opkPool)
  {
    var bobOPK: Option<KeyPair> := None;
    if e.usedOneTimePreKeyPublic.Some? {
      bobOPK := pool.Take(e.usedOneTimePreKeyPublic.value);
    }
    secret := CompleteKeyExchange(owner.identity, owner.signedPreKey, bobOPK, e.identityKey, e.ephemeralPublicKey,
                                  e.pqCiphertext, owner.pqSecretKey);
  }

  predicate Enabled(w: World, e: Event) {
    match e
    case Crash => w.phase != Down
    case Restart => w.phase == Down
    case Ready => w.phase == Starting && w.refills == []
    case Hold(r) => r < |w.refills| && w.refills[r].todo != [] && !w.refills[r].held
    case Save(r) => r < |w.refills| && w.refills[r].held && w.refills[r].todo != []
    case Fail(r) => r < |w.refills| && w.refills[r].held
    case Upload(r) => r < |w.refills| && w.refills[r].todo == []
    case DeliverUpload(u) => u < |w.uploads|
    case LoseUpload(u) => u < |w.uploads|
    case Claim(row) => row < |w.relay|
    case Initiate(claim, alice, _, _, _) =>
      alice == KeyPairOf(alice.privateKey) &&
      (claim.Some? ==>
         claim.value < |w.claims| &&
         forall i <- w.inits :: i.envelope.usedOneTimePreKeyPublic != Some(w.claims[claim.value]))
    case DeliverInit(i) => w.phase == Up && i < |w.inits|
    case Delete(key) => key in w.deletes
    case LoseDelete(key) => key in w.deletes
  }

  /** Generating the keys a pool is short of. */
  function Refilling(w: World): World {
    if |w.pool| >= OPK_POOL_SIZE then w else
    var needed := OPK_POOL_SIZE - |w.pool|;
    w.(refills := w.refills + [Refill(Generated(w.unseen, needed), false, [])], unseen := w.unseen + needed)
  }

  function Drop<T>(s: seq<T>, i: nat): seq<T>
    requires i < |s|
  {
    s[..i] + s[i + 1..]
  }

  function Used(w: World, key: PublicKey): World {
    var w1 := w.(pool := w.pool - {key}, deletes := w.deletes + {key}, used := w.used + {key});
    if |w1.pool| < OPK_LOW_WATERMARK then Refilling(w1) else w1
  }

  function Apply(w: World, e: Event): World
    requires Enabled(w, e)
  {
    match e
    case Crash => w.(phase := Down, pool := map[], refills := [])
    case Restart => Refilling(w.(phase := Starting, pool := w.disk))
    case Ready => w.(phase := Up)
    case Hold(r) =>
      var key := w.refills[r].todo[0];
      w.(pool := w.pool[key := key.secret], refills := w.refills[r := w.refills[r].(held := true)])
    case Save(r) =>
      var f := w.refills[r];
      w.(disk := w.disk[f.todo[0] := f.todo[0].secret],
        refills := w.refills[r := Refill(f.todo[1..], false, f.saved + [f.todo[0]])])
    case Fail(r) =>
      if w.phase == Starting then w.(phase := Down, pool := map[], refills := []) else w.(refills := Drop(w.refills, r))
    case Upload(r) =>
      w.(refills := Drop(w.refills, r), uploads := w.uploads + [w.refills[r].saved])
    case DeliverUpload(u) =>
      w.(uploads := Drop(w.uploads, u), relay := InsertOrIgnore(w.relay, ToStore(w.relay, w.uploads[u])))
    case LoseUpload(u) => w.(uploads := Drop(w.uploads, u))
    case Claim(row) => w.(relay := OneTimePreKeys.Without(w.relay, row), claims := w.claims + [w.relay[row]])
    case Initiate(claim, alice, ephemeral, seed, first) =>
      var opk := if claim.Some? then Some(w.claims[claim.value]) else None;
      w.(inits := w.inits + [Initiated(w.owner, opk, alice, ephemeral, seed, first)])
    case DeliverInit(i) =>
      var opk := w.inits[i].envelope.usedOneTimePreKeyPublic;
      if opk.Some? && opk.value in w.pool then Used(w, opk.value) else w
    case Delete(key) => w.(disk := w.disk - {key}, deletes := w.deletes - {key})
    case LoseDelete(key) => w.(deletes := w.deletes - {key})
  }

  ghost predicate Run(w: World, events: seq<Event>, w': World)
    decreases |events|
  {
    if events == [] then w == w' else
    Enabled(w, events[0]) && Run(Apply(w, events[0]), events[1..], w')
  }

  /** Just after the migration: the relay offers exactly keys the owner has stored. */
  ghost predicate Migrated(w: World) {
    && w.phase == Down && w.pool == map[] && w.refills == [] && w.deletes == {} && w.uploads == []
    && w.claims == [] && w.inits == [] && w.used == {}
    && PairsOk(w.disk)
    && (forall k <- w.relay :: k in w.disk && k.secret < w.unseen && multiset(w.relay)[k] == 1)
    && IsPair(w.owner.identity) && IsPair(w.owner.signedPreKey)
  }

  // ---- Where keys are ----

  /** The keys of some batches, with multiplicity. */
  ghost function All(batches: seq<seq<PublicKey>>): multiset<PublicKey> {
    if batches == [] then multiset{} else All(batches[..|batches| - 1]) + multiset(batches[|batches| - 1])
  }

  function Keys(f: Refill): seq<PublicKey> {
    f.saved + f.todo
  }

  function KeyLists(refills: seq<Refill>): seq<seq<PublicKey>> {
    seq(|refills|, i requires 0 <= i < |refills| => Keys(refills[i]))
  }

  /** Every place a key can be in before it is used. */
  ghost function Places(w: World): multiset<PublicKey> {
    All(KeyLists(w.refills)) + All(w.uploads) + multiset(w.relay) + multiset(w.claims)
  }

  lemma {:induction false} AllConcat(a: seq<seq<PublicKey>>, b: seq<seq<PublicKey>>)
    ensures All(a + b) == All(a) + All(b)
  {
    if b == [] {
      assert a + b == a;
    } else {
      AllConcat(a, b[..|b| - 1]);
      assert (a + b)[..|a + b| - 1] == a + b[..|b| - 1];
    }
  }

  lemma AllAdd(batches: seq<seq<PublicKey>>, b: seq<PublicKey>)
    ensures All(batches + [b]) == All(batches) + multiset(b)
  {
    assert (batches + [b])[..|batches|] == batches;
  }

  lemma AllAround(front: seq<seq<PublicKey>>, b: seq<PublicKey>, back: seq<seq<PublicKey>>)
    ensures All(front + [b] + back) == All(front + back) + multiset(b)
  {
    hide All;
    AllConcat(front + [b], back);
    AllAdd(front, b);
    AllConcat(front, back);
  }

  lemma AllDrop(batches: seq<seq<PublicKey>>, i: nat)
    requires i < |batches|
    ensures multiset(batches[i]) <= All(batches)
    ensures All(Drop(batches, i)) == All(batches) - multiset(batches[i])
  {
    hide *;
    SplitAround(batches, i);
    AllAround(batches[..i], batches[i], batches[i + 1..]);
    TakenOut(All(batches), All(Drop(batches, i)), multiset(batches[i]));
  }

  lemma SplitAround(batches: seq<seq<PublicKey>>, i: nat)
    requires i < |batches|
    ensures batches == batches[..i] + [batches[i]] + batches[i + 1..] &&
            Drop(batches, i) == batches[..i] + batches[i + 1..]
  {
  }

  lemma TakenOut(all: multiset<PublicKey>, rest: multiset<PublicKey>, part: multiset<PublicKey>)
    requires all == rest + part
    ensures part <= all && rest == all - part
  {
  }

  lemma AllUpdate(batches: seq<seq<PublicKey>>, i: nat, b: seq<PublicKey>)
    requires i < |batches|
    ensures multiset(batches[i]) <= All(batches)
    ensures All(batches[i := b]) == All(batches) - multiset(batches[i]) + multiset(b)
  {
    AllDrop(batches, i);
    AllDrop(batches[i := b], i);
    assert Drop(batches[i := b], i) == Drop(batches, i);
    hide All, Drop;
    assert multiset(b) <= All(batches[i := b]);
  }

  lemma AllMembers(batches: seq<seq<PublicKey>>, i: nat)
    requires i < |batches|
    ensures forall k <- batches[i] :: k in All(batches)
  {
    AllDrop(batches, i);
    assert forall k <- batches[i] :: k in multiset(batches[i]);
  }

  // ---- The invariant ----

  ghost predicate PairsOk(pool: Pool) {
    forall k <- pool :: pool[k] == k.secret
  }

  ghost predicate OnePlace(w: World, k: PublicKey) {
    Places(w)[k] <= 1 && (k in Places(w) ==> k.secret < w.unseen)
  }

  /** Uploaded, offered, or claimed and not yet used: somebody may still build a session on it. */
  ghost predicate Outstanding(w: World, k: PublicKey) {
    || (exists f <- w.refills :: k in f.saved)
    || (exists b <- w.uploads :: k in b)
    || k in w.relay
    || (k in w.claims && k !in w.used)
  }

  ghost predicate Durable(w: World, k: PublicKey) {
    Outstanding(w, k) ==> k in w.disk && (w.phase != Down ==> k in w.pool)
  }

  ghost predicate InitOk(w: World, i: Init) {
    exists opk: Option<PublicKey>, alice, ephemeral, seed, first ::
      && IsPair(alice) && (opk.Some? ==> opk.value in w.claims)
      && i == Initiated(w.owner, opk, alice, ephemeral, seed, first)
  }

  ghost predicate Housekeeping(w: World) {
    && PairsOk(w.pool) && PairsOk(w.disk)
    && (forall k <- w.used :: k in w.claims)
    && w.deletes <= w.used
    && (forall f <- w.refills :: f.held ==> f.todo != [] && f.todo[0] in w.pool)
    && (w.phase == Down ==> w.refills == [])
    && IsPair(w.owner.identity) && IsPair(w.owner.signedPreKey)
  }

  ghost predicate Inv(w: World) {
    && Housekeeping(w)
    && (forall k :: OnePlace(w, k))
    && (forall k :: Durable(w, k))
    && (forall i <- w.inits :: InitOk(w, i))
  }

  // ---- Preservation ----

  lemma {:induction false} DistinctOnce(s: seq<PublicKey>)
    requires forall i, j | 0 <= i < j < |s| :: s[i] != s[j]
    ensures forall k :: multiset(s)[k] <= 1
  {
    if s == [] {
    } else {
      DistinctOnce(s[..|s| - 1]);
      assert s == s[..|s| - 1] + [s[|s| - 1]];
    }
  }

  lemma GeneratedIsNew(unseen: nat, count: nat)
    ensures forall k :: multiset(Generated(unseen, count))[k] <= 1
    ensures forall k <- multiset(Generated(unseen, count)) :: unseen <= k.secret < unseen + count
  {
    DistinctOnce(Generated(unseen, count));
    forall k | k in multiset(Generated(unseen, count)) ensures unseen <= k.secret < unseen + count {
      assert k in Generated(unseen, count);
    }
  }

  lemma ListsUpdate(refills: seq<Refill>, r: nat, f: Refill)
    requires r < |refills|
    ensures All(KeyLists(refills[r := f])) == All(KeyLists(refills)) - multiset(Keys(refills[r])) + multiset(Keys(f))
    ensures multiset(Keys(refills[r])) <= All(KeyLists(refills))
  {
    assert KeyLists(refills[r := f]) == KeyLists(refills)[r := Keys(f)];
    AllUpdate(KeyLists(refills), r, Keys(f));
  }

  lemma ListsDrop(refills: seq<Refill>, r: nat)
    requires r < |refills|
    ensures All(KeyLists(Drop(refills, r))) == All(KeyLists(refills)) - multiset(Keys(refills[r]))
    ensures multiset(Keys(refills[r])) <= All(KeyLists(refills))
  {
    assert KeyLists(Drop(refills, r)) == Drop(KeyLists(refills), r);
    AllDrop(KeyLists(refills), r);
  }

  lemma ListsAdd(refills: seq<Refill>, f: Refill)
    ensures All(KeyLists(refills + [f])) == All(KeyLists(refills)) + multiset(Keys(f))
  {
    assert KeyLists(refills + [f]) == KeyLists(refills) + [Keys(f)];
    AllAdd(KeyLists(refills), Keys(f));
  }

  lemma MoreKeys(w: World, w': World, k: PublicKey, added: seq<PublicKey>)
    requires OnePlace(w, k) && Places(w') == Places(w) + multiset(added)
    requires multiset(added)[k] <= 1 && (k in multiset(added) ==> w.unseen <= k.secret < w'.unseen) &&
             w.unseen <= w'.unseen
    ensures OnePlace(w', k)
  {
    hide Places;
  }

  lemma NoneSaved(added: seq<PublicKey>)
    ensures Keys(Refill(added, false, [])) == added
  {
  }

  lemma RefillingAdds(w: World, added: seq<PublicKey>, unseen: nat)
    ensures var w' := w.(refills := w.refills + [Refill(added, false, [])], unseen := unseen);
            Places(w') == Places(w) + multiset(added)
  {
    hide All, KeyLists, Keys;
    ListsAdd(w.refills, Refill(added, false, []));
    NoneSaved(added);
  }

  lemma RefillingPlaces(w: World)
    requires forall k :: OnePlace(w, k)
    ensures forall k :: OnePlace(Refilling(w), k)
  {
    if |w.pool| < OPK_POOL_SIZE {
      hide Generated, OnePlace, Places;
      var needed := OPK_POOL_SIZE - |w.pool|;
      var added := Generated(w.unseen, needed);
      GeneratedIsNew(w.unseen, needed);
      RefillingAdds(w, added, w.unseen + needed);
      var w' := w.(refills := w.refills + [Refill(added, false, [])], unseen := w.unseen + needed);
      assert w' == Refilling(w);
      hide *;
      forall k ensures OnePlace(w', k) {
        MoreKeys(w, w', k, added);
      }
    }
  }

  lemma FewerPlaces(w: World, w': World)
    requires Places(w') <= Places(w) && w'.unseen == w.unseen
    requires forall k :: OnePlace(w, k)
    ensures forall k :: OnePlace(w', k)
  {
    forall k ensures OnePlace(w', k) {
      assert OnePlace(w, k);
    }
  }

  lemma SaveKeys(f: Refill)
    requires f.todo != []
    ensures Keys(Refill(f.todo[1..], false, f.saved + [f.todo[0]])) == Keys(f)
  {
    assert f.todo == [f.todo[0]] + f.todo[1..];
  }

  lemma SavePlaces(w: World, r: nat, w': World)
    requires Enabled(w, Save(r)) && w' == Apply(w, Save(r))
    ensures Places(w') == Places(w)
  {
    hide All, KeyLists, Keys, InsertOrIgnore, ToStore;
    ListsUpdate(w.refills, r, w'.refills[r]);
    SaveKeys(w.refills[r]);
  }

  lemma ClaimPlaces(w: World, row: nat, w': World)
    requires Enabled(w, Claim(row)) && w' == Apply(w, Claim(row))
    ensures Places(w') == Places(w)
  {
    assert w.relay == w.relay[..row] + [w.relay[row]] + w.relay[row + 1..];
  }

  lemma Prefix(batch: seq<PublicKey>, n: nat)
    requires n <= |batch|
    ensures multiset(batch[..n]) <= multiset(batch)
  {
    assert batch == batch[..n] + batch[n..];
  }

  lemma StoredKeys(relay: seq<PublicKey>, batch: seq<PublicKey>)
    ensures multiset(InsertOrIgnore(relay, ToStore(relay, batch))) <= multiset(relay) + multiset(batch)
  {
    var toStore := ToStore(relay, batch);
    assert toStore == batch[..|toStore|];
    hide *;
    StoreAdds(relay, toStore);
    Prefix(batch, |toStore|);
  }

  lemma DeliverUploadPlaces(w: World, u: nat, w': World)
    requires Enabled(w, DeliverUpload(u)) && w' == Apply(w, DeliverUpload(u))
    ensures Places(w') <= Places(w)
  {
    hide All, KeyLists, ToStore, InsertOrIgnore, Drop;
    AllDrop(w.uploads, u);
    StoredKeys(w.relay, w.uploads[u]);
  }

  lemma RefillStepPlaces(w: World, e: Event, w': World)
    requires e.Hold? || e.Save? || e.Fail? || e.Upload?
    requires Enabled(w, e) && w' == Apply(w, e)
    ensures Places(w') <= Places(w) && w'.unseen == w.unseen
  {
    hide InsertOrIgnore, ToStore, Initiated, Keys, Generated, All, KeyLists;
    match e
    case Hold(r) =>
      ListsUpdate(w.refills, r, w'.refills[r]);
      HoldKeys(w.refills[r]);
    case Save(r) => SavePlaces(w, r, w');
    case Fail(r) =>
      ListsDrop(w.refills, r);
      NoLists();
    case Upload(r) =>
      ListsDrop(w.refills, r);
      AllAdd(w.uploads, w.refills[r].saved);
      SavedKeys(w.refills[r]);
  }

  lemma NoLists()
    ensures All(KeyLists([])) == multiset{}
  {
  }

  lemma UsedPlaces(w: World, key: PublicKey)
    requires forall k :: OnePlace(w, k)
    ensures forall k :: OnePlace(Used(w, key), k)
  {
    hide OnePlace;
    var w1 := w.(pool := w.pool - {key}, deletes := w.deletes + {key}, used := w.used + {key});
    FewerPlaces(w, w1);
    RefillingPlaces(w1);
  }

  /** Keys only move: no step puts one in a second place. */
  lemma PlacesKept(w: World, e: Event, w': World)
    requires Enabled(w, e) && w' == Apply(w, e)
    requires forall k :: OnePlace(w, k)
    ensures forall k :: OnePlace(w', k)
  {
    hide OnePlace, InsertOrIgnore, ToStore, Initiated, Keys, Generated, Refilling, Used, KeyLists, All;
    match e
    case Hold(_) => RefillStepPlaces(w, e, w'); FewerPlaces(w, w');
    case Save(_) => RefillStepPlaces(w, e, w'); FewerPlaces(w, w');
    case Fail(_) => RefillStepPlaces(w, e, w'); FewerPlaces(w, w');
    case Upload(_) => RefillStepPlaces(w, e, w'); FewerPlaces(w, w');
    case Restart =>
      FewerPlaces(w, w.(phase := Starting, pool := w.disk));
      RefillingPlaces(w.(phase := Starting, pool := w.disk));
    case DeliverInit(i) =>
      var opk := w.inits[i].envelope.usedOneTimePreKeyPublic;
      if opk.Some? && opk.value in w.pool {
        UsedPlaces(w, opk.value);
      }
    case DeliverUpload(u) =>
      DeliverUploadPlaces(w, u, w');
      FewerPlaces(w, w');
    case LoseUpload(u) =>
      AllDrop(w.uploads, u);
      FewerPlaces(w, w');
    case Claim(row) =>
      ClaimPlaces(w, row, w');
      FewerPlaces(w, w');
    case Crash =>
      NoLists();
      FewerPlaces(w, w');
    case _ => FewerPlaces(w, w');
  }

  lemma HoldKeys(f: Refill)
    ensures Keys(f.(held := true)) == Keys(f)
  {
  }

  lemma SavedKeys(f: Refill)
    requires f.todo == []
    ensures f.saved == Keys(f)
  {
  }

  /** A claimed key is nowhere else. */
  lemma ClaimedIsOnlyThere(w: World, k: PublicKey)
    requires OnePlace(w, k) && k in w.claims
    ensures k !in w.relay
    ensures forall b <- w.uploads :: k !in b
    ensures forall f <- w.refills :: k !in f.saved && k !in f.todo
  {
    assert multiset(w.claims)[k] >= 1;
    assert k in w.relay ==> multiset(w.relay)[k] >= 1;
    forall i | 0 <= i < |w.uploads| ensures k !in w.uploads[i] {
      AllMembers(w.uploads, i);
    }
    forall i | 0 <= i < |w.refills| ensures k !in w.refills[i].saved && k !in w.refills[i].todo {
      AllMembers(KeyLists(w.refills), i);
      assert KeyLists(w.refills)[i] == Keys(w.refills[i]);
    }
  }

  lemma RefillingDurable(w: World, k: PublicKey)
    requires Durable(w, k)
    ensures Durable(Refilling(w), k)
  {
    var w' := Refilling(w);
    assert forall f <- w'.refills :: k in f.saved ==> f in w.refills;
  }

  lemma RefillStepDurable(w: World, e: Event, w': World, k: PublicKey)
    requires e.Hold? || e.Save? || e.Fail? || e.Upload?
    requires Enabled(w, e) && w' == Apply(w, e)
    requires Durable(w, k) && Housekeeping(w)
    ensures Durable(w', k)
  {
    var f := w.refills[e.refill];
    assert f in w.refills;
    assert forall g <- w'.refills :: g in w.refills || g == w'.refills[e.refill];
    if Outstanding(w', k) && !(e.Save? && k == f.todo[0]) {
      assert Outstanding(w, k);
    }
  }

  lemma TransferDurable(w: World, e: Event, w': World, k: PublicKey)
    requires e.DeliverUpload? || e.LoseUpload? || e.Claim?
    requires Enabled(w, e) && w' == Apply(w, e)
    requires Durable(w, k) && Housekeeping(w)
    ensures Durable(w', k)
  {
    if Outstanding(w', k) {
      if e.Claim? {
        assert w.relay[e.row] in w.relay;
      } else {
        assert w.uploads[e.upload] in w.uploads;
        assert forall b <- w'.uploads :: b in w.uploads;
        if e.DeliverUpload? {
          var toStore := ToStore(w.relay, w.uploads[e.upload]);
          StoreAdds(w.relay, toStore);
          if k in w'.relay {
            assert k in multiset(w'.relay);
            assert k in w.relay || k in toStore;
          }
        }
      }
      assert Outstanding(w, k);
    }
  }

  lemma UseDurable(w: World, key: PublicKey, k: PublicKey)
    requires Durable(w, k) && OnePlace(w, key) && key in w.claims
    ensures Durable(Used(w, key), k)
  {
    hide OnePlace;
    var w1 := w.(pool := w.pool - {key}, deletes := w.deletes + {key}, used := w.used + {key});
    ClaimedIsOnlyThere(w, key);
    if Outstanding(w1, k) {
      assert Outstanding(w, k) && k != key;
    }
    RefillingDurable(w1, k);
  }

  lemma OtherDurable(w: World, e: Event, w': World, k: PublicKey)
    requires e.Crash? || e.Restart? || e.Ready? || e.Initiate? || e.LoseDelete?
    requires Enabled(w, e) && w' == Apply(w, e) && Durable(w, k) && Housekeeping(w)
    ensures Durable(w', k)
  {
    hide Initiated, Generated;
    if e.Restart? {
      RefillingDurable(w.(phase := Starting, pool := w.disk), k);
    }
  }

  lemma DeliverInitDurable(w: World, i: nat, w': World, k: PublicKey)
    requires Enabled(w, DeliverInit(i)) && w' == Apply(w, DeliverInit(i)) && Durable(w, k)
    requires InitOk(w, w.inits[i]) && forall key :: OnePlace(w, key)
    ensures Durable(w', k)
  {
    hide Durable, OnePlace, Used;
    var opk := w.inits[i].envelope.usedOneTimePreKeyPublic;
    if opk.Some? && opk.value in w.pool {
      InitClaims(w, i);
      UseDurable(w, opk.value, k);
    }
  }

  lemma DeleteDurable(w: World, key: PublicKey, w': World, k: PublicKey)
    requires Enabled(w, Delete(key)) && w' == Apply(w, Delete(key)) && Durable(w, k) && Housekeeping(w) &&
             OnePlace(w, key)
    ensures Durable(w', k)
  {
    hide OnePlace;
    ClaimedIsOnlyThere(w, key);
    if Outstanding(w', k) {
      assert Outstanding(w, k) && k != key;
    }
  }

  lemma DurableKept(w: World, e: Event, w': World, k: PublicKey)
    requires Enabled(w, e) && w' == Apply(w, e)
    requires Inv(w)
    ensures Durable(w', k)
  {
    hide Apply, OnePlace, Durable, Housekeeping, InitOk;
    assert Durable(w, k);
    if e.Hold? || e.Save? || e.Fail? || e.Upload? {
      RefillStepDurable(w, e, w', k);
    } else if e.DeliverUpload? || e.LoseUpload? || e.Claim? {
      TransferDurable(w, e, w', k);
    } else if e.DeliverInit? {
      assert w.inits[e.init] in w.inits;
      DeliverInitDurable(w, e.init, w', k);
    } else if e.Delete? {
      DeleteDurable(w, e.key, w', k);
    } else {
      OtherDurable(w, e, w', k);
    }
  }

  lemma InitClaims(w: World, i: nat)
    requires i < |w.inits| && InitOk(w, w.inits[i])
    ensures var opk := w.inits[i].envelope.usedOneTimePreKeyPublic; opk.Some? ==> opk.value in w.claims
  {
  }

  // ---- Bookkeeping ----

  lemma RefillingKeeps(w: World)
    requires Housekeeping(w) && w.phase != Down
    ensures Housekeeping(Refilling(w))
  {
    hide Generated;
    var w' := Refilling(w);
    assert forall f <- w'.refills :: f.held ==> f in w.refills;
  }

  lemma UseKeeps(w: World, key: PublicKey)
    requires Housekeeping(w) && OnePlace(w, key) && key in w.claims && w.phase != Down
    ensures Housekeeping(Used(w, key))
  {
    hide OnePlace;
    ClaimedIsOnlyThere(w, key);
    RefillingKeeps(w.(pool := w.pool - {key}, deletes := w.deletes + {key}, used := w.used + {key}));
  }

  lemma HousekeepingKept(w: World, e: Event, w': World)
    requires Enabled(w, e) && w' == Apply(w, e)
    requires Housekeeping(w)
    requires e.DeliverInit? ==> InitOk(w, w.inits[e.init]) && forall key :: OnePlace(w, key)
    ensures Housekeeping(w')
  {
    hide OnePlace, InitOk, Initiated, InsertOrIgnore, ToStore, Generated, Refilling, Used;
    if e.DeliverInit? {
      var opk := w.inits[e.init].envelope.usedOneTimePreKeyPublic;
      if opk.Some? && opk.value in w.pool {
        InitClaims(w, e.init);
        UseKeeps(w, opk.value);
      }
    } else if e.Restart? {
      RefillingKeeps(w.(phase := Starting, pool := w.disk));
    } else if e.Hold? || e.Save? || e.Fail? || e.Upload? {
      RefillStepKept(w, e, w');
    }
  }

  lemma RefillStepKept(w: World, e: Event, w': World)
    requires e.Hold? || e.Save? || e.Fail? || e.Upload?
    requires Enabled(w, e) && w' == Apply(w, e) && Housekeeping(w)
    ensures Housekeeping(w')
  {
    hide Initiated, InsertOrIgnore, ToStore, Generated, Refilling, Used;
    assert w.refills[e.refill] in w.refills;
    assert forall g <- w'.refills :: g in w.refills || g == w'.refills[e.refill];
  }

  lemma InitStays(w: World, e: Event, w': World, i: Init)
    requires Enabled(w, e) && w' == Apply(w, e)
    requires (i in w.inits && InitOk(w, i)) || (e.Initiate? && i == w'.inits[|w.inits|])
    ensures InitOk(w', i)
  {
    hide Initiated, InsertOrIgnore, ToStore, Generated;
    if i in w.inits && InitOk(w, i) {
      var opk: Option<PublicKey>, alice, ephemeral, seed, first :|
        IsPair(alice) && (opk.Some? ==> opk.value in w.claims) &&
        i == Initiated(w.owner, opk, alice, ephemeral, seed, first);
      assert opk.Some? ==> opk.value in w'.claims;
    }
  }

  lemma InvKept(w: World, e: Event, w': World)
    requires Enabled(w, e) && w' == Apply(w, e) && Inv(w)
    ensures Inv(w')
  {
    hide OnePlace, Durable, InitOk, Housekeeping;
    PlacesKept(w, e, w');
    forall k ensures Durable(w', k) {
      DurableKept(w, e, w', k);
    }
    if e.DeliverInit? {
      assert w.inits[e.init] in w.inits;
    }
    HousekeepingKept(w, e, w');
    forall i <- w'.inits ensures InitOk(w', i) {
      InitFrom(w, e, w', i);
      InitStays(w, e, w', i);
    }
  }

  lemma InitFrom(w: World, e: Event, w': World, i: Init)
    requires Enabled(w, e) && w' == Apply(w, e) && i in w'.inits
    ensures i in w.inits || (e.Initiate? && i == w'.inits[|w.inits|])
  {
    hide Initiated, InsertOrIgnore, ToStore, Generated;
  }

  lemma {:induction false} RunKeepsInv(w: World, events: seq<Event>, w': World)
    requires Run(w, events, w') && Inv(w)
    ensures Inv(w')
    decreases |events|
  {
    hide Inv, Apply, Enabled;
    if events == [] {
    } else {
      InvKept(w, events[0], Apply(w, events[0]));
      RunKeepsInv(Apply(w, events[0]), events[1..], w');
    }
  }

  // ---- A refill on its own ----

  /** The steps of a refill over its next n keys, with nothing in between. */
  function HoldsAndSaves(r: nat, n: nat): seq<Event> {
    if n == 0 then [] else [Hold(r), Save(r)] + HoldsAndSaves(r, n - 1)
  }

  function Persisted(w: World, r: nat, n: nat): World
    requires r < |w.refills| && n <= |w.refills[r].todo|
  {
    var f := w.refills[r];
    w.(pool := w.pool + Pairs(f.todo[..n]), disk := w.disk + Pairs(f.todo[..n]),
       refills := w.refills[r := Refill(f.todo[n..], false, f.saved + f.todo[..n])])
  }

  /** Run without interruption, the steps of a refill do to memory and disk what `OpkPool.PersistAll` does. */
  lemma {:induction false} RefillPersistsAll(w: World, r: nat, n: nat)
    requires r < |w.refills| && n <= |w.refills[r].todo| && !w.refills[r].held
    ensures Run(w, HoldsAndSaves(r, n), Persisted(w, r, n))
    decreases n
  {
    if n == 0 {
      PersistedNone(w, r);
    } else {
      var w2 := Apply(Apply(w, Hold(r)), Save(r));
      RefillPersistsAll(w2, r, n - 1);
      PersistedTwice(w, w2, r, n);
      RunTwice(w, Hold(r), Save(r), HoldsAndSaves(r, n - 1), Persisted(w2, r, n - 1));
    }
  }

  lemma PersistedNone(w: World, r: nat)
    requires r < |w.refills| && !w.refills[r].held
    ensures Persisted(w, r, 0) == w
  {
    var f := w.refills[r];
    PairsOfNone(w.pool);
    PairsOfNone(w.disk);
    hide Pairs;
    assert f.saved + [] == f.saved && f.todo[..0] == [] && f.todo[0..] == f.todo && w.refills[r := f] == w.refills;
  }

  lemma PersistedTwice(w: World, w2: World, r: nat, n: nat)
    requires r < |w.refills| && 0 < n <= |w.refills[r].todo| && !w.refills[r].held
    requires w2 == Apply(Apply(w, Hold(r)), Save(r))
    ensures Persisted(w2, r, n - 1) == Persisted(w, r, n)
  {
    var todo, saved := w.refills[r].todo, w.refills[r].saved;
    assert todo[..n] == [todo[0]] + todo[1..][..n - 1] && todo[n..] == todo[1..][n - 1..];
    assert saved + todo[..n] == saved + [todo[0]] + todo[1..][..n - 1];
    PairsFirst(w.pool, todo[0], todo[1..][..n - 1]);
    PairsFirst(w.disk, todo[0], todo[1..][..n - 1]);
    hide Pairs;
  }

  lemma RunTwice(w: World, a: Event, b: Event, rest: seq<Event>, w': World)
    requires Enabled(w, a) && Enabled(Apply(w, a), b) && Run(Apply(Apply(w, a), b), rest, w')
    ensures Run(w, [a, b] + rest, w')
  {
    hide Enabled, Apply;
    var events := [a, b] + rest;
    assert events[1..] == [b] + rest && events[1..][1..] == rest;
  }

  lemma {:induction false} RunConcat(w: World, front: seq<Event>, w1: World, back: seq<Event>, w2: World)
    requires Run(w, front, w1) && Run(w1, back, w2)
    ensures Run(w, front + back, w2)
    decreases |front|
  {
    hide Enabled, Apply;
    if front == [] {
      assert front + back == back;
    } else {
      var next := Apply(w, front[0]);
      RunConcat(next, front[1..], w1, back, w2);
      assert (front + back)[0] == front[0] && (front + back)[1..] == front[1..] + back;
    }
  }

  /** A refill that nothing disturbs, and whose upload arrives, ends with all its keys on disk and on offer. */
  lemma RefillReachesRelay(w: World, r: nat) returns (w': World)
    requires r < |w.refills| && !w.refills[r].held && w.refills[r].saved == []
    requires |w.refills[r].todo| <= MAX_OPKS_PER_UPLOAD && |w.relay| + |w.refills[r].todo| <= MAX_OPKS_PER_IDENTITY
    ensures var keys := w.refills[r].todo;
            && Run(w, HoldsAndSaves(r, |keys|) + [Upload(r), DeliverUpload(|w.uploads|)], w')
            && (forall k <- keys :: k in w'.relay && k in w'.disk && k in w'.pool)
            && w'.uploads == w.uploads && w.relay <= w'.relay
  {
    var keys := w.refills[r].todo;
    RefillPersistsAll(w, r, |keys|);
    var w1 := Persisted(w, r, |keys|);
    assert keys[..|keys|] == keys && [] + keys == keys;
    assert w1.refills[r].saved == keys;
    var w2 := Apply(w1, Upload(r));
    assert w2.uploads == w.uploads + [keys];
    w' := Apply(w2, DeliverUpload(|w.uploads|));
    StoreAdds(w.relay, ToStore(w.relay, keys));
    RelayStaysBounded(w.relay, keys);
    hide InsertOrIgnore, ToStore;
    RunTwice(w1, Upload(r), DeliverUpload(|w.uploads|), [], w');
    assert [Upload(r), DeliverUpload(|w.uploads|)] + [] == [Upload(r), DeliverUpload(|w.uploads|)];
    RunConcat(w, HoldsAndSaves(r, |keys|), w1, [Upload(r), DeliverUpload(|w.uploads|)], w');
  }

  // ---- Main results ----

  /** A used key leaves memory at once and the disk later, and a pool that has run low starts a refill to its target. */
  lemma UseReplenishes(w: World, i: nat, k: PublicKey)
    requires Enabled(w, DeliverInit(i)) && w.inits[i].envelope.usedOneTimePreKeyPublic == Some(k) && k in w.pool
    ensures var w' := Apply(w, DeliverInit(i));
            && w'.pool == w.pool - {k} && k in w'.deletes && k in w'.used && w'.disk == w.disk
            && if |w.pool| - 1 >= 3 then w'.refills == w.refills
               else && |w'.refills| == |w.refills| + 1 && w.refills <= w'.refills
                    && |w'.refills[|w.refills|].todo| + |w.pool| - 1 == 10
  {
    hide Initiated;
  }

  /** A restart brings back what is on disk and starts a refill of what is missing. */
  lemma RestartRefills(w: World)
    requires Enabled(w, Restart)
    ensures var w' := Apply(w, Restart);
            && w'.phase == Starting && w'.pool == w.disk && w'.disk == w.disk
            && if |w.disk| >= 10 then w'.refills == w.refills
               else && |w'.refills| == |w.refills| + 1 && w.refills <= w'.refills
                    && |w'.refills[|w.refills|].todo| + |w.disk| == 10
  {
  }

  /** A refill tops the pool up to its target size with keys nobody has seen. */
  lemma RefillTopsUp(w: World)
    ensures var w' := Refilling(w);
            if |w.pool| >= OPK_POOL_SIZE then w' == w
            else
              var todo := w'.refills[|w.refills|].todo;
              && |w.pool| + |todo| == OPK_POOL_SIZE
              && (forall i, j | 0 <= i < j < |todo| :: todo[i] != todo[j])
              && (forall k <- todo :: w.unseen <= k.secret < w'.unseen)
  {
  }

  lemma MigratedInv(w: World)
    requires Migrated(w)
    ensures Inv(w)
  {
    forall k ensures OnePlace(w, k) {
      assert k in multiset(w.relay) ==> k in w.relay;
    }
  }

  /**
    In every run with crashes and lost uploads, a key others may still build on is on its owner's disk, and in its
    memory.
   */
  lemma OutstandingIsDurable(w: World, events: seq<Event>, w': World, k: PublicKey)
    requires Migrated(w) && Run(w, events, w') && Outstanding(w', k)
    ensures k in w'.disk && w'.disk[k] == k.secret
    ensures w'.phase != Down ==> Lookup(w'.pool, k) == Some(KeyPairOf(k.secret))
  {
    MigratedInv(w);
    RunKeepsInv(w, events, w');
    assert Durable(w', k);
  }

  lemma OnceMeansDistinct(s: seq<PublicKey>, i: nat, j: nat)
    requires i < j < |s| && multiset(s)[s[i]] <= 1
    ensures s[i] != s[j]
  {
    var front, back := s[..j], s[j..];
    assert s == front + back && front[i] == s[i] && back[0] == s[j];
    assert s[i] in multiset(front) && s[j] in multiset(back);
  }

  /** No key is ever claimed twice, nor claimed while the relay still offers it or an upload still carries it. */
  lemma ClaimedOnce(w: World, events: seq<Event>, w': World)
    requires Migrated(w) && Run(w, events, w')
    ensures forall i, j | 0 <= i < j < |w'.claims| :: w'.claims[i] != w'.claims[j]
    ensures forall k <- w'.claims :: k !in w'.relay && forall b <- w'.uploads :: k !in b
  {
    MigratedInv(w);
    RunKeepsInv(w, events, w');
    forall i, j | 0 <= i < j < |w'.claims| ensures w'.claims[i] != w'.claims[j] {
      assert OnePlace(w', w'.claims[i]);
      OnceMeansDistinct(w'.claims, i, j);
    }
    forall k <- w'.claims ensures k !in w'.relay && forall b <- w'.uploads :: k !in b {
      assert OnePlace(w', k);
      ClaimedIsOnlyThere(w', k);
    }
  }

  /** Both sides of a handshake agree exactly when no one-time pre-key was used or the owner still holds it. */
  lemma AgreeIffHeld(w: World, i: Init)
    requires Inv(w) && i in w.inits
    ensures var opk := i.envelope.usedOneTimePreKeyPublic;
            OwnerSecret(w, i.envelope) == i.sharedSecret <==> opk.None? || opk.value in w.pool
  {
    assert InitOk(w, i);
    var opk: Option<PublicKey>, alice, ephemeral, seed, first :| IsPair(alice) && (opk.Some? ==> opk.value in w.claims)
      && i == Initiated(w.owner, opk, alice, ephemeral, seed, first);
    var held := if opk.Some? then Lookup(w.pool, opk.value) else None;
    SecretsAgree(alice, Bundle(w.owner, opk), ephemeral, seed, w.owner.identity, w.owner.signedPreKey, held,
      w.owner.pqSecretKey);
  }

  /** The responder's session after an `x3dh_init`. */
  function OwnerSession(w: World, e: Envelope): Ratchet.State {
    Ratchet.InitReceiver(OwnerSecret(w, e), w.owner.signedPreKey)
  }

  ghost predicate NotUsedYet(w: World, i: Init) {
    var opk := i.envelope.usedOneTimePreKeyPublic;
    opk.Some? ==> opk.value !in w.used
  }

  /**
    The first `x3dh_init` that uses a claimed key, and any that uses none, gives both sides one secret, whatever
    happened before, and puts them in the two states in which the runs of the ratchet start.
   */
  lemma FirstInitAgrees(w: World, events: seq<Event>, w': World, i: Init, next: nat)
    requires Migrated(w) && Run(w, events, w') && i in w'.inits && w'.phase == Up && NotUsedYet(w', i)
    ensures OwnerSecret(w', i.envelope) == i.sharedSecret
    ensures var start := RatchetRuns.Start(i.sharedSecret, w'.owner.signedPreKey.privateKey,
                                           i.session.dhSending.privateKey, next);
            start.initiator == i.session && start.responder == OwnerSession(w', i.envelope)
  {
    MigratedInv(w);
    RunKeepsInv(w, events, w');
    AgreeIffHeld(w', i);
    assert InitOk(w', i);
    var opk := i.envelope.usedOneTimePreKeyPublic;
    if opk.Some? {
      assert Durable(w', opk.value);
    }
  }

  // ---- Each claim is used by one handshake ----

  function KeyNamed(i: Init): Option<PublicKey> {
    i.envelope.usedOneTimePreKeyPublic
  }

  /** An initiator names itself, its ephemeral key and exactly the key it claimed, or none if it claimed none. */
  lemma InitiateUsesItsClaim(w: World, claim: Option<nat>, alice: KeyPair, ephemeral: nat, seed: nat, first: nat)
    requires Enabled(w, Initiate(claim, alice, ephemeral, seed, first))
    ensures var w' := Apply(w, Initiate(claim, alice, ephemeral, seed, first));
            && |w'.inits| == |w.inits| + 1 && w.inits <= w'.inits && w'.claims == w.claims
            && var i := w'.inits[|w.inits|];
            && KeyNamed(i) == (if claim.Some? then Some(w.claims[claim.value]) else None)
            && i.envelope.identityKey == alice.publicKey && i.envelope.ephemeralPublicKey == PublicKey(ephemeral)
            && i.session.dhSending == KeyPairOf(first)
  {
  }

  /** No two handshakes name one one-time key. */
  ghost predicate KeysApart(w: World) {
    forall i, j | 0 <= i < j < |w.inits| && KeyNamed(w.inits[i]).Some? :: KeyNamed(w.inits[i]) != KeyNamed(w.inits[j])
  }

  lemma StepKeepsApart(w: World, e: Event, w': World)
    requires Enabled(w, e) && w' == Apply(w, e) && KeysApart(w)
    ensures KeysApart(w') && w.inits <= w'.inits
  {
    if e.Initiate? {
      InitiateUsesItsClaim(w, e.claim, e.alice, e.ephemeral, e.seed, e.first);
      hide Apply;
      forall i | 0 <= i < |w.inits| && KeyNamed(w.inits[i]).Some?
        ensures KeyNamed(w.inits[i]) != KeyNamed(w'.inits[|w.inits|])
      {
        assert w.inits[i] in w.inits;
      }
      assert forall i | 0 <= i < |w.inits| :: w'.inits[i] == w.inits[i];
    } else {
      hide InsertOrIgnore, ToStore, Generated;
      assert w'.inits == w.inits;
    }
  }

  lemma {:induction false} RunKeepsApart(w: World, events: seq<Event>, w': World)
    requires Run(w, events, w') && KeysApart(w)
    ensures KeysApart(w') && w.inits <= w'.inits
    decreases |events|
  {
    if events == [] {
    } else {
      hide KeysApart, Apply, Enabled;
      StepKeepsApart(w, events[0], Apply(w, events[0]));
      RunKeepsApart(Apply(w, events[0]), events[1..], w');
    }
  }

  /** A key is used up only by a delivery of a handshake that names it. */
  lemma StepUses(w: World, e: Event, w': World, k: PublicKey)
    requires Enabled(w, e) && w' == Apply(w, e) && k in w'.used
    ensures k in w.used || (e.DeliverInit? && KeyNamed(w.inits[e.init]) == Some(k))
  {
    hide InsertOrIgnore, ToStore, Generated, Initiated;
  }

  lemma {:induction false} UsedByDelivery(w: World, events: seq<Event>, w': World, k: PublicKey) returns (i: nat)
    requires Run(w, events, w') && KeysApart(w) && k in w'.used && k !in w.used
    ensures i < |w'.inits| && KeyNamed(w'.inits[i]) == Some(k) && DeliverInit(i) in events
    decreases |events|
  {
    hide KeysApart, Apply;
    if events == [] {
      assert false;
    } else {
      var e, next := events[0], Apply(w, events[0]);
      StepKeepsApart(w, e, next);
      RunKeepsApart(next, events[1..], w');
      assert e == events[0];
      if k in next.used {
        StepUses(w, e, next, k);
        i := e.init;
      } else {
        i := UsedByDelivery(next, events[1..], w', k);
        assert events == [e] + events[1..];
      }
    }
  }

  /**
    In every run each claimed key is named by one handshake, and the first delivery of any handshake gives both sides
    one secret, as long as the owner is up: whatever other handshakes were delivered before, and however often.
   */
  lemma FirstDeliveryAgrees(w: World, events: seq<Event>, w': World, i: nat)
    requires Migrated(w) && Run(w, events, w') && w'.phase == Up
    requires i < |w'.inits| && DeliverInit(i) !in events
    ensures OwnerSecret(w', w'.inits[i].envelope) == w'.inits[i].sharedSecret && NotUsedYet(w', w'.inits[i])
    ensures KeysApart(w')
  {
    var named := KeyNamed(w'.inits[i]);
    hide Run, Enabled, Apply, OwnerSecret;
    RunKeepsApart(w, events, w');
    if named.Some? && named.value in w'.used {
      var j := UsedByDelivery(w, events, w', named.value);
    }
    FirstInitAgrees(w, events, w', w'.inits[i], 0);
  }

  /**
    From the handshake on: between the session the initiator kept and the one the owner opened, any packet ever sent
    opens, to its own plaintext, exactly when it was not opened before and its skips are within the bound.
   */
  lemma MessagesAfterFirstInit(w: World, events: seq<Event>, w': World, i: Init, next: nat,
                               messages: seq<RatchetRuns.Event>, index: nat)
    requires Migrated(w) && Run(w, events, w') && i in w'.inits && w'.phase == Up && NotUsedYet(w', i)
    requires RatchetRuns.Drawn(w'.owner.signedPreKey.privateKey, i.session.dhSending.privateKey, next)
    ensures var start := Sessions(w', i, next);
            var now := RatchetRuns.Run(start, messages);
            index < |now.packets| ==>
              var p, r := now.packets[index], RatchetRuns.DeliverResult(now, index);
              && (r.Success? <==>
                    && !RatchetRuns.DeliveredIn(start, messages, index)
                    && RatchetRuns.SkipsWithinLimit(RatchetRuns.StateOf(now, RatchetRuns.Peer(p.sender)), p.header))
              && (r.Success? ==> r.value.1 == p.plaintext)
  {
    FirstInitAgrees(w, events, w', i, next);
    var preKey, first := w'.owner.signedPreKey.privateKey, i.session.dhSending.privateKey;
    assert Sessions(w', i, next) == RatchetRuns.Start(i.sharedSecret, preKey, first, next);
    hide *;
    if index < |RatchetRuns.Run(Sessions(w', i, next), messages).packets| {
      RatchetRuns.PendingMessageDecrypts(i.sharedSecret, preKey, first, next, messages, index);
    }
  }

  /** The two sessions of a handshake, with nothing sent yet. */
  function Sessions(w: World, i: Init, next: nat): RatchetRuns.World {
    var preKey, first := w.owner.signedPreKey.privateKey, i.session.dhSending.privateKey;
    RatchetRuns.World(i.session, OwnerSession(w, i.envelope), next, [],
                      RatchetRuns.History(i.sharedSecret, [preKey, first], [0, 0], {}))
  }

  /** A repeated `x3dh_init` right after the first no longer agrees: the owner has dropped the key. */
  lemma RepeatedInitDiverges(w: World, events: seq<Event>, w': World, i: nat)
    requires Migrated(w) && Run(w, events, w') && Enabled(w', DeliverInit(i))
    requires w'.inits[i].envelope.usedOneTimePreKeyPublic.Some?
    ensures var e := w'.inits[i].envelope;
            OwnerSecret(Apply(w', DeliverInit(i)), e) != w'.inits[i].sharedSecret
  {
    MigratedInv(w);
    RunKeepsInv(w, events, w');
    InvKept(w', DeliverInit(i), Apply(w', DeliverInit(i)));
    AgreeIffHeld(Apply(w', DeliverInit(i)), w'.inits[i]);
  }

  // ---- Once the deletion of a used key has reached the disk ----

  lemma StepKeepsGone(w: World, e: Event, w': World, k: PublicKey)
    requires Enabled(w, e) && w' == Apply(w, e) && Inv(w) && k in w.used && k !in w.disk
    ensures k in w'.used && k !in w'.disk
    ensures k !in w.pool || e.Restart? ==> k !in w'.pool
  {
    hide Initiated, InsertOrIgnore, ToStore, Generated, Durable, Places, InitOk;
    assert OnePlace(w, k);
    assert k in w.claims;
    ClaimedIsOnlyThere(w, k);
    hide OnePlace;
    if e.Hold? || e.Save? {
      assert w.refills[e.refill] in w.refills;
      assert w.refills[e.refill].todo[0] in w.refills[e.refill].todo;
    }
  }

  lemma {:induction false} RunKeepsGone(w: World, events: seq<Event>, w': World, k: PublicKey)
    requires Run(w, events, w') && Inv(w) && k in w.used && k !in w.disk
    ensures k in w'.used && k !in w'.disk
    ensures k !in w.pool || Restart in events ==> k !in w'.pool
    decreases |events|
  {
    hide Inv, Apply, Enabled;
    if events == [] {
    } else {
      var next := Apply(w, events[0]);
      StepKeepsGone(w, events[0], next, k);
      InvKept(w, events[0], next);
      RunKeepsGone(next, events[1..], w', k);
      assert events == [events[0]] + events[1..];
    }
  }

  /** The deletion of a key reaches the disk only after a handshake used it. */
  lemma DeletionsAreOfUsedKeys(w: World, k: PublicKey)
    requires Enabled(w, Delete(k)) && Inv(w)
    ensures var w' := Apply(w, Delete(k)); k in w'.used && k !in w'.disk
  {
    hide OnePlace, Durable, InitOk;
  }

  /**
    Once the deletion of a used key has reached the disk the key never comes back; after the next restart at the latest
    every repeat of the handshake that used it derives another secret, for good.
   */
  lemma DeletedKeysStayGone(w: World, front: seq<Event>, w1: World, k: PublicKey, back: seq<Event>, w': World, i: Init)
    requires Migrated(w) && Run(w, front, w1) && Run(w1, back, w')
    requires k in w1.used && k !in w1.disk
    ensures k !in w'.disk
    ensures (k !in w1.pool || Restart in back) && i in w'.inits && KeyNamed(i) == Some(k) ==>
              k !in w'.pool && OwnerSecret(w', i.envelope) != i.sharedSecret
  {
    MigratedInv(w);
    RunKeepsInv(w, front, w1);
    RunKeepsInv(w1, back, w');
    RunKeepsGone(w1, back, w', k);
    hide Inv, Run, OwnerSecret;
    if i in w'.inits {
      AgreeIffHeld(w', i);
    }
  }
}
