/** Trial decryption over all stored sessions, `handleDataPacket` in `src/sdk/message-handler.ts`. */
module Sessions {
  import opened Wrappers
  import opened Crypto
  import opened Ratchet

  type PeerId = string

  // ---- Sessions on different secrets share no keys ----

  ghost predicate KeysFrom(s: State, origin: Key) {
    && Origin(s.rootKey) == origin
    && (s.sendingChainKey.Some? ==> Origin(s.sendingChainKey.value) == origin)
    && (s.receivingChainKey.Some? ==> Origin(s.receivingChainKey.value) == origin)
    && (forall id <- s.skippedMessageKeys :: Origin(s.skippedMessageKeys[id]) == origin)
  }

  ghost predicate SealedFrom(ciphertext: Ciphertext, origin: Key) {
    ciphertext.Sealed? && Origin(ciphertext.key) == origin
  }

  lemma {:induction false} AdvanceOrigin(chainKey: Key, n: nat)
    ensures Origin(Advance(chainKey, n)) == Origin(chainKey)
  {
    if n == 0 {
    } else {
      AdvanceOrigin(chainKey, n - 1);
    }
  }

  lemma SkippedKeepsOrigin(s: State, until: nat, origin: Key)
    requires KeysFrom(s, origin) && (s.receivingChainKey.Some? ==> s.dhReceiving.Some?)
    ensures KeysFrom(Skipped(s, until), origin)
  {
    if s.receivingChainKey.Some? && until > s.receiveMessageNumber {
      var from, chainKey, s' := s.receiveMessageNumber, s.receivingChainKey.value, Skipped(s, until);
      AdvanceOrigin(chainKey, until - from);
      forall id <- s'.skippedMessageKeys ensures Origin(s'.skippedMessageKeys[id]) == origin {
        if id in ChainKeys(s.dhReceiving.value, chainKey, from, until) {
          AdvanceOrigin(chainKey, id.messageNumber - from);
        }
      }
    }
  }

  lemma InitFromSecret(sharedSecret: Key, publicKey: PublicKey, keyPair: KeyPair, newSecret: nat)
    ensures KeysFrom(InitSender(sharedSecret, publicKey, newSecret), Origin(sharedSecret))
    ensures KeysFrom(InitReceiver(sharedSecret, keyPair), Origin(sharedSecret))
  {
  }

  lemma EncryptKeepsOrigin(s: State, plaintext: Bytes, origin: Key)
    requires KeysFrom(s, origin)
    ensures var r := Encrypt(s, plaintext); r.Success? ==> KeysFrom(r.value.0, origin) && SealedFrom(r.value.2, origin)
  {
  }

  /** A session opens only what was sealed under its own secret, whatever the header says, and stays on it. */
  lemma DecryptKeepsOrigin(s: State, header: Header, ciphertext: Ciphertext, newSecret: nat, origin: Key)
    requires KeysFrom(s, origin)
    ensures var r := Decrypt(s, header, ciphertext, newSecret);
            r.Success? ==> KeysFrom(r.value.0, origin) && SealedFrom(ciphertext, origin)
  {
    if !HoldsSkippedKey(s, header) {
      OnHeaderChainKeepsOrigin(s, header, newSecret, origin);
      SkippedKeepsOrigin(OnHeaderChain(s, header, newSecret), header.messageNumber, origin);
    }
  }

  lemma OnHeaderChainKeepsOrigin(s: State, header: Header, newSecret: nat, origin: Key)
    requires KeysFrom(s, origin)
    ensures KeysFrom(OnHeaderChain(s, header, newSecret), origin)
  {
    if s.dhReceiving.Some? {
      SkippedKeepsOrigin(s, header.previousChainLength, origin);
    }
    var ranOut := if s.dhReceiving.Some? then Skipped(s, header.previousChainLength) else s;
    assert KeysFrom(ranOut, origin);
    var stepped := DhRatchetStep(ranOut, header.dhPublicKey, newSecret);
    assert Origin(stepped.rootKey) == Origin(RootOf(ranOut.rootKey, Dh(ranOut.dhSending, header.dhPublicKey)));
    assert KeysFrom(stepped, origin);
  }

  // ---- The handler ----

  /** The session map with its iteration order, and the index from ratchet keys to peers. */
  class SessionTable {
    var order: seq<PeerId>
    var sessions: map<PeerId, State>
    var dhKeyIndex: map<PublicKey, PeerId>

    ghost predicate Valid()
      reads this
    {
      forall peer :: peer in order <==> peer in sessions
    }

    constructor ()
      ensures Valid() && sessions == map[] && dhKeyIndex == map[]
    {
      order, sessions, dhKeyIndex := [], map[], map[];
    }

    /** Try the indexed session, then every session in order; keep the first that decrypts.
        `newSecret` is the random key a DH step for that peer would draw. */
    method HandleDataPacket(header: Header, ciphertext: Ciphertext, newSecret: PeerId -> nat)
      returns (r: Option<(PeerId, Bytes)>)
      requires Valid()
      modifies this`sessions, this`dhKeyIndex
      ensures Valid()
      ensures r == Matched(order, old(sessions), old(dhKeyIndex), header, ciphertext, newSecret)
      ensures (sessions, dhKeyIndex) == Handled(old(sessions), old(dhKeyIndex), r, header, ciphertext, newSecret)
      ensures header.dhPublicKey in old(dhKeyIndex) && old(dhKeyIndex)[header.dhPublicKey] in old(sessions) ==>
                var indexed := old(dhKeyIndex)[header.dhPublicKey];
                Attempt(old(sessions), indexed, header, ciphertext, newSecret).Success? ==>
                  r == FoundBy(old(sessions), indexed, header, ciphertext, newSecret)
      ensures r.None? ==> sessions == old(sessions) && dhKeyIndex == old(dhKeyIndex)
      ensures r.Some? ==>
                var peer := r.value.0;
                && peer in old(sessions)
                && Attempt(old(sessions), peer, header, ciphertext, newSecret).Success?
                && sessions ==
                   old(sessions)[peer := Attempt(old(sessions), peer, header, ciphertext, newSecret).value.0]
                && dhKeyIndex == old(dhKeyIndex)[header.dhPublicKey := peer]
    {
      if header.dhPublicKey in dhKeyIndex && dhKeyIndex[header.dhPublicKey] in sessions {
        var indexed := dhKeyIndex[header.dhPublicKey];
        var result := RatchetDecrypt(sessions[indexed], header, ciphertext, newSecret(indexed));
        if result.Success? {
          sessions := sessions[indexed := result.value.0];
          dhKeyIndex := dhKeyIndex[header.dhPublicKey := indexed];
          return Some((indexed, result.value.1));
        }
      }
      var i := 0;
      while i < |order|
        invariant 0 <= i <= |order|
        invariant sessions == old(sessions) && dhKeyIndex == old(dhKeyIndex)
        invariant FirstMatch(order, sessions, header, ciphertext, newSecret) ==
                  FirstMatch(order[i..], sessions, header, ciphertext, newSecret)
      {
        var peer := order[i];
        var result := RatchetDecrypt(sessions[peer], header, ciphertext, newSecret(peer));
        if result.Success? {
          sessions := sessions[peer := result.value.0];
          dhKeyIndex := dhKeyIndex[header.dhPublicKey := peer];
          return Some((peer, result.value.1));
        }
        i := i + 1;
      }
      return None;
    }
  }

  function Attempt(sessions: map<PeerId, State>, peer: PeerId, header: Header, ciphertext: Ciphertext,
                   newSecret: PeerId -> nat)
    : Result<(State, Bytes), Error>
    requires peer in sessions
  {
    Decrypt(sessions[peer], header, ciphertext, newSecret(peer))
  }

  /** The session map and the index once a packet was found to belong to a session: that one moves on and is indexed. */
  function Handled(sessions: map<PeerId, State>, dhKeyIndex: map<PublicKey, PeerId>, found: Option<(PeerId, Bytes)>,
                   header: Header, ciphertext: Ciphertext, newSecret: PeerId -> nat)
    : (map<PeerId, State>, map<PublicKey, PeerId>)
  {
    if found.None? || found.value.0 !in sessions then (sessions, dhKeyIndex) else
    var peer := found.value.0;
    var r := Attempt(sessions, peer, header, ciphertext, newSecret);
    if r.Failure? then (sessions, dhKeyIndex)
    else (sessions[peer := r.value.0], dhKeyIndex[header.dhPublicKey := peer])
  }

  /** What one session makes of a packet. */
  function FoundBy(sessions: map<PeerId, State>, peer: PeerId, header: Header, ciphertext: Ciphertext,
                   newSecret: PeerId -> nat): Option<(PeerId, Bytes)>
    requires peer in sessions
  {
    var r := Attempt(sessions, peer, header, ciphertext, newSecret);
    if r.Success? then Some((peer, r.value.1)) else None
  }

  /** The first peer in order whose session decrypts. */
  function FirstMatch(order: seq<PeerId>, sessions: map<PeerId, State>, header: Header, ciphertext: Ciphertext,
                      newSecret: PeerId -> nat): Option<(PeerId, Bytes)>
    requires forall peer <- order :: peer in sessions
  {
    if order == [] then None else
    var r := Attempt(sessions, order[0], header, ciphertext, newSecret);
    if r.Success? then Some((order[0], r.value.1)) else FirstMatch(order[1..], sessions, header, ciphertext, newSecret)
  }

  /** What trial decryption finds: the indexed session goes first. */
  function Matched(order: seq<PeerId>, sessions: map<PeerId, State>, dhKeyIndex: map<PublicKey, PeerId>,
                   header: Header, ciphertext: Ciphertext, newSecret: PeerId -> nat): Option<(PeerId, Bytes)>
    requires forall peer <- order :: peer in sessions
  {
    if header.dhPublicKey in dhKeyIndex && dhKeyIndex[header.dhPublicKey] in sessions
       && Attempt(sessions, dhKeyIndex[header.dhPublicKey], header, ciphertext, newSecret).Success?
    then
      var indexed := dhKeyIndex[header.dhPublicKey];
      Some((indexed, Attempt(sessions, indexed, header, ciphertext, newSecret).value.1))
    else FirstMatch(order, sessions, header, ciphertext, newSecret)
  }

  lemma {:induction false} FirstMatchDecrypts(order: seq<PeerId>, sessions: map<PeerId, State>, header: Header,
                                              ciphertext: Ciphertext, newSecret: PeerId -> nat)
    requires forall peer <- order :: peer in sessions
    ensures var r := FirstMatch(order, sessions, header, ciphertext, newSecret);
            && (r.None? <==> forall peer <- order :: Attempt(sessions, peer, header, ciphertext, newSecret).Failure?)
            && (r.Some? ==> exists i ::
                  && 0 <= i < |order|
                  && r.value.0 == order[i]
                  && Attempt(sessions, order[i], header, ciphertext, newSecret).Success?
                  && r.value.1 == Attempt(sessions, order[i], header, ciphertext, newSecret).value.1
                  && forall j | 0 <= j < i :: Attempt(sessions, order[j], header, ciphertext, newSecret).Failure?)
  {
    if order == [] {
    } else {
      FirstMatchDecrypts(order[1..], sessions, header, ciphertext, newSecret);
      var r := FirstMatch(order, sessions, header, ciphertext, newSecret);
      if Attempt(sessions, order[0], header, ciphertext, newSecret).Failure? && r.Some? {
        var i :| && 0 <= i < |order[1..]|
                 && r.value.0 == order[1..][i]
                 && Attempt(sessions, order[1..][i], header, ciphertext, newSecret).Success?
                 && r.value.1 == Attempt(sessions, order[1..][i], header, ciphertext, newSecret).value.1
                 && forall j | 0 <= j < i :: Attempt(sessions, order[1..][j], header, ciphertext, newSecret).Failure?;
        assert order[i + 1] == order[1..][i];
        forall j | 0 <= j < i + 1 ensures Attempt(sessions, order[j], header, ciphertext, newSecret).Failure? {
          if j > 0 {
            assert order[j] == order[1..][j - 1];
          }
        }
      }
    }
  }

  /** With pairwise different secrets, a packet is matched to the session it belongs to or to none;
      whether it is matched depends on that session alone, not on the order, the index or the other sessions. */
  lemma PacketFindsItsSession(order: seq<PeerId>, sessions: map<PeerId, State>, dhKeyIndex: map<PublicKey, PeerId>,
                              origins: map<PeerId, Key>, owner: PeerId,
                              header: Header, ciphertext: Ciphertext, newSecret: PeerId -> nat)
    requires forall peer :: peer in order <==> peer in sessions
    requires sessions.Keys == origins.Keys && owner in sessions
    requires forall peer <- sessions :: KeysFrom(sessions[peer], origins[peer])
    requires forall p, q | p in origins && q in origins && origins[p] == origins[q] :: p == q
    requires SealedFrom(ciphertext, origins[owner])
    ensures Matched(order, sessions, dhKeyIndex, header, ciphertext, newSecret) ==
            FoundBy(sessions, owner, header, ciphertext, newSecret)
  {
    forall peer | peer in sessions && peer != owner
      ensures Attempt(sessions, peer, header, ciphertext, newSecret).Failure?
    {
      DecryptKeepsOrigin(sessions[peer], header, ciphertext, newSecret(peer), origins[peer]);
    }
    FirstMatchDecrypts(order, sessions, header, ciphertext, newSecret);
  }
}
