/**
  Runs of one device's session table: handshakes open and replace sessions, messages are sealed, packets arrive, and
  contacts go.
 */
module SessionRuns {
  import opened Wrappers
  import opened Crypto
  import opened Ratchet
  import opened Sessions

  /** The table, and for each peer the secret its session was opened with. */
  datatype World = World(
    order: seq<PeerId>, sessions: map<PeerId, State>, dhKeyIndex: map<PublicKey, PeerId>, origins: map<PeerId, Key>)

  datatype Event =
    | OpenAsSender(peer: PeerId, sharedSecret: Key, remote: PublicKey, newSecret: nat)
    | OpenAsReceiver(peer: PeerId, sharedSecret: Key, keyPair: KeyPair)
    | Seal(peer: PeerId, plaintext: Bytes)
    | Handle(header: Header, ciphertext: Ciphertext, newSecrets: PeerId -> nat)
    | Remove(peer: PeerId)

  const NO_SESSIONS := World([], map[], map[], map[])

  /** `Map.set` on the session table. */
  function WithSession(w: World, peer: PeerId, s: State): World {
    w.(order := if peer in w.order then w.order else w.order + [peer], sessions := w.sessions[peer := s])
  }

  function Opened(w: World, peer: PeerId, s: State, sharedSecret: Key): World {
    WithSession(w, peer, s).(origins := w.origins[peer := Origin(sharedSecret)])
  }

  function Without(order: seq<PeerId>, peer: PeerId): seq<PeerId> {
    if order == [] then [] else
    var rest, last := Without(order[..|order| - 1], peer), order[|order| - 1];
    if last == peer then rest else rest + [last]
  }

  /** No other session may grow from the secret: it was agreed with this peer alone. */
  ghost predicate OwnSecret(w: World, peer: PeerId, sharedSecret: Key) {
    forall q <- w.origins :: q != peer ==> w.origins[q] != Origin(sharedSecret)
  }

  ghost predicate Enabled(w: World, e: Event) {
    match e
    case OpenAsSender(peer, sharedSecret, _, _) => OwnSecret(w, peer, sharedSecret)
    case OpenAsReceiver(peer, sharedSecret, _) => OwnSecret(w, peer, sharedSecret)
    case Seal(peer, _) => peer in w.sessions
    case Handle(_, _, _) => true
    case Remove(_) => true
  }

  ghost predicate Listed(w: World) {
    (forall peer :: peer in w.order <==> peer in w.sessions) && w.sessions.Keys == w.origins.Keys
  }

  function Found(w: World, header: Header, ciphertext: Ciphertext, newSecrets: PeerId -> nat): Option<(PeerId, Bytes)>
    requires forall peer <- w.order :: peer in w.sessions
  {
    Matched(w.order, w.sessions, w.dhKeyIndex, header, ciphertext, newSecrets)
  }

  ghost function Apply(w: World, e: Event): World
    requires Listed(w) && Enabled(w, e)
  {
    match e
    case OpenAsSender(peer, sharedSecret, remote, newSecret) =>
      Opened(w, peer, InitSender(sharedSecret, remote, newSecret), sharedSecret)
    case OpenAsReceiver(peer, sharedSecret, keyPair) =>
      Opened(w, peer, InitReceiver(sharedSecret, keyPair), sharedSecret)
    case Seal(peer, plaintext) =>
      var r := Encrypt(w.sessions[peer], plaintext);
      if r.Success? then WithSession(w, peer, r.value.0) else w
    case Handle(header, ciphertext, newSecrets) =>
      var found := Found(w, header, ciphertext, newSecrets);
      var (sessions, dhKeyIndex) := Handled(w.sessions, w.dhKeyIndex, found, header, ciphertext, newSecrets);
      w.(sessions := sessions, dhKeyIndex := dhKeyIndex)
    case Remove(peer) =>
      World(Without(w.order, peer), w.sessions - {peer},
            map k | k in w.dhKeyIndex && w.dhKeyIndex[k] != peer :: w.dhKeyIndex[k], w.origins - {peer})
  }

  /** Every session holds only keys grown from its own secret, and no two sessions share one. */
  ghost predicate Apart(w: World) {
    && Listed(w)
    && (forall peer <- w.sessions :: KeysFrom(w.sessions[peer], w.origins[peer]))
    && (forall p, q | p in w.origins && q in w.origins && w.origins[p] == w.origins[q] :: p == q)
  }

  ghost predicate Run(w: World, events: seq<Event>, w': World)
    decreases |events|
  {
    if events == [] then w == w'
    else Listed(w) && Enabled(w, events[0]) && Run(Apply(w, events[0]), events[1..], w')
  }

  lemma {:induction false} WithoutElements(order: seq<PeerId>, peer: PeerId)
    ensures forall q :: q in Without(order, peer) <==> q in order && q != peer
  {
    if order == [] {
    } else {
      WithoutElements(order[..|order| - 1], peer);
      assert order == order[..|order| - 1] + [order[|order| - 1]];
    }
  }

  lemma OpenedStaysApart(w: World, peer: PeerId, s: State, sharedSecret: Key)
    requires Apart(w) && OwnSecret(w, peer, sharedSecret) && KeysFrom(s, Origin(sharedSecret))
    ensures Apart(Opened(w, peer, s, sharedSecret))
  {
    hide KeysFrom, Origin;
  }

  lemma ChangedStaysApart(w: World, peer: PeerId, s: State)
    requires Apart(w) && peer in w.sessions && KeysFrom(s, w.origins[peer])
    ensures Apart(WithSession(w, peer, s))
  {
    hide KeysFrom, Origin;
  }

  lemma StaysApart(w: World, e: Event)
    requires Apart(w) && Enabled(w, e)
    ensures Apart(Apply(w, e))
  {
    hide KeysFrom, Encrypt, Decrypt, Matched, InitSender, InitReceiver, Origin, OwnSecret, Opened, WithSession;
    match e {
      case OpenAsSender(peer, sharedSecret, remote, newSecret) =>
        InitFromSecret(sharedSecret, remote, KeyPairOf(newSecret), newSecret);
        OpenedStaysApart(w, peer, InitSender(sharedSecret, remote, newSecret), sharedSecret);
      case OpenAsReceiver(peer, sharedSecret, keyPair) =>
        InitFromSecret(sharedSecret, keyPair.publicKey, keyPair, 0);
        OpenedStaysApart(w, peer, InitReceiver(sharedSecret, keyPair), sharedSecret);
      case Seal(peer, plaintext) =>
        EncryptKeepsOrigin(w.sessions[peer], plaintext, w.origins[peer]);
        if Encrypt(w.sessions[peer], plaintext).Success? {
          ChangedStaysApart(w, peer, Encrypt(w.sessions[peer], plaintext).value.0);
        }
      case Handle(header, ciphertext, newSecrets) =>
        var found := Found(w, header, ciphertext, newSecrets);
        if found.Some? && found.value.0 in w.sessions {
          var peer := found.value.0;
          DecryptKeepsOrigin(w.sessions[peer], header, ciphertext, newSecrets(peer), w.origins[peer]);
          if Attempt(w.sessions, peer, header, ciphertext, newSecrets).Success? {
            ChangedStaysApart(w, peer, Attempt(w.sessions, peer, header, ciphertext, newSecrets).value.0);
          }
        }
      case Remove(peer) => WithoutElements(w.order, peer);
    }
  }

  lemma {:induction false} RunStaysApart(w: World, events: seq<Event>, w': World)
    requires Run(w, events, w') && Apart(w)
    ensures Apart(w')
    decreases |events|
  {
    if events == [] {
    } else {
      hide Apart, Apply, Enabled;
      StaysApart(w, events[0]);
      RunStaysApart(Apply(w, events[0]), events[1..], w');
    }
  }

  /**
    In every run in which each secret is agreed with one peer: a packet sealed under a session's secret is matched to
    that session or to none, as that session alone decides, and a packet sealed under any other secret, or garbage, to
    none.
   */
  lemma PacketsFindTheirSessions(events: seq<Event>, w: World, header: Header, ciphertext: Ciphertext,
                                 newSecrets: PeerId -> nat)
    requires Run(NO_SESSIONS, events, w)
    ensures Listed(w)
    ensures forall owner <- w.sessions | SealedFrom(ciphertext, w.origins[owner]) ::
              Found(w, header, ciphertext, newSecrets) == FoundBy(w.sessions, owner, header, ciphertext, newSecrets)
    ensures (forall owner <- w.sessions :: !SealedFrom(ciphertext, w.origins[owner])) ==>
              Found(w, header, ciphertext, newSecrets) == None
  {
    RunStaysApart(NO_SESSIONS, events, w);
    hide KeysFrom, SealedFrom, Decrypt, Matched;
    forall owner <- w.sessions | SealedFrom(ciphertext, w.origins[owner])
      ensures Found(w, header, ciphertext, newSecrets) == FoundBy(w.sessions, owner, header, ciphertext, newSecrets)
    {
      PacketFindsItsSession(w.order, w.sessions, w.dhKeyIndex, w.origins, owner, header, ciphertext, newSecrets);
    }
    if forall owner <- w.sessions :: !SealedFrom(ciphertext, w.origins[owner]) {
      StrangersFindNothing(w, header, ciphertext, newSecrets);
    }
  }

  lemma StrangersFindNothing(w: World, header: Header, ciphertext: Ciphertext, newSecrets: PeerId -> nat)
    requires Apart(w) && forall owner <- w.sessions :: !SealedFrom(ciphertext, w.origins[owner])
    ensures Found(w, header, ciphertext, newSecrets) == None
  {
    hide KeysFrom, SealedFrom, Decrypt;
    forall peer <- w.sessions ensures Attempt(w.sessions, peer, header, ciphertext, newSecrets).Failure? {
      DecryptKeepsOrigin(w.sessions[peer], header, ciphertext, newSecrets(peer), w.origins[peer]);
    }
    FirstMatchDecrypts(w.order, w.sessions, header, ciphertext, newSecrets);
  }

  /** Sealing moves a session on: the next message gets the next number, and another key than this one. */
  lemma SealMovesOn(w: World, peer: PeerId, plaintext: Bytes, next: Bytes)
    requires Listed(w) && Enabled(w, Seal(peer, plaintext)) && Encrypt(w.sessions[peer], plaintext).Success?
    ensures var w' := Apply(w, Seal(peer, plaintext));
            && peer in w'.sessions && Encrypt(w'.sessions[peer], next).Success?
            && var (r, r') := (Encrypt(w.sessions[peer], plaintext).value, Encrypt(w'.sessions[peer], next).value);
            && r'.1 == r.1.(messageNumber := r.1.messageNumber + 1)
            && r'.2.key != r.2.key
  {
    var chainKey := w.sessions[peer].sendingChainKey.value;
    assert Depth(NextChain(chainKey)) == Depth(chainKey) + 1;
  }

  /** A removed peer leaves no session, index entry or place in the order, and nothing of another peer changes. */
  lemma RemoveForgets(w: World, peer: PeerId, other: PeerId, key: PublicKey)
    requires Listed(w)
    ensures var w' := Apply(w, Remove(peer));
            && peer !in w'.sessions && peer !in w'.order && (key in w'.dhKeyIndex ==> w'.dhKeyIndex[key] != peer)
            && (other != peer ==>
                  && (other in w'.order <==> other in w.order)
                  && (other in w'.sessions <==> other in w.sessions)
                  && (other in w.sessions ==> w'.sessions[other] == w.sessions[other])
                  && (key in w'.dhKeyIndex && w'.dhKeyIndex[key] == other <==>
                        key in w.dhKeyIndex && w.dhKeyIndex[key] == other))
  {
    WithoutElements(w.order, peer);
  }

  /** And what a run seals for a peer is sealed under the secret agreed with that peer. */
  lemma RunsSealUnderOwnSecret(events: seq<Event>, w: World, peer: PeerId, plaintext: Bytes)
    requires Run(NO_SESSIONS, events, w) && peer in w.sessions && peer in w.origins
    ensures var r := Encrypt(w.sessions[peer], plaintext); r.Success? ==> SealedFrom(r.value.2, w.origins[peer])
  {
    RunStaysApart(NO_SESSIONS, events, w);
    EncryptKeepsOrigin(w.sessions[peer], plaintext, w.origins[peer]);
  }
}
