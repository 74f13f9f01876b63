/**
  Two parties on one secret. Each new ratchet key pair opens an *epoch*: epoch 0 is
  the responder's pre-key, epoch 1 the initiator's first key pair, and from then on the
  parties take turns, odd epochs being the initiator's. A history records the epochs, how
  many messages each carried and which of them were decrypted; the invariant says that a
  party's ratchet state is a function of that history.
 */
module RatchetRuns {
  import opened Wrappers
  import opened Crypto
  import opened Ratchet

  datatype Role = Initiator | Responder

  function Parity(role: Role): nat {
    if role.Initiator? then 1 else 0
  }

  function Peer(role: Role): Role {
    if role.Initiator? then Responder else Initiator
  }

  /** A message is named by the epoch it was sent in and its number there. */
  datatype Position = Position(epoch: nat, number: nat)

  datatype Packet = Packet(sender: Role, position: Position, header: Header, ciphertext: Ciphertext, plaintext: Bytes)

  datatype History = History(sharedSecret: Key, epochs: seq<nat>, lengths: seq<nat>, received: set<Position>)

  // ---- The keys a history determines ----

  ghost function EpochDh(h: History, k: nat): DhOutput
    requires 1 <= k < |h.epochs|
  {
    Dh(KeyPairOf(h.epochs[k]), PublicKey(h.epochs[k - 1]))
  }

  ghost function Root(h: History, k: nat): Key
    requires k < |h.epochs|
  {
    if k == 0 then h.sharedSecret else RootOf(Root(h, k - 1), EpochDh(h, k))
  }

  ghost function Chain(h: History, k: nat): Key
    requires 1 <= k < |h.epochs|
  {
    ChainOf(Root(h, k - 1), EpochDh(h, k))
  }

  /** The length of the chain the same party used before epoch `k`. */
  ghost function PreviousLength(h: History, k: nat): nat
    requires k < |h.lengths|
  {
    if k < 2 then 0 else h.lengths[k - 2]
  }

  // ---- Key separation ----

  lemma {:induction false} AdvanceDepth(chainKey: Key, n: nat)
    ensures Depth(Advance(chainKey, n)) == Depth(chainKey) + n
  {
    if n == 0 {
    } else {
      AdvanceDepth(chainKey, n - 1);
    }
  }

  ghost function ChainStart(key: Key): Key {
    if key.NextChain? then ChainStart(key.parent) else key
  }

  lemma {:induction false} AdvanceStart(chainKey: Key, n: nat)
    requires chainKey.ChainOf?
    ensures ChainStart(Advance(chainKey, n)) == chainKey
  {
    if n == 0 {
    } else {
      AdvanceStart(chainKey, n - 1);
    }
  }

  /** Two messages share a key only when they are the same message of the same chain. */
  lemma MessageKeysDiffer(a: Key, m: nat, b: Key, n: nat)
    requires a.ChainOf? && b.ChainOf?
    ensures MessageKey(a, m) == MessageKey(b, n) <==> a == b && m == n
  {
    AdvanceStart(a, m);
    AdvanceStart(b, n);
    AdvanceDepth(a, m);
    AdvanceDepth(b, n);
  }

  lemma {:induction false} RootDepth(h: History, k: nat)
    requires k < |h.epochs|
    ensures Depth(Root(h, k)) == Depth(h.sharedSecret) + k
  {
    if k == 0 {
    } else {
      RootDepth(h, k - 1);
    }
  }

  lemma {:induction false} AdvanceSplits(chainKey: Key, m: nat, n: nat)
    ensures Advance(Advance(chainKey, m), n) == Advance(chainKey, m + n)
  {
    if n == 0 {
    } else {
      AdvanceSplits(chainKey, m, n - 1);
    }
  }

  // ---- The invariant ----

  /** Epoch `j` belongs to the peer of the party at epoch `k`, and is open to it for receiving. */
  ghost predicate ReceivingEpoch(k: nat, j: nat) {
    1 <= j < k && (k - j) % 2 == 1
  }

  /** How far into epoch `j` a party at epoch `k` has read. */
  ghost function Limit(h: History, s: State, k: nat, j: nat): nat
    requires j < |h.lengths|
  {
    if j == k - 1 then s.receiveMessageNumber else h.lengths[j]
  }

  ghost function IdOf(h: History, p: Position): SkippedId
    requires p.epoch < |h.epochs|
  {
    SkippedId(PublicKey(h.epochs[p.epoch]), p.number)
  }

  ghost predicate HistoryOk(h: History, nextSecret: nat) {
    && |h.epochs| == |h.lengths| >= 2
    && h.lengths[0] == 0
    && (forall i :: 0 <= i < |h.epochs| ==> h.epochs[i] < nextSecret)
    && (forall i, j :: 0 <= i < j < |h.epochs| ==> h.epochs[i] != h.epochs[j])
  }

  /** The sending side of a party whose own newest epoch is `k`. */
  ghost predicate SendingAt(h: History, s: State, k: nat)
    requires k < |h.epochs| == |h.lengths|
  {
    && s.dhSending == KeyPairOf(h.epochs[k])
    && s.rootKey == Root(h, k)
    && s.sendingChainKey == (if k == 0 then None else Some(Advance(Chain(h, k), h.lengths[k])))
    && s.sendMessageNumber == h.lengths[k]
    && s.previousSendingChainLength == PreviousLength(h, k)
  }

  /** Every skipped entry is the key of a passed-over, undelivered message, and each such message has one. */
  ghost predicate SkippedKeysAt(h: History, s: State, k: nat, nextSecret: nat)
    requires k < |h.epochs| == |h.lengths|
  {
    && (forall id <- s.skippedMessageKeys :: id.dhPublicKey.secret < nextSecret)
    && (forall id, j | id in s.skippedMessageKeys && k <= j < |h.epochs| :: id.dhPublicKey.secret != h.epochs[j])
    && (forall p: Position {:trigger IdOf(h, p)} {:trigger p in h.received} | ReceivingEpoch(k, p.epoch) ::
          (IdOf(h, p) in s.skippedMessageKeys <==> p.number < Limit(h, s, k, p.epoch) && p !in h.received))
    && (forall p: Position {:trigger IdOf(h, p)} | ReceivingEpoch(k, p.epoch) && IdOf(h, p) in s.skippedMessageKeys ::
          s.skippedMessageKeys[IdOf(h, p)] == MessageKey(Chain(h, p.epoch), p.number))
  }

  /** What a party has received lies in its receiving epochs, below the limit read so far. */
  ghost predicate ReceivedAt(h: History, s: State, k: nat)
    requires k < |h.lengths|
  {
    forall p <- h.received | (p.epoch + k) % 2 == 1 :: ReceivingEpoch(k, p.epoch) && p.number < Limit(h, s, k, p.epoch)
  }

  /** The receiving side: its chain, its skipped keys and what it has received. */
  ghost predicate ReceivingAt(h: History, s: State, k: nat, nextSecret: nat) {
    && k < |h.epochs| == |h.lengths|
    && s.dhReceiving == (if k == 0 then None else Some(PublicKey(h.epochs[k - 1])))
    && s.receivingChainKey == (if k <= 1 then None else Some(Advance(Chain(h, k - 1), s.receiveMessageNumber)))
    && s.receiveMessageNumber <= (if k <= 1 then 0 else h.lengths[k - 1])
    && SkippedKeysAt(h, s, k, nextSecret)
    && ReceivedAt(h, s, k)
  }

  ghost predicate PartyAt(h: History, s: State, k: nat, nextSecret: nat) {
    && k < |h.epochs| == |h.lengths|
    && SendingAt(h, s, k)
    && ReceivingAt(h, s, k, nextSecret)
  }

  ghost predicate PacketOk(h: History, p: Packet) {
    && 1 <= p.position.epoch < |h.epochs| == |h.lengths|
    && p.position.epoch % 2 == Parity(p.sender)
    && p.position.number < h.lengths[p.position.epoch]
    && p.header == Header(PublicKey(h.epochs[p.position.epoch]), PreviousLength(h, p.position.epoch), p.position.number)
    && p.ciphertext == Sealed(MessageKey(Chain(h, p.position.epoch), p.position.number), p.plaintext)
  }

  // ---- One decryption ----

  /** The skips a packet asks of a state, each within the bound. */
  predicate SkipsWithinLimit(s: State, header: Header) {
    if HoldsSkippedKey(s, header) then true
    else if RemoteKeyChanged(s, header) then OldChainSkipAllowed(s, header) && header.messageNumber <= MAX_SKIP
    else SkipAllowed(s, header.messageNumber)
  }

  ghost predicate Arrives(h: History, s: State, k: nat, p: Packet, nextSecret: nat) {
    && HistoryOk(h, nextSecret)
    && PartyAt(h, s, k, nextSecret)
    && PacketOk(h, p)
    && (p.position.epoch + k) % 2 == 1
    && p.position.epoch <= k + 1
  }

  lemma SkippedPacket(h: History, s: State, k: nat, p: Packet, nextSecret: nat)
    requires Arrives(h, s, k, p, nextSecret)
    ensures HoldsSkippedKey(s, p.header) <==>
            p.position.epoch < k && p.position.number < Limit(h, s, k, p.position.epoch) && p.position !in h.received
    ensures HoldsSkippedKey(s, p.header) ==>
              Decrypt(s, p.header, p.ciphertext, nextSecret) ==
              Success((s.(skippedMessageKeys := s.skippedMessageKeys - {IdOf(h, p.position)}), p.plaintext))
  {
    assert IdOf(h, p.position) == SkippedId(p.header.dhPublicKey, p.header.messageNumber);
    if p.position.epoch >= k {
      assert p.header.dhPublicKey.secret == h.epochs[p.position.epoch];
    }
  }

  lemma SameChainPacket(h: History, s: State, k: nat, p: Packet, nextSecret: nat)
    requires Arrives(h, s, k, p, nextSecret)
    requires !HoldsSkippedKey(s, p.header) && p.position.epoch == k - 1
    ensures !RemoteKeyChanged(s, p.header)
    ensures p.position in h.received <==> p.position.number < s.receiveMessageNumber
    ensures Decrypt(s, p.header, p.ciphertext, nextSecret) ==
            if p.position in h.received then Failure(AuthenticationFailed)
            else if !SkipAllowed(s, p.position.number) then Failure(TooManySkipped)
            else Success((Skipped(s, p.position.number).(
                            receivingChainKey := Some(Advance(Chain(h, k - 1), p.position.number + 1)),
                            receiveMessageNumber := p.position.number + 1), p.plaintext))
  {
    var n := p.position.number;
    SkippedPacket(h, s, k, p, nextSecret);
    MessageKeysDiffer(Chain(h, k - 1), s.receiveMessageNumber, Chain(h, k - 1), n);
    if n >= s.receiveMessageNumber {
      AdvanceSplits(Chain(h, k - 1), s.receiveMessageNumber, n - s.receiveMessageNumber);
    }
  }

  /** A packet of an epoch already left: its chain key would hang off a root that is too deep. */
  lemma OldChainPacket(h: History, s: State, k: nat, p: Packet, nextSecret: nat)
    requires Arrives(h, s, k, p, nextSecret)
    requires !HoldsSkippedKey(s, p.header) && p.position.epoch < k - 1
    ensures p.position in h.received
    ensures Decrypt(s, p.header, p.ciphertext, nextSecret).Failure?
  {
    var e := p.position.epoch;
    SkippedPacket(h, s, k, p, nextSecret);
    assert RemoteKeyChanged(s, p.header);
    if OldChainSkipAllowed(s, p.header) {
      var onChain := OnHeaderChain(s, p.header, nextSecret);
      var wrong := ChainOf(Root(h, k), Dh(KeyPairOf(h.epochs[k]), PublicKey(h.epochs[e])));
      assert onChain.receivingChainKey == Some(wrong) && onChain.receiveMessageNumber == 0;
      RootDepth(h, k);
      RootDepth(h, e - 1);
      MessageKeysDiffer(wrong, p.position.number, Chain(h, e), p.position.number);
    }
  }

  /** The peer has opened an epoch this party has not seen. */
  lemma NextChainPacket(h: History, s: State, k: nat, p: Packet, nextSecret: nat)
    requires Arrives(h, s, k, p, nextSecret)
    requires p.position.epoch == k + 1
    ensures !HoldsSkippedKey(s, p.header) && RemoteKeyChanged(s, p.header) && p.position !in h.received
    ensures Decrypt(s, p.header, p.ciphertext, nextSecret) ==
            if !SkipsWithinLimit(s, p.header) then Failure(TooManySkipped)
            else var onChain := OnHeaderChain(s, p.header, nextSecret);
                 Success((Skipped(onChain, p.position.number).(
                            receivingChainKey := Some(Advance(Chain(h, k + 1), p.position.number + 1)),
                            receiveMessageNumber := p.position.number + 1), p.plaintext))
  {
    SkippedPacket(h, s, k, p, nextSecret);
    DhAgreement(h.epochs[k], h.epochs[k + 1], 0);
    if SkipsWithinLimit(s, p.header) {
      var onChain := OnHeaderChain(s, p.header, nextSecret);
      assert onChain.receivingChainKey == Some(Chain(h, k + 1)) && onChain.receiveMessageNumber == 0;
    }
  }

  /** A packet decrypts, to its own plaintext, exactly when it is new and its skips are within bounds. */
  lemma DecryptOutcome(h: History, s: State, k: nat, p: Packet, nextSecret: nat)
    requires Arrives(h, s, k, p, nextSecret)
    ensures Decrypt(s, p.header, p.ciphertext, nextSecret).Success? <==>
            p.position !in h.received && SkipsWithinLimit(s, p.header)
    ensures var r := Decrypt(s, p.header, p.ciphertext, nextSecret); r.Success? ==> r.value.1 == p.plaintext
  {
    SkippedPacket(h, s, k, p, nextSecret);
    if HoldsSkippedKey(s, p.header) {
    } else if p.position.epoch == k + 1 {
      NextChainPacket(h, s, k, p, nextSecret);
    } else if p.position.epoch == k - 1 {
      SameChainPacket(h, s, k, p, nextSecret);
    } else {
      OldChainPacket(h, s, k, p, nextSecret);
    }
  }

  // ---- What a party's receiving side keeps ----

  /** Skipping turns every message passed over into a skipped entry, and into nothing else. */
  lemma SkipKeepsReceiving(h: History, s: State, k: nat, until: nat, nextSecret: nat)
    requires HistoryOk(h, nextSecret) && ReceivingAt(h, s, k, nextSecret)
    requires k >= 2 ==> until <= h.lengths[k - 1]
    ensures ReceivingAt(h, Skipped(s, until), k, nextSecret)
  {
    if k >= 2 && until > s.receiveMessageNumber {
      var from, first, publicKey := s.receiveMessageNumber, s.receivingChainKey.value, s.dhReceiving.value;
      var kept, s' := s.skippedMessageKeys, Skipped(s, until);
      assert s'.skippedMessageKeys == kept + ChainKeys(publicKey, first, from, until);
      AdvanceSplits(Chain(h, k - 1), from, until - from);
      forall p: Position | ReceivingEpoch(k, p.epoch)
        ensures IdOf(h, p) in ChainKeys(publicKey, first, from, until) <==> p.epoch == k - 1 && from <= p.number < until
        ensures IdOf(h, p) in ChainKeys(publicKey, first, from, until) ==>
                  s'.skippedMessageKeys[IdOf(h, p)] == MessageKey(Chain(h, p.epoch), p.number)
      {
        if p.epoch == k - 1 && from <= p.number < until {
          AdvanceSplits(Chain(h, k - 1), from, p.number - from);
        }
      }
    }
  }

  ghost function Received(h: History, p: Position): History {
    h.(received := h.received + {p})
  }

  ghost predicate SameKeys(h: History, h': History) {
    && h.sharedSecret == h'.sharedSecret
    && h.epochs <= h'.epochs
  }

  lemma {:induction false} RootStable(h: History, h': History, k: nat)
    requires SameKeys(h, h') && k < |h.epochs|
    ensures Root(h, k) == Root(h', k)
    ensures k >= 1 ==> Chain(h, k) == Chain(h', k)
  {
    if k == 0 {
    } else {
      RootStable(h, h', k - 1);
    }
  }

  lemma KeysStable(h: History, h': History)
    requires SameKeys(h, h')
    ensures forall k {:trigger Root(h', k)} | 0 <= k < |h.epochs| :: Root(h, k) == Root(h', k)
    ensures forall k {:trigger Chain(h', k)} | 1 <= k < |h.epochs| :: Chain(h, k) == Chain(h', k)
  {
    forall k: nat | k < |h.epochs| ensures Root(h, k) == Root(h', k) && (k >= 1 ==> Chain(h, k) == Chain(h', k)) {
      RootStable(h, h', k);
    }
  }

  lemma ReceivedKeepsIds(h: History, p: Position)
    ensures forall q: Position {:trigger IdOf(Received(h, p), q)} | q.epoch < |h.epochs| ::
              IdOf(Received(h, p), q) == IdOf(h, q)
  {
  }

  lemma ReceiveNextSkipped(h: History, s: State, s': State, k: nat, p: Position, nextSecret: nat)
    requires HistoryOk(h, nextSecret) && 2 <= k < |h.epochs| && SkippedKeysAt(h, s, k, nextSecret)
    requires p == Position(k - 1, s.receiveMessageNumber) && p.number < h.lengths[k - 1]
    requires s'.skippedMessageKeys == s.skippedMessageKeys && s'.receiveMessageNumber == p.number + 1
    ensures SkippedKeysAt(Received(h, p), s', k, nextSecret)
  {
    KeysStable(h, Received(h, p));
    ReceivedKeepsIds(h, p);
    hide Chain, Advance;
    assert IdOf(h, p) !in s.skippedMessageKeys;
    forall q: Position | ReceivingEpoch(k, q.epoch)
      ensures IdOf(h, q) in s.skippedMessageKeys <==> q.number < Limit(h, s', k, q.epoch) && q !in h.received + {p}
    {
      assert IdOf(h, q) in s.skippedMessageKeys <==> q.number < Limit(h, s, k, q.epoch) && q !in h.received;
      assert q.epoch == p.epoch && q.number == p.number ==> q == p;
    }
  }

  /** Taking the next message of the open chain. */
  lemma ReceiveNext(h: History, s: State, k: nat, p: Position, nextSecret: nat)
    requires HistoryOk(h, nextSecret) && ReceivingAt(h, s, k, nextSecret) && k >= 2
    requires p == Position(k - 1, s.receiveMessageNumber) && p.number < h.lengths[k - 1]
    ensures ReceivingAt(Received(h, p),
                        s.(receivingChainKey := Some(Advance(Chain(h, k - 1), p.number + 1)),
                           receiveMessageNumber := p.number + 1), k, nextSecret)
  {
    hide SkippedKeysAt, Advance;
    var s' := s.(receivingChainKey := Some(Advance(Chain(h, k - 1), p.number + 1)),
      receiveMessageNumber := p.number + 1);
    ReceiveNextSkipped(h, s, s', k, p, nextSecret);
    KeysStable(h, Received(h, p));
    hide Chain;
    assert ReceivedAt(Received(h, p), s', k);
  }

  lemma ReceiveSkippedKeys(h: History, s: State, k: nat, p: Position, nextSecret: nat)
    requires HistoryOk(h, nextSecret) && k < |h.epochs| && SkippedKeysAt(h, s, k, nextSecret)
    requires ReceivingEpoch(k, p.epoch) && IdOf(h, p) in s.skippedMessageKeys
    ensures SkippedKeysAt(Received(h, p), s.(skippedMessageKeys := s.skippedMessageKeys - {IdOf(h, p)}), k, nextSecret)
  {
    KeysStable(h, Received(h, p));
    ReceivedKeepsIds(h, p);
    hide Chain;
    forall q: Position | ReceivingEpoch(k, q.epoch) ensures IdOf(h, q) == IdOf(h, p) <==> q == p {
    }
  }

  /** Taking a message whose key was kept. */
  lemma ReceiveSkipped(h: History, s: State, k: nat, p: Position, nextSecret: nat)
    requires HistoryOk(h, nextSecret) && ReceivingAt(h, s, k, nextSecret)
    requires ReceivingEpoch(k, p.epoch) && IdOf(h, p) in s.skippedMessageKeys
    ensures ReceivingAt(Received(h, p), s.(skippedMessageKeys := s.skippedMessageKeys - {IdOf(h, p)}), k, nextSecret)
  {
    assert p.number < Limit(h, s, k, p.epoch);
    hide SkippedKeysAt, Advance;
    ReceiveSkippedKeys(h, s, k, p, nextSecret);
    KeysStable(h, Received(h, p));
  }

  ghost function Opened(h: History, newSecret: nat): History {
    h.(epochs := h.epochs + [newSecret], lengths := h.lengths + [0])
  }

  lemma StepKeepsSkipped(h: History, s: State, k: nat, nextSecret: nat)
    requires HistoryOk(h, nextSecret) && k + 2 == |h.epochs| && SkippedKeysAt(h, s, k, nextSecret) &&
             ReceivedAt(h, s, k)
    requires k >= 2 ==> s.receiveMessageNumber == h.lengths[k - 1]
    ensures var s' := DhRatchetStep(s, PublicKey(h.epochs[k + 1]), nextSecret);
            SkippedKeysAt(Opened(h, nextSecret), s', k + 2, nextSecret + 1)
  {
    var h' := Opened(h, nextSecret);
    KeysStable(h, h');
    hide Chain, Advance, KdfRootStep;
    forall p: Position | ReceivingEpoch(k + 2, p.epoch)
      ensures p.epoch == k + 1 || ReceivingEpoch(k, p.epoch)
      ensures IdOf(h, p) == IdOf(h', p)
      ensures p.epoch == k + 1 ==> IdOf(h, p) !in s.skippedMessageKeys && p !in h.received
    {
    }
  }

  lemma StepKeepsReceived(h: History, s: State, k: nat, nextSecret: nat)
    requires k + 2 == |h.epochs| == |h.lengths| && ReceivedAt(h, s, k)
    requires k >= 2 ==> s.receiveMessageNumber == h.lengths[k - 1]
    ensures ReceivedAt(Opened(h, nextSecret), DhRatchetStep(s, PublicKey(h.epochs[k + 1]), nextSecret), k + 2)
  {
    hide KdfRootStep;
  }

  /** The DH step: the old chain, run out, is closed; the peer's new epoch becomes the open one. */
  lemma StepKeepsReceiving(h: History, s: State, k: nat, nextSecret: nat)
    requires HistoryOk(h, nextSecret) && k + 2 == |h.epochs|
    requires ReceivingAt(h, s, k, nextSecret) && s.dhSending == KeyPairOf(h.epochs[k]) && s.rootKey == Root(h, k)
    requires k >= 2 ==> s.receiveMessageNumber == h.lengths[k - 1]
    ensures var s' := DhRatchetStep(s, PublicKey(h.epochs[k + 1]), nextSecret);
            ReceivingAt(Opened(h, nextSecret), s', k + 2, nextSecret + 1)
  {
    hide SkippedKeysAt, ReceivedAt;
    StepKeepsSkipped(h, s, k, nextSecret);
    StepKeepsReceived(h, s, k, nextSecret);
    KeysStable(h, Opened(h, nextSecret));
    DhAgreement(h.epochs[k], h.epochs[k + 1], 0);
  }

  lemma StepOpensSending(h: History, s: State, k: nat, nextSecret: nat)
    requires HistoryOk(h, nextSecret) && k + 2 == |h.epochs| && SendingAt(h, s, k)
    ensures SendingAt(Opened(h, nextSecret), DhRatchetStep(s, PublicKey(h.epochs[k + 1]), nextSecret), k + 2)
  {
    KeysStable(h, Opened(h, nextSecret));
    DhAgreement(h.epochs[k], h.epochs[k + 1], 0);
  }

  // ---- Preservation, party by party ----

  ghost function Lengthened(h: History, k: nat): History
    requires k < |h.lengths|
  {
    h.(lengths := h.lengths[k := h.lengths[k] + 1])
  }

  lemma EncryptKeepsSender(h: History, s: State, k: nat, plaintext: Bytes, nextSecret: nat)
    requires HistoryOk(h, nextSecret) && PartyAt(h, s, k, nextSecret)
    ensures Encrypt(s, plaintext).Success? <==> k >= 1
    ensures var r := Encrypt(s, plaintext); r.Success? ==>
            && PartyAt(Lengthened(h, k), r.value.0, k, nextSecret)
            && PacketOk(Lengthened(h, k), Packet(if k % 2 == 1 then Initiator else Responder,
                                                 Position(k, h.lengths[k]), r.value.1, r.value.2, plaintext))
  {
    KeysStable(h, Lengthened(h, k));
  }

  lemma EncryptKeepsPeer(h: History, s: State, k: nat, j: nat, nextSecret: nat)
    requires HistoryOk(h, nextSecret) && PartyAt(h, s, k, nextSecret)
    requires 1 <= j < |h.lengths| && (j == k + 1 || j == k - 1)
    ensures PartyAt(Lengthened(h, j), s, k, nextSecret)
  {
    KeysStable(h, Lengthened(h, j));
  }

  lemma ReceivedKeepsPeerSkipped(h: History, s: State, k: nat, p: Position, nextSecret: nat)
    requires k < |h.epochs| == |h.lengths| && SkippedKeysAt(h, s, k, nextSecret) && (p.epoch + k) % 2 == 0
    ensures SkippedKeysAt(Received(h, p), s, k, nextSecret)
  {
    KeysStable(h, Received(h, p));
    ReceivedKeepsIds(h, p);
    hide Chain;
  }

  lemma ReceivedKeepsPeer(h: History, s: State, k: nat, p: Position, nextSecret: nat)
    requires HistoryOk(h, nextSecret) && PartyAt(h, s, k, nextSecret)
    requires (p.epoch + k) % 2 == 0
    ensures PartyAt(Received(h, p), s, k, nextSecret)
  {
    hide SkippedKeysAt, Advance;
    ReceivedKeepsPeerSkipped(h, s, k, p, nextSecret);
    KeysStable(h, Received(h, p));
  }

  lemma HistoryGrows(h: History, nextSecret: nat)
    requires HistoryOk(h, nextSecret)
    ensures HistoryOk(h, nextSecret + 1) && HistoryOk(Opened(h, nextSecret), nextSecret + 1)
    ensures |h.epochs| == |h.lengths| >= 2
  {
  }

  lemma PartyOutlivesSecrets(h: History, s: State, k: nat, nextSecret: nat)
    requires PartyAt(h, s, k, nextSecret)
    ensures PartyAt(h, s, k, nextSecret + 1)
  {
  }

  lemma OpenedKeepsPeer(h: History, s: State, k: nat, nextSecret: nat)
    requires HistoryOk(h, nextSecret) && PartyAt(h, s, k, nextSecret)
    ensures PartyAt(Opened(h, nextSecret), s, k, nextSecret + 1)
  {
    var h' := Opened(h, nextSecret);
    KeysStable(h, h');
    assert forall p: Position {:trigger IdOf(h', p)} | ReceivingEpoch(k, p.epoch) ::
        IdOf(h', p) == IdOf(h, p) && Limit(h', s, k, p.epoch) == Limit(h, s, k, p.epoch);
  }

  lemma PacketsStay(h: History, h': History, packets: seq<Packet>)
    requires forall p <- packets :: PacketOk(h, p)
    requires SameKeys(h, h') && |h.epochs| == |h.lengths| && |h'.epochs| == |h'.lengths|
    requires forall k | 0 <= k < |h.lengths| :: h.lengths[k] <= h'.lengths[k]
    requires forall k | 0 <= k < |h.lengths| - 2 :: h.lengths[k] == h'.lengths[k]
    ensures forall p <- packets :: PacketOk(h', p)
  {
    KeysStable(h, h');
  }

  /** The history a successful decryption leads to: a packet of a new epoch makes the receiver open the next one. */
  ghost function Decrypted(h: History, k: nat, p: Position, newSecret: nat): History {
    if p.epoch == k + 1 then Opened(Received(h, p), newSecret) else Received(h, p)
  }

  lemma DecryptKeepsReceiver(h: History, s: State, k: nat, p: Packet, nextSecret: nat)
    requires Arrives(h, s, k, p, nextSecret) && (p.position.epoch == k + 1 ==> |h.epochs| == k + 2)
    requires Decrypt(s, p.header, p.ciphertext, nextSecret).Success?
    ensures var s' := Decrypt(s, p.header, p.ciphertext, nextSecret).value.0;
            && PartyAt(Decrypted(h, k, p.position, nextSecret), s', if p.position.epoch == k + 1 then k + 2 else k,
               nextSecret + 1)
            && (s'.dhSending != s.dhSending <==> p.position.epoch == k + 1)
  {
    hide SkippedKeysAt, ReceivedAt, Decrypt;
    if p.position.epoch == k + 1 {
      DecryptKeepsStepper(h, s, k, p, nextSecret);
    } else {
      DecryptKeepsReader(h, s, k, p, nextSecret);
      PartyOutlivesSecrets(Received(h, p.position), Decrypt(s, p.header, p.ciphertext, nextSecret).value.0, k,
        nextSecret);
    }
  }

  lemma DecryptKeepsReader(h: History, s: State, k: nat, p: Packet, nextSecret: nat)
    requires Arrives(h, s, k, p, nextSecret) && p.position.epoch <= k
    requires Decrypt(s, p.header, p.ciphertext, nextSecret).Success?
    ensures var s' := Decrypt(s, p.header, p.ciphertext, nextSecret).value.0;
            PartyAt(Received(h, p.position), s', k, nextSecret) && s'.dhSending == s.dhSending
  {
    hide SkippedKeysAt, ReceivedAt, Decrypt, ChainKeys;
    SkippedPacket(h, s, k, p, nextSecret);
    SendingStays(h, s, k, p.position);
    if HoldsSkippedKey(s, p.header) {
      ReceiveSkipped(h, s, k, p.position, nextSecret);
    } else if p.position.epoch == k - 1 {
      SameChainPacket(h, s, k, p, nextSecret);
      SkipKeepsReceiving(h, s, k, p.position.number, nextSecret);
      ReceiveNext(h, Skipped(s, p.position.number), k, p.position, nextSecret);
    } else {
      OldChainPacket(h, s, k, p, nextSecret);
    }
  }

  lemma DecryptKeepsStepper(h: History, s: State, k: nat, p: Packet, nextSecret: nat)
    requires Arrives(h, s, k, p, nextSecret) && p.position.epoch == k + 1 && |h.epochs| == k + 2
    requires Decrypt(s, p.header, p.ciphertext, nextSecret).Success?
    ensures var s' := Decrypt(s, p.header, p.ciphertext, nextSecret).value.0;
            && PartyAt(Decrypted(h, k, p.position, nextSecret), s', k + 2, nextSecret + 1)
            && s'.dhSending == KeyPairOf(nextSecret)
  {
    hide SkippedKeysAt, ReceivedAt, Decrypt, ChainKeys, Advance;
    NextChainPacket(h, s, k, p, nextSecret);
    var h' := Opened(h, nextSecret);
    var ranOut := if s.dhReceiving.Some? then Skipped(s, p.header.previousChainLength) else s;
    SkipKeepsReceiving(h, s, k, p.header.previousChainLength, nextSecret);
    StepKeepsReceiving(h, ranOut, k, nextSecret);
    StepOpensSending(h, ranOut, k, nextSecret);
    var onChain := OnHeaderChain(s, p.header, nextSecret);
    assert onChain == DhRatchetStep(ranOut, PublicKey(h.epochs[k + 1]), nextSecret);
    assert Decrypted(h, k, p.position, nextSecret) == Received(h', p.position);
    ReceiveOnNewChain(h', onChain, k + 2, p.position, nextSecret + 1);
    KeysStable(h, h');
  }

  lemma ReceiveOnNewChain(h: History, s: State, k: nat, p: Position, nextSecret: nat)
    requires HistoryOk(h, nextSecret) && PartyAt(h, s, k, nextSecret) && k >= 2
    requires p.epoch == k - 1 && s.receiveMessageNumber == 0 && p.number < h.lengths[k - 1]
    ensures var s' := Skipped(s, p.number).(receivingChainKey := Some(Advance(Chain(h, k - 1), p.number + 1)),
                                            receiveMessageNumber := p.number + 1);
            PartyAt(Received(h, p), s', k, nextSecret)
  {
    hide SkippedKeysAt, ReceivedAt, ChainKeys;
    SkipKeepsReceiving(h, s, k, p.number, nextSecret);
    ReceiveNext(h, Skipped(s, p.number), k, p, nextSecret);
    SendingStays(h, s, k, p);
  }

  lemma SendingStays(h: History, s: State, k: nat, p: Position)
    requires k < |h.epochs| == |h.lengths| && SendingAt(h, s, k)
    ensures SendingAt(Received(h, p), s, k)
  {
    KeysStable(h, Received(h, p));
  }

  // ---- Runs ----

  datatype World = World(initiator: State, responder: State, nextSecret: nat, packets: seq<Packet>, history: History)

  /** The network reorders, loses and duplicates at will: any packet ever sent may be delivered at any time. */
  datatype Event = Send(role: Role, plaintext: Bytes) | Deliver(index: nat)

  function StateOf(w: World, role: Role): State {
    if role.Initiator? then w.initiator else w.responder
  }

  function WithState(w: World, role: Role, s: State): World {
    if role.Initiator? then w.(initiator := s) else w.(responder := s)
  }

  /** A party's newest epoch. */
  function OwnEpoch(h: History, role: Role): nat
    requires |h.epochs| >= 2
  {
    if (|h.epochs| - 1) % 2 == Parity(role) then |h.epochs| - 1 else |h.epochs| - 2
  }

  /**
    The parties after X3DH: the responder's pre-key pair is epoch 0, and the initiator opens epoch 1 with the ratchet
    secret it drew; secrets from `next` on have not been drawn yet.
   */
  function Start(sharedSecret: Key, preKey: nat, first: nat, next: nat): World {
    World(InitSender(sharedSecret, PublicKey(preKey), first),
          InitReceiver(sharedSecret, KeyPairOf(preKey)),
          next,
          [],
          History(sharedSecret, [preKey, first], [0, 0], {}))
  }

  /** Key pairs are drawn at random: no two are the same. */
  predicate Drawn(preKey: nat, first: nat, next: nat) {
    preKey != first && preKey < next && first < next
  }

  function DeliverResult(w: World, index: nat): Result<(State, Bytes), Error>
    requires index < |w.packets|
  {
    var p := w.packets[index];
    Decrypt(StateOf(w, Peer(p.sender)), p.header, p.ciphertext, w.nextSecret)
  }

  /** One event. A failed operation changes no state; it may still have burnt a random key. */
  function Exec(w: World, event: Event): World
    requires |w.history.epochs| == |w.history.lengths| >= 2
    ensures |Exec(w, event).history.epochs| == |Exec(w, event).history.lengths| >= 2
  {
    var h := w.history;
    match event
    case Send(role, plaintext) =>
      var r := Encrypt(StateOf(w, role), plaintext);
      if r.Failure? then w else
      var epoch := OwnEpoch(h, role);
      var p := Packet(role, Position(epoch, h.lengths[epoch]), r.value.1, r.value.2, plaintext);
      WithState(w, role, r.value.0).(packets := w.packets + [p],
                                     history := h.(lengths := h.lengths[epoch := h.lengths[epoch] + 1]))
    case Deliver(index) =>
      if index >= |w.packets| then w else
      var p, r := w.packets[index], DeliverResult(w, index);
      if r.Failure? then w.(nextSecret := w.nextSecret + 1) else
      var receiver, s' := Peer(p.sender), r.value.0;
      var received := h.(received := h.received + {p.position});
      WithState(w, receiver, s').(
        nextSecret := w.nextSecret + 1,
        history := if s'.dhSending == StateOf(w, receiver).dhSending then received
                   else received.(epochs := h.epochs + [w.nextSecret], lengths := h.lengths + [0]))
  }

  function Run(w: World, events: seq<Event>): World
    requires |w.history.epochs| == |w.history.lengths| >= 2
    ensures |Run(w, events).history.epochs| == |Run(w, events).history.lengths| >= 2
    decreases |events|
  {
    if events == [] then w else Exec(Run(w, events[..|events| - 1]), events[|events| - 1])
  }

  ghost predicate DistinctPositions(packets: seq<Packet>) {
    forall i, j | 0 <= i < j < |packets| :: packets[i].position != packets[j].position
  }

  ghost predicate Inv(w: World) {
    && HistoryOk(w.history, w.nextSecret)
    && PartyAt(w.history, w.initiator, OwnEpoch(w.history, Initiator), w.nextSecret)
    && PartyAt(w.history, w.responder, OwnEpoch(w.history, Responder), w.nextSecret)
    && (forall p <- w.packets :: PacketOk(w.history, p))
    && DistinctPositions(w.packets)
  }

  lemma StartInv(sharedSecret: Key, preKey: nat, first: nat, next: nat)
    requires Drawn(preKey, first, next)
    ensures Inv(Start(sharedSecret, preKey, first, next))
  {
    DhAgreement(preKey, first, 0);
  }

  lemma NewPosition(h: History, packets: seq<Packet>, k: nat)
    requires k < |h.epochs| == |h.lengths| && forall p <- packets :: PacketOk(h, p)
    ensures forall i | 0 <= i < |packets| :: packets[i].position != Position(k, h.lengths[k])
  {
    forall i | 0 <= i < |packets| ensures packets[i].position != Position(k, h.lengths[k]) {
      assert PacketOk(h, packets[i]);
    }
  }

  lemma SendKeepsInv(w: World, role: Role, plaintext: Bytes)
    requires Inv(w)
    ensures Inv(Exec(w, Send(role, plaintext)))
  {
    hide PartyAt, Encrypt, PacketOk;
    var h, k, other := w.history, OwnEpoch(w.history, role), OwnEpoch(w.history, Peer(role));
    EncryptKeepsSender(h, StateOf(w, role), k, plaintext, w.nextSecret);
    if k >= 1 {
      EncryptKeepsPeer(h, StateOf(w, Peer(role)), other, k, w.nextSecret);
      PacketsStay(h, Lengthened(h, k), w.packets);
      var w' := Exec(w, Send(role, plaintext));
      assert w'.history == Lengthened(h, k);
      assert HistoryOk(w'.history, w'.nextSecret);
      assert forall p <- w'.packets :: PacketOk(w'.history, p);
      NewPosition(h, w.packets, k);
    }
  }

  /** Every packet on the network can be put to the decryption lemmas. */
  lemma DeliverArrives(w: World, index: nat)
    requires Inv(w) && index < |w.packets|
    ensures var p := w.packets[index];
            var k := OwnEpoch(w.history, Peer(p.sender));
            && Arrives(w.history, StateOf(w, Peer(p.sender)), k, p, w.nextSecret)
            && (p.position.epoch == k + 1 ==> |w.history.epochs| == k + 2)
            && (p.position.epoch + OwnEpoch(w.history, p.sender)) % 2 == 0
            && HistoryOk(Received(w.history, p.position), w.nextSecret)
  {
    hide PartyAt;
    assert PacketOk(w.history, w.packets[index]);
  }

  lemma DeliverKeepsInv(w: World, index: nat)
    requires Inv(w)
    ensures Inv(Exec(w, Deliver(index)))
  {
    hide PartyAt, PacketOk, Decrypt, HistoryOk;
    var h := w.history;
    PartyOutlivesSecrets(h, w.initiator, OwnEpoch(h, Initiator), w.nextSecret);
    PartyOutlivesSecrets(h, w.responder, OwnEpoch(h, Responder), w.nextSecret);
    HistoryGrows(h, w.nextSecret);
    var w' := Exec(w, Deliver(index));
    if index < |w.packets| && DeliverResult(w, index).Success? {
      var p := w.packets[index];
      var k, other := OwnEpoch(h, Peer(p.sender)), OwnEpoch(h, p.sender);
      DeliverArrives(w, index);
      HistoryGrows(Received(h, p.position), w.nextSecret);
      DecryptKeepsReceiver(h, StateOf(w, Peer(p.sender)), k, p, w.nextSecret);
      ReceivedKeepsPeer(h, StateOf(w, p.sender), other, p.position, w.nextSecret);
      PartyOutlivesSecrets(Received(h, p.position), StateOf(w, p.sender), other, w.nextSecret);
      OpenedKeepsPeer(Received(h, p.position), StateOf(w, p.sender), other, w.nextSecret);
      PacketsStay(h, w'.history, w.packets);
      assert w'.history == Decrypted(h, k, p.position, w.nextSecret);
    }
  }

  lemma {:induction false} RunKeepsInv(w: World, events: seq<Event>)
    requires Inv(w)
    ensures Inv(Run(w, events))
    decreases |events|
  {
    if events == [] {
    } else {
      var before := events[..|events| - 1];
      RunKeepsInv(w, before);
      match events[|events| - 1]
      case Send(role, plaintext) => SendKeepsInv(Run(w, before), role, plaintext);
      case Deliver(index) => DeliverKeepsInv(Run(w, before), index);
    }
  }

  // ---- Main results ----

  /** Some delivery of packet `index` during the run succeeded. */
  ghost predicate DeliveredIn(w: World, events: seq<Event>, index: nat)
    requires |w.history.epochs| == |w.history.lengths| >= 2
    decreases |events|
  {
    events != [] &&
    var before := Run(w, events[..|events| - 1]);
    || DeliveredIn(w, events[..|events| - 1], index)
    || (events[|events| - 1] == Deliver(index) && index < |before.packets| && DeliverResult(before, index).Success?)
  }

  lemma ReceivedWereSent(w: World, p: Position)
    requires Inv(w) && p in w.history.received
    ensures 1 <= p.epoch < |w.history.lengths| && p.number < w.history.lengths[p.epoch]
  {
    var h := w.history;
    var k, s := OwnEpoch(h, Initiator), w.initiator;
    if (p.epoch + k) % 2 == 0 {
      k, s := OwnEpoch(h, Responder), w.responder;
    }
    assert ReceivedAt(h, s, k);
  }

  lemma {:induction false} ReceivedMeansDelivered(sharedSecret: Key, preKey: nat, first: nat, next: nat,
                                                  events: seq<Event>, index: nat)
    requires Drawn(preKey, first, next)
    ensures var start := Start(sharedSecret, preKey, first, next);
            var w := Run(start, events);
            DeliveredIn(start, events, index) <==>
              index < |w.packets| && w.packets[index].position in w.history.received
    decreases |events|
  {
    hide PartyAt, PacketOk, Decrypt, Encrypt, Start;
    var start := Start(sharedSecret, preKey, first, next);
    StartInv(sharedSecret, preKey, first, next);
    StartReceived(sharedSecret, preKey, first, next);
    if events == [] {
    } else {
      var before := events[..|events| - 1];
      var w, w' := Run(start, before), Run(start, events);
      ReceivedMeansDelivered(sharedSecret, preKey, first, next, before, index);
      RunKeepsInv(start, before);
      RunKeepsInv(start, events);
      if index < |w'.packets| && w'.packets[index].position in w.history.received {
        ReceivedWereSent(w, w'.packets[index].position);
      }
    }
  }

  lemma StartReceived(sharedSecret: Key, preKey: nat, first: nat, next: nat)
    ensures Start(sharedSecret, preKey, first, next).history.received == {}
  {
  }

  /** Any packet ever sent opens, to the plaintext it was sealed with, exactly when
      it was not opened before and the skips it asks for are within the bound. */
  lemma PendingMessageDecrypts(sharedSecret: Key, preKey: nat, first: nat, next: nat, events: seq<Event>, index: nat)
    requires Drawn(preKey, first, next)
    requires index < |Run(Start(sharedSecret, preKey, first, next), events).packets|
    ensures var start := Start(sharedSecret, preKey, first, next);
            var w := Run(start, events);
            var p, r := w.packets[index], DeliverResult(w, index);
            && (r.Success? <==>
                  !DeliveredIn(start, events, index) && SkipsWithinLimit(StateOf(w, Peer(p.sender)), p.header))
            && (r.Success? ==> r.value.1 == p.plaintext)
  {
    var start := Start(sharedSecret, preKey, first, next);
    var w := Run(start, events);
    var p := w.packets[index];
    StartInv(sharedSecret, preKey, first, next);
    RunKeepsInv(start, events);
    ReceivedMeansDelivered(sharedSecret, preKey, first, next, events, index);
    DeliverArrives(w, index);
    DecryptOutcome(w.history, StateOf(w, Peer(p.sender)), OwnEpoch(w.history, Peer(p.sender)), p, w.nextSecret);
  }

  lemma {:induction false} DeliveredStays(w: World, events: seq<Event>, later: seq<Event>, index: nat)
    requires |w.history.epochs| == |w.history.lengths| >= 2
    requires DeliveredIn(w, events, index)
    ensures DeliveredIn(w, events + later, index)
    decreases |later|
  {
    if later == [] {
      assert events + later == events;
    } else {
      DeliveredStays(w, events, later[..|later| - 1], index);
      assert (events + later)[..|events + later| - 1] == events + later[..|later| - 1];
    }
  }

  /** After one success, the same packet throws in every later state, also when replayed from an old epoch. */
  lemma NoMessageDecryptsTwice(sharedSecret: Key, preKey: nat, first: nat, next: nat, events: seq<Event>,
                               later: seq<Event>, index: nat)
    requires Drawn(preKey, first, next)
    requires DeliveredIn(Start(sharedSecret, preKey, first, next), events, index)
    ensures var w := Run(Start(sharedSecret, preKey, first, next), events + later);
            index < |w.packets| && DeliverResult(w, index).Failure?
  {
    DeliveredStays(Start(sharedSecret, preKey, first, next), events, later, index);
    ReceivedMeansDelivered(sharedSecret, preKey, first, next, events + later, index);
    PendingMessageDecrypts(sharedSecret, preKey, first, next, events + later, index);
  }
}
