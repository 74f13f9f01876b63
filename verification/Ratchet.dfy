/** The Double Ratchet session of `src/ratchet/index.ts`. */
module Ratchet {
  import opened Wrappers
  import opened Crypto

  const MAX_SKIP: nat := 2000

  datatype Header = Header(dhPublicKey: PublicKey, previousChainLength: nat, messageNumber: nat)

  /** A skipped key is filed under the sender's ratchet key and the message number. */
  datatype SkippedId = SkippedId(dhPublicKey: PublicKey, messageNumber: nat)

  datatype State = State(
    dhSending: KeyPair,
    dhReceiving: Option<PublicKey>,
    rootKey: Key,
    sendingChainKey: Option<Key>,
    receivingChainKey: Option<Key>,
    sendMessageNumber: nat,
    receiveMessageNumber: nat,
    previousSendingChainLength: nat,
    skippedMessageKeys: map<SkippedId, Key>)

  datatype Error = TooManySkipped | AuthenticationFailed | NoReceivingChain | NoSendingChain

  function KdfRootStep(rootKey: Key, dhOutput: DhOutput): (Key, Key) {
    (RootOf(rootKey, dhOutput), ChainOf(rootKey, dhOutput))
  }

  function KdfChainStep(chainKey: Key): (Key, Key) {
    (NextChain(chainKey), MessageOf(chainKey))
  }

  /** The chain key after `steps` chain steps. */
  function Advance(chainKey: Key, steps: nat): Key {
    if steps == 0 then chainKey else NextChain(Advance(chainKey, steps - 1))
  }

  /** The key of message `n` of a chain. */
  function MessageKey(chainKey: Key, n: nat): Key {
    MessageOf(Advance(chainKey, n))
  }

  // ---- Skipped-key bookkeeping ----

  predicate SkipAllowed(state: State, until: nat) {
    state.receivingChainKey.Some? ==> until - state.receiveMessageNumber <= MAX_SKIP
  }

  /** The keys of messages `from` up to `until` of the chain whose message `from` has chain key `chainKey`. */
  function ChainKeys(publicKey: PublicKey, chainKey: Key, from: nat, until: nat): map<SkippedId, Key> {
    map n {:trigger SkippedId(publicKey, n)} | from <= n < until :: SkippedId(publicKey, n) :=
      MessageKey(chainKey, n - from)
  }

  lemma ChainKeysGrow(kept: map<SkippedId, Key>, publicKey: PublicKey, chainKey: Key, from: nat, until: nat)
    requires from <= until
    ensures kept + ChainKeys(publicKey, chainKey, from, until + 1) ==
            (kept + ChainKeys(publicKey, chainKey, from, until))[SkippedId(publicKey, until) :=
              MessageKey(chainKey, until - from)]
  {
    var last := SkippedId(publicKey, until);
    var shorter, longer := ChainKeys(publicKey, chainKey, from, until), ChainKeys(publicKey, chainKey, from, until + 1);
    assert longer.Keys == shorter.Keys + {last};
    assert longer == shorter[last := MessageKey(chainKey, until - from)];
  }

  /** The state after skipping: the keys of every message passed over are kept. */
  function Skipped(state: State, until: nat): State
    requires state.receivingChainKey.Some? ==> state.dhReceiving.Some?
  {
    if state.receivingChainKey.None? || until <= state.receiveMessageNumber then state else
    var from, chainKey := state.receiveMessageNumber, state.receivingChainKey.value;
    state.(
      receivingChainKey := Some(Advance(chainKey, until - from)),
      receiveMessageNumber := until,
      skippedMessageKeys := state.skippedMessageKeys + ChainKeys(state.dhReceiving.value, chainKey, from, until))
  }

  method SkipMessageKeys(state: State, until: nat) returns (r: Result<State, Error>)
    requires state.receivingChainKey.Some? ==> state.dhReceiving.Some?
    ensures r == if SkipAllowed(state, until) then Success(Skipped(state, until)) else Failure(TooManySkipped)
  {
    if state.receivingChainKey.None? {
      return Success(state);
    }
    if until - state.receiveMessageNumber > MAX_SKIP {
      return Failure(TooManySkipped);
    }
    var skippedMessageKeys := state.skippedMessageKeys;
    var chainKey, publicKey := state.receivingChainKey.value, state.dhReceiving.value;
    ghost var from, first := state.receiveMessageNumber, chainKey;
    var n := state.receiveMessageNumber;
    while n < until
      invariant from <= n && (n <= until || n == from)
      invariant chainKey == Advance(first, n - from)
      invariant skippedMessageKeys == state.skippedMessageKeys + ChainKeys(publicKey, first, from, n)
    {
      var (newChainKey, messageKey) := KdfChainStep(chainKey);
      ChainKeysGrow(state.skippedMessageKeys, publicKey, first, from, n);
      skippedMessageKeys := skippedMessageKeys[SkippedId(publicKey, n) := messageKey];
      chainKey := newChainKey;
      n := n + 1;
    }
    return Success(state.(receivingChainKey := Some(chainKey),
                          receiveMessageNumber := n,
                          skippedMessageKeys := skippedMessageKeys));
  }

  // ---- DH ratchet step ----

  function DhRatchetStep(state: State, remotePublicKey: PublicKey, newSecret: nat): State {
    var (rootKey1, receivingChainKey) := KdfRootStep(state.rootKey, Dh(state.dhSending, remotePublicKey));
    var dhSending := KeyPairOf(newSecret);
    var (rootKey2, sendingChainKey) := KdfRootStep(rootKey1, Dh(dhSending, remotePublicKey));
    state.(
      dhSending := dhSending,
      dhReceiving := Some(remotePublicKey),
      rootKey := rootKey2,
      sendingChainKey := Some(sendingChainKey),
      receivingChainKey := Some(receivingChainKey),
      sendMessageNumber := 0,
      receiveMessageNumber := 0,
      previousSendingChainLength := state.sendMessageNumber)
  }

  // ---- Initialization ----

  function InitSender(sharedSecret: Key, remotePublicKey: PublicKey, newSecret: nat): State {
    var dhSending := KeyPairOf(newSecret);
    var (rootKey, chainKey) := KdfRootStep(sharedSecret, Dh(dhSending, remotePublicKey));
    State(dhSending, Some(remotePublicKey), rootKey, Some(chainKey), None, 0, 0, 0, map[])
  }

  function InitReceiver(sharedSecret: Key, localKeyPair: KeyPair): State {
    State(localKeyPair, None, sharedSecret, None, None, 0, 0, 0, map[])
  }

  // ---- Encrypt ----

  function Encrypt(state: State, plaintext: Bytes): Result<(State, Header, Ciphertext), Error> {
    if state.sendingChainKey.None? then Failure(NoSendingChain) else
    var (newChainKey, messageKey) := KdfChainStep(state.sendingChainKey.value);
    var header := Header(state.dhSending.publicKey, state.previousSendingChainLength, state.sendMessageNumber);
    Success((state.(sendingChainKey := Some(newChainKey), sendMessageNumber := state.sendMessageNumber + 1),
             header,
             Sealed(messageKey, plaintext)))
  }

  // ---- Decrypt ----

  predicate RemoteKeyChanged(state: State, header: Header) {
    state.dhReceiving != Some(header.dhPublicKey)
  }

  predicate HoldsSkippedKey(state: State, header: Header) {
    SkippedId(header.dhPublicKey, header.messageNumber) in state.skippedMessageKeys
  }

  /** The old chain is run out to the length the sender gave for it. */
  predicate OldChainSkipAllowed(state: State, header: Header) {
    state.dhReceiving.Some? ==> SkipAllowed(state, header.previousChainLength)
  }

  /** The state on the header's own chain, before any of its messages is skipped. */
  function OnHeaderChain(state: State, header: Header, newSecret: nat): State {
    if !RemoteKeyChanged(state, header) then state else
    var ranOut := if state.dhReceiving.Some? then Skipped(state, header.previousChainLength) else state;
    DhRatchetStep(ranOut, header.dhPublicKey, newSecret)
  }

  /** What `RatchetDecrypt` computes, as one expression. */
  function Decrypt(state: State, header: Header, ciphertext: Ciphertext, newSecret: nat)
    : Result<(State, Bytes), Error>
  {
    var id := SkippedId(header.dhPublicKey, header.messageNumber);
    if HoldsSkippedKey(state, header) then
      match Open(state.skippedMessageKeys[id], ciphertext)
      case None => Failure(AuthenticationFailed)
      case Some(plaintext) => Success((state.(skippedMessageKeys := state.skippedMessageKeys - {id}), plaintext))
    else if RemoteKeyChanged(state, header) && !OldChainSkipAllowed(state, header) then
      Failure(TooManySkipped)
    else
      var onChain := OnHeaderChain(state, header, newSecret);
      if !SkipAllowed(onChain, header.messageNumber) then Failure(TooManySkipped) else
      var caughtUp := Skipped(onChain, header.messageNumber);
      if caughtUp.receivingChainKey.None? then Failure(NoReceivingChain) else
      var (newChainKey, messageKey) := KdfChainStep(caughtUp.receivingChainKey.value);
      match Open(messageKey, ciphertext)
      case None => Failure(AuthenticationFailed)
      case Some(plaintext) =>
        Success((caughtUp.(receivingChainKey := Some(newChainKey),
                           receiveMessageNumber := caughtUp.receiveMessageNumber + 1),
                 plaintext))
  }

  method RatchetDecrypt(state: State, header: Header, ciphertext: Ciphertext, newSecret: nat)
    returns (r: Result<(State, Bytes), Error>)
    ensures r == Decrypt(state, header, ciphertext, newSecret)
  {
    var skippedId := SkippedId(header.dhPublicKey, header.messageNumber);
    if skippedId in state.skippedMessageKeys {
      var unsealed := Open(state.skippedMessageKeys[skippedId], ciphertext);
      if unsealed.None? {
        return Failure(AuthenticationFailed);
      }
      var skippedMessageKeys := state.skippedMessageKeys - {skippedId};
      return Success((state.(skippedMessageKeys := skippedMessageKeys), unsealed.value));
    }

    var currentState := state;
    if currentState.dhReceiving.None? || header.dhPublicKey != currentState.dhReceiving.value {
      if currentState.dhReceiving.Some? && currentState.receivingChainKey.Some? {
        currentState :- SkipMessageKeys(currentState, header.previousChainLength);
      }
      currentState := DhRatchetStep(currentState, header.dhPublicKey, newSecret);
    }

    currentState :- SkipMessageKeys(currentState, header.messageNumber);
    if currentState.receivingChainKey.None? {
      return Failure(NoReceivingChain);
    }
    var (newChainKey, messageKey) := KdfChainStep(currentState.receivingChainKey.value);
    var unsealed := Open(messageKey, ciphertext);
    if unsealed.None? {
      return Failure(AuthenticationFailed);
    }
    return Success((currentState.(receivingChainKey := Some(newChainKey),
                                  receiveMessageNumber := currentState.receiveMessageNumber + 1),
                    unsealed.value));
  }
}
