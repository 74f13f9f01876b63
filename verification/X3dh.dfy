/**
  The X3DH and PQXDH key exchange of `src/x3dh/index.ts`, after sections 3.3 and 3.4 of Signal's X3DH specification.
  An identity key pair stands for both its Ed25519 and its X25519 form.
 */
module X3dh {
  import opened Wrappers
  import opened Crypto

  datatype PreKeyBundle = PreKeyBundle(
    identityKey: PublicKey, signedPreKey: PublicKey, signedPreKeySignature: Signature,
    oneTimePreKey: Option<PublicKey>, pqPublicKey: Option<nat>)

  datatype KeyExchangeResult = KeyExchangeResult(
    sharedSecret: Key, ephemeralPublicKey: PublicKey, usedOneTimePreKey: bool, pqCiphertext: Option<KemCiphertext>)

  datatype Error = InvalidPreKeyBundle

  /** The initiator; the ephemeral secret and the encapsulation seed are the random values it draws. */
  function InitiateKeyExchange(aliceIdentity: KeyPair, bundle: PreKeyBundle, ephemeral: nat, seed: nat)
    : Result<KeyExchangeResult, Error>
  {
    if !VerifySignature(bundle.signedPreKeySignature, bundle.signedPreKey, bundle.identityKey)
    then Failure(InvalidPreKeyBundle) else
    var ephemeralPair := KeyPairOf(ephemeral);
    var dh1, dh2, dh3 :=
      Dh(aliceIdentity, bundle.signedPreKey), Dh(ephemeralPair, bundle.identityKey),
      Dh(ephemeralPair, bundle.signedPreKey);
    var used := bundle.oneTimePreKey.Some?;
    var dhParts := [dh1, dh2, dh3] + (if used then [Dh(ephemeralPair, bundle.oneTimePreKey.value)] else []);
    if bundle.pqPublicKey.Some? then
      var (ciphertext, pqSecret) := Encapsulate(bundle.pqPublicKey.value, seed);
      Success(KeyExchangeResult(Exchange(dhParts, Some(pqSecret)), ephemeralPair.publicKey, used, Some(ciphertext)))
    else
      Success(KeyExchangeResult(Exchange(dhParts, None), ephemeralPair.publicKey, used, None))
  }

  /** The responder. */
  function CompleteKeyExchange(bobIdentity: KeyPair, bobSignedPreKey: KeyPair, bobOneTimePreKey: Option<KeyPair>,
                               aliceIdentityKey: PublicKey, aliceEphemeralKey: PublicKey,
                               pqCiphertext: Option<KemCiphertext>, pqSecretKey: Option<nat>): Key
  {
    var dh1, dh2, dh3 :=
      Dh(bobSignedPreKey, aliceIdentityKey), Dh(bobIdentity, aliceEphemeralKey), Dh(bobSignedPreKey, aliceEphemeralKey);
    var dhParts := [dh1, dh2, dh3] +
      (if bobOneTimePreKey.Some? then [Dh(bobOneTimePreKey.value, aliceEphemeralKey)] else []);
    if pqCiphertext.Some? && pqSecretKey.Some? then
      Exchange(dhParts, Some(Decapsulate(pqCiphertext.value, pqSecretKey.value)))
    else
      Exchange(dhParts, None)
  }

  function PublicOf(keyPair: Option<KeyPair>): Option<PublicKey> {
    if keyPair.Some? then Some(keyPair.value.publicKey) else None
  }

  ghost predicate IsPair(keyPair: KeyPair) {
    keyPair == KeyPairOf(keyPair.privateKey)
  }

  /**
    An initiator accepts exactly a bundle whose pre-key its identity signed, and the two sides then share a secret
    exactly when the responder still holds the private key of everything the initiator used: its identity, signed
    pre-key, one-time pre-key if any, and ML-KEM key if any.
   */
  lemma SecretsAgree(alice: KeyPair, bundle: PreKeyBundle, ephemeral: nat, seed: nat,
                     bob: KeyPair, signedPreKey: KeyPair, oneTimePreKey: Option<KeyPair>, pqSecretKey: Option<nat>)
    requires IsPair(alice) && IsPair(bob) && IsPair(signedPreKey) &&
             (oneTimePreKey.Some? ==> IsPair(oneTimePreKey.value))
    ensures var r := InitiateKeyExchange(alice, bundle, ephemeral, seed);
            && (r.Success? <==> bundle.signedPreKeySignature == Signature(bundle.identityKey, bundle.signedPreKey))
            && (r.Success? ==>
                  var theirs := CompleteKeyExchange(bob, signedPreKey, oneTimePreKey, alice.publicKey,
                                                    r.value.ephemeralPublicKey, r.value.pqCiphertext, pqSecretKey);
                  theirs == r.value.sharedSecret <==>
                    && bob.publicKey == bundle.identityKey
                    && signedPreKey.publicKey == bundle.signedPreKey
                    && bundle.oneTimePreKey == PublicOf(oneTimePreKey)
                    && (bundle.pqPublicKey.Some? ==> pqSecretKey == bundle.pqPublicKey))
  {
    var r := InitiateKeyExchange(alice, bundle, ephemeral, seed);
    if r.Success? {
      var mine := r.value.sharedSecret;
      var theirs := CompleteKeyExchange(bob, signedPreKey, oneTimePreKey, alice.publicKey,
                                        r.value.ephemeralPublicKey, r.value.pqCiphertext, pqSecretKey);
      assert mine.parts == theirs.parts <==>
             |mine.parts| == |theirs.parts| && forall i | 0 <= i < |mine.parts| :: mine.parts[i] == theirs.parts[i];
      assert mine.parts[0] == theirs.parts[0] <==> signedPreKey.publicKey == bundle.signedPreKey;
      assert mine.parts[1] == theirs.parts[1] <==> bob.publicKey == bundle.identityKey;
      if bundle.oneTimePreKey.Some? && oneTimePreKey.Some? {
        assert mine.parts[3] == theirs.parts[3] <==> oneTimePreKey.value.publicKey == bundle.oneTimePreKey.value;
      }
    }
  }

  /**
    A responder that holds the keys the bundle names derives the initiator's secret from exactly what the initiator
    sent: its identity key, its ephemeral key and, where ML-KEM is used, its ciphertext.
   */
  lemma SecretBindsEnvelope(alice: KeyPair, ephemeral: nat, seed: nat, bob: KeyPair, signedPreKey: KeyPair,
                            oneTimePreKey: Option<KeyPair>, pqSecretKey: Option<nat>,
                            identityKey: PublicKey, ephemeralKey: PublicKey, pqCiphertext: Option<KemCiphertext>)
    requires IsPair(alice) && IsPair(bob) && IsPair(signedPreKey) &&
             (oneTimePreKey.Some? ==> IsPair(oneTimePreKey.value))
    ensures var bundle := PreKeyBundle(bob.publicKey, signedPreKey.publicKey,
                                       Signature(bob.publicKey, signedPreKey.publicKey), PublicOf(oneTimePreKey),
                                       pqSecretKey);
            var r := InitiateKeyExchange(alice, bundle, ephemeral, seed);
            && r.Success?
            && (CompleteKeyExchange(bob, signedPreKey, oneTimePreKey, identityKey, ephemeralKey, pqCiphertext,
                                    pqSecretKey) == r.value.sharedSecret <==>
                  && identityKey == alice.publicKey
                  && ephemeralKey == r.value.ephemeralPublicKey
                  && (pqSecretKey.Some? ==> pqCiphertext == r.value.pqCiphertext))
  {
    var bundle := PreKeyBundle(bob.publicKey, signedPreKey.publicKey,
                               Signature(bob.publicKey, signedPreKey.publicKey), PublicOf(oneTimePreKey), pqSecretKey);
    var mine := InitiateKeyExchange(alice, bundle, ephemeral, seed).value.sharedSecret;
    var theirs := CompleteKeyExchange(bob, signedPreKey, oneTimePreKey, identityKey, ephemeralKey, pqCiphertext,
                                      pqSecretKey);
    assert |mine.parts| == |theirs.parts|;
    assert mine.parts[0] == theirs.parts[0] <==> identityKey == alice.publicKey;
    assert mine.parts[2] == theirs.parts[2] <==> ephemeralKey == PublicKey(ephemeral);
  }
}
