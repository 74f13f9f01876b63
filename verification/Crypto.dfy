/**
  Symbolic cryptography. Secret keys are numbers drawn from a counter, X25519
  agreement is a commutative term, BLAKE3 key derivations are free constructors,
  and an AEAD box opens under the key it was sealed with and no other.
 */
module Crypto {
  import opened Wrappers

  type Bytes = seq<int>

  datatype PublicKey = PublicKey(secret: nat)

  datatype KeyPair = KeyPair(privateKey: nat, publicKey: PublicKey)

  /** The shared X25519 value of two secrets, in a normal form that forgets their order. */
  datatype DhOutput = DhOutput(low: nat, high: nat)

  /** An ML-KEM ciphertext made for the holder of `to`, and the secret that a secret key gets out of one. */
  datatype KemCiphertext = KemCiphertext(to: nat, seed: nat)

  datatype KemSecret = KemSecret(secretKey: nat, ciphertext: KemCiphertext)

  datatype Signature = Signature(signer: PublicKey, message: PublicKey)

  datatype Key =
    | Random(id: nat)                                     // a key nobody derived
    | Exchange(parts: seq<DhOutput>, encapsulated: Option<KemSecret>) // an X3DH / PQXDH secret
    | RootOf(parent: Key, dh: DhOutput)                   // first half of a root step
    | ChainOf(parent: Key, dh: DhOutput)                  // second half of a root step
    | NextChain(parent: Key)                              // BLAKE3(chain || 0x02)
    | MessageOf(parent: Key)                              // BLAKE3(chain || 0x01)

  datatype Ciphertext = Sealed(key: Key, plaintext: Bytes) | Garbage(bytes: Bytes)

  function KeyPairOf(secret: nat): KeyPair {
    KeyPair(secret, PublicKey(secret))
  }

  function Dh(keyPair: KeyPair, publicKey: PublicKey): DhOutput {
    var a, b := keyPair.privateKey, publicKey.secret;
    if a <= b then DhOutput(a, b) else DhOutput(b, a)
  }

  /** Both ends of an agreement compute the same value, and no third key pair does. */
  lemma DhAgreement(a: nat, b: nat, c: nat)
    ensures Dh(KeyPairOf(a), PublicKey(b)) == Dh(KeyPairOf(b), PublicKey(a))
    ensures Dh(KeyPairOf(a), PublicKey(b)) == Dh(KeyPairOf(a), PublicKey(c)) <==> b == c
  {
  }

  /** Only the signer makes a signature that verifies under its key. */
  predicate VerifySignature(signature: Signature, message: PublicKey, signer: PublicKey) {
    signature == Signature(signer, message)
  }

  function Encapsulate(publicKey: nat, seed: nat): (KemCiphertext, KemSecret) {
    var ciphertext := KemCiphertext(publicKey, seed);
    (ciphertext, KemSecret(publicKey, ciphertext))
  }

  /** The wrong secret key yields an unrelated secret, never an error. */
  function Decapsulate(ciphertext: KemCiphertext, secretKey: nat): KemSecret {
    KemSecret(secretKey, ciphertext)
  }

  function Open(key: Key, ciphertext: Ciphertext): Option<Bytes> {
    if ciphertext.Sealed? && ciphertext.key == key then Some(ciphertext.plaintext) else None
  }

  /** The number of derivations between a key and the secret it grew from. */
  ghost function Depth(key: Key): nat {
    match key
    case Random(_) => 0
    case Exchange(_, _) => 0
    case RootOf(k, _) => 1 + Depth(k)
    case ChainOf(k, _) => 1 + Depth(k)
    case NextChain(k) => 1 + Depth(k)
    case MessageOf(k) => 1 + Depth(k)
  }

  /** The secret a key was derived from. */
  function Origin(key: Key): Key {
    match key
    case Random(_) => key
    case Exchange(_, _) => key
    case RootOf(k, _) => Origin(k)
    case ChainOf(k, _) => Origin(k)
    case NextChain(k) => Origin(k)
    case MessageOf(k) => Origin(k)
  }
}
