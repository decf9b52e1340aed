/** The cryptographic primitives as functions with stated laws; their internals belong to foreign
    libraries. No law says that SHA-256 is injective or that signatures, MACs or ciphertexts cannot
    be forged: the theorems name the collision or forgery that would be needed to break them. */
module Primitives {
  import opened Bytes

  datatype CryptoError =
    | InvalidPublicKey
    | InvalidSignature
    | SignatureMismatch
    | CanonicalEncoding
    | InvalidKeyExchangeContext
    | NonContributoryKeyExchange
    | AuthenticationFailed
    | InvalidChannel
    | InvalidPayloadLength
    | SequenceExhausted
    | ReplayDetected
    | MessageTooOld
    | TimestampOutsideWindow
    | DeviceRoleMismatch

  const AUTH_TAG_LEN := 16

  datatype Primitives = Primitives(
    sha256: Bytes -> Bytes32,
    /** Ed25519: does the public key parse, and does it verify this signature over this digest? */
    parsesKey: Bytes32 -> bool,
    verifies: (Bytes32, Bytes32, Bytes) -> bool,
    /** X25519: the public key of a secret, and a secret applied to a public key. */
    publicKey: Bytes32 -> Bytes32,
    agree: (Bytes32, Bytes32) -> Bytes32,
    /** HKDF-SHA256: salt, input key, info, to the first block of section 2.3 of RFC 5869. */
    hkdf: (Bytes32, Bytes32, Bytes) -> Bytes32,
    /** HMAC-SHA256: key, message. */
    hmac: (Bytes32, Bytes) -> Bytes32,
    /** ChaCha20-Poly1305 (section 2.8 of RFC 8439): key, nonce, associated data, message. */
    aeadSeal: (Bytes32, Bytes, Bytes, Bytes) -> Bytes,
    aeadOpen: (Bytes32, Bytes, Bytes, Bytes) -> Option<Bytes>)

  /** X25519 commutes. */
  ghost predicate AgreementCommutes(p: Primitives) {
    forall a, b :: p.agree(a, p.publicKey(b)) == p.agree(b, p.publicKey(a))
  }

  /** Opening undoes sealing, and sealing adds the tag. */
  ghost predicate OpenInvertsSeal(p: Primitives) {
    forall k, n, a, m ::
      && |p.aeadSeal(k, n, a, m)| == |m| + AUTH_TAG_LEN
      && p.aeadOpen(k, n, a, p.aeadSeal(k, n, a, m)) == Some(m)
  }

  /** Two different messages with one digest. */
  ghost predicate Collision(p: Primitives, x: Bytes, y: Bytes) {
    x != y && p.sha256(x) == p.sha256(y)
  }

  /** The laws can be met together. */
  lemma LawsAreSatisfiable() returns (p: Primitives)
    ensures AgreementCommutes(p) && OpenInvertsSeal(p)
  {
    p := Primitives(
      m => Zero32(),
      k => true,
      (k, d, s) => true,
      s => s,
      (s, k) => Zero32(),
      (s, k, i) => Zero32(),
      (k, m) => Zero32(),
      (k, n, a, m) => m + seq(AUTH_TAG_LEN, i => 0),
      (k, n, a, c) => if |c| < AUTH_TAG_LEN then None else Some(c[..|c| - AUTH_TAG_LEN]));
    forall k, n, a, m
      ensures |p.aeadSeal(k, n, a, m)| == |m| + AUTH_TAG_LEN
      ensures p.aeadOpen(k, n, a, p.aeadSeal(k, n, a, m)) == Some(m)
    {
      assert (m + seq(AUTH_TAG_LEN, i => 0))[..|m|] == m;
    }
  }

  function VerifyCanonicalSignature(p: Primitives, key: Bytes32, canonical: Bytes, signature: Bytes)
    : (r: Result<(), CryptoError>)
    ensures r.Ok? <==> p.parsesKey(key) && p.verifies(key, p.sha256(canonical), signature)
    ensures r.Err? ==> r.error == if p.parsesKey(key) then SignatureMismatch else InvalidPublicKey
  {
    if !p.parsesKey(key) then Err(InvalidPublicKey)
    else if !p.verifies(key, p.sha256(canonical), signature) then Err(SignatureMismatch)
    else Ok(())
  }

  /** `diffie_hellman`: an all-zero shared secret is refused. */
  function DiffieHellman(p: Primitives, secret: Bytes32, peerPublicKey: Bytes32): Result<Bytes32, CryptoError> {
    var shared := p.agree(secret, peerPublicKey);
    if shared == Zero32() then Err(NonContributoryKeyExchange) else Ok(shared)
  }
}
