/** The signed key exchange of one end, and what two ends that finish it agree on. */
module Handshake {
  import opened Bytes
  import opened Canonical
  import opened Header
  import opened Security
  import opened Primitives
  import opened KeySchedule
  import opened SecureSession
  import opened Delivery

  const KEY_EXCHANGE_WINDOW_MILLIS := 30_000

  datatype Config = Config(
    context: KdfContext,
    permissions: SessionPermissions,
    localRole: SessionRole,
    localDeviceId: Bytes,
    localPublicKey: Bytes32,
    nonce: Bytes32,
    timestamp: u64)

  datatype HandshakeError =
    | InvalidConfiguration
    | InvalidState
    | InvalidLocalSignature
    | PeerBindingMismatch
    | PeerMessageTooOld
    | SessionExpired
    | KeyFailure(error: CryptoError)
    | Session(sessionError: SessionError)

  predicate ValidConfig(p: Primitives, c: Config) {
    && c.context.accountId != []
    && c.context.sessionId != 0
    && c.localDeviceId != []
    && c.context.controllerDeviceId != []
    && c.context.controlledDeviceId != []
    && c.context.controllerDeviceId != c.context.controlledDeviceId
    && c.context.protocolVersion == PROTOCOL_VERSION
    && c.context.expiresAt > c.timestamp
    && c.context.candidatePairId != 0
    && c.nonce != Zero32()
    && c.context.ValidPathBinding()
    && c.context.DeviceFor(c.localRole) == c.localDeviceId
    && PermissionsDigest(p, c.permissions) == Ok(c.context.permissionsDigest)
  }

  function LocalPayload(c: Config, contextHash: Bytes32, publicKey: Bytes32): KeyExchangePayload {
    KeyExchangePayload(
      c.context.sessionId, c.localDeviceId, c.localRole, contextHash, c.context.permissionsDigest,
      c.context.expiresAt, publicKey, c.nonce, c.context.path, c.context.candidatePairId,
      c.context.relayNodeId, c.timestamp)
  }

  datatype Exchange = Exchange(
    config: Config,
    secret: Bytes32,
    localPayload: KeyExchangePayload,
    localMessage: Option<SignedKeyExchange>,
    peerMessage: Option<SignedKeyExchange>)

  function Begin(p: Primitives, c: Config, secret: Bytes32): Result<Exchange, HandshakeError> {
    if !ValidConfig(p, c) then Err(InvalidConfiguration)
    else
      match SessionContextHash(p, c.context.Context())
      case Err(e) => Err(KeyFailure(e))
      case Ok(hash) => Ok(Exchange(c, secret, LocalPayload(c, hash, p.publicKey(secret)), None, None))
  }

  /** Why a signature for the local payload is refused, if it is. */
  function CheckLocalSignature(p: Primitives, h: Exchange, signature: Bytes): Result<(), HandshakeError> {
    if h.localMessage.Some? || |signature| != SIGNATURE_LEN then Err(InvalidState)
    else
      match h.localPayload.CanonicalBytes()
      case Err(_) => Err(KeyFailure(CanonicalEncoding))
      case Ok(canonical) =>
        if VerifyCanonicalSignature(p, h.config.localPublicKey, canonical, signature).Err? then
          Err(InvalidLocalSignature)
        else Ok(())
  }

  function SetLocalSignature(p: Primitives, h: Exchange, signature: Bytes): (Exchange, Result<(), HandshakeError>) {
    var r := CheckLocalSignature(p, h, signature);
    (if r.Ok? then h.(localMessage := Some(SignedKeyExchange(h.localPayload, signature))) else h, r)
  }

  /** The field-by-field binding of a peer payload to the local configuration. */
  predicate PeerBound(h: Exchange, m: KeyExchangePayload) {
    var c := h.config.context;
    var role := h.config.localRole.Opposite();
    && m.sessionId == c.sessionId
    && m.deviceId == c.DeviceFor(role)
    && m.role == role
    && m.contextHash == h.localPayload.contextHash
    && m.permissionsDigest == c.permissionsDigest
    && m.expiresAt == c.expiresAt
    && m.path == c.path
    && m.candidatePairId == c.candidatePairId
    && m.relayNodeId == c.relayNodeId
    && m.ephemeralPublicKey != Zero32()
    && m.nonce != Zero32()
    && m.ValidPathBinding()
  }

  /** Why a peer message is refused, if it is. */
  function CheckPeerMessage(p: Primitives, h: Exchange, message: SignedKeyExchange, peerKey: Bytes32, now: u64)
    : Result<(), HandshakeError>
  {
    var expiresAt := h.config.context.expiresAt;
    if h.peerMessage.Some? then Err(InvalidState)
    else if now >= expiresAt || message.payload.timestamp >= expiresAt then Err(SessionExpired)
    else if !PeerBound(h, message.payload) then Err(PeerBindingMismatch)
    else if AbsDiff(message.payload.timestamp, now) > KEY_EXCHANGE_WINDOW_MILLIS then Err(PeerMessageTooOld)
    else if |message.signature| != SIGNATURE_LEN then Err(PeerBindingMismatch)
    else
      match message.payload.CanonicalBytes()
      case Err(_) => Err(KeyFailure(CanonicalEncoding))
      case Ok(canonical) =>
        match VerifyCanonicalSignature(p, peerKey, canonical, message.signature)
        case Err(e) => Err(KeyFailure(e))
        case Ok(_) => Ok(())
  }

  function VerifyPeerMessage(p: Primitives, h: Exchange, message: SignedKeyExchange, peerKey: Bytes32, now: u64)
    : (Exchange, Result<(), HandshakeError>)
  {
    var r := CheckPeerMessage(p, h, message, peerKey, now);
    (if r.Ok? then h.(peerMessage := Some(message)) else h, r)
  }

  datatype Finished = Finished(
    session: State,
    localConfirm: Security.KeyConfirm,
    transcriptHash: Bytes32)

  function Ordered(h: Exchange): (SignedKeyExchange, SignedKeyExchange)
    requires h.localMessage.Some? && h.peerMessage.Some?
  {
    match h.config.localRole
    case Controller => (h.localMessage.value, h.peerMessage.value)
    case Controlled => (h.peerMessage.value, h.localMessage.value)
  }

  function SessionBinding(c: Config, transcriptHash: Bytes32, keys: DerivedSessionKeys): Binding {
    Binding(c.context.sessionId, c.localRole, c.permissions, c.context.permissionsDigest, c.context.path,
            c.context.candidatePairId, c.context.relayNodeId, transcriptHash, keys)
  }

  /** The transcript hash and the six keys of an exchange with both messages present. */
  function ExchangeKeys(p: Primitives, h: Exchange): Result<(Bytes32, DerivedSessionKeys), CryptoError>
    requires h.localMessage.Some? && h.peerMessage.Some?
  {
    match TranscriptHash(p, Ordered(h).0, Ordered(h).1)
    case Err(e) => Err(e)
    case Ok(transcript) =>
      match DiffieHellman(p, h.secret, h.peerMessage.value.payload.ephemeralPublicKey)
      case Err(e) => Err(e)
      case Ok(shared) =>
        match DeriveSessionKeys(p, shared, h.config.context.(transcriptHash := transcript))
        case Err(e) => Err(e)
        case Ok(keys) => Ok((transcript, keys))
  }

  function Finish(p: Primitives, h: Exchange, timestamp: u64): Result<Finished, HandshakeError> {
    if timestamp >= h.config.context.expiresAt then Err(SessionExpired)
    else if h.localMessage.None? || h.peerMessage.None? then Err(InvalidState)
    else
      match ExchangeKeys(p, h)
      case Err(e) => Err(KeyFailure(e))
      case Ok((transcript, keys)) => FinishSession(p, h.config, transcript, keys, timestamp)
  }

  function FinishSession(p: Primitives, c: Config, transcript: Bytes32, keys: DerivedSessionKeys, timestamp: u64)
    : (r: Result<Finished, HandshakeError>)
    ensures r.Ok? ==>
      && r.value.transcriptHash == transcript
      && r.value.session == Initial(SessionBinding(c, transcript, keys)).(localConfirmSent := true)
      && Ok(r.value.localConfirm)
         == CreateKeyConfirm(p, c.context.sessionId, c.localDeviceId, c.localRole, transcript, timestamp, keys)
  {
    if !c.context.ValidPathBinding() then Err(Session(PathChanged))
    else
      var (s, o) := CreateConfirmStep(p, Initial(SessionBinding(c, transcript, keys)), c.localDeviceId, timestamp);
      match o
      case Failed(e) => Err(Session(e))
      case ConfirmSent(confirm) => Ok(Finished(s, confirm, transcript))
      case _ => Err(InvalidState)
  }

  // ----- the handshake object

  /** What every reachable handshake satisfies. */
  ghost predicate Sound(p: Primitives, h: Exchange) {
    && ValidConfig(p, h.config)
    && SessionContextHash(p, h.config.context.Context()) == Ok(h.localPayload.contextHash)
    && h.localPayload == LocalPayload(h.config, h.localPayload.contextHash, p.publicKey(h.secret))
    && (h.localMessage.Some? ==>
          && h.localMessage.value.payload == h.localPayload
          && |h.localMessage.value.signature| == SIGNATURE_LEN
          && h.localPayload.CanonicalBytes().Ok?)
    && (h.peerMessage.Some? ==>
          && PeerBound(h, h.peerMessage.value.payload)
          && |h.peerMessage.value.signature| == SIGNATURE_LEN
          && h.peerMessage.value.payload.CanonicalBytes().Ok?)
  }

  lemma BeginSound(p: Primitives, c: Config, secret: Bytes32)
    requires Begin(p, c, secret).Ok?
    ensures Sound(p, Begin(p, c, secret).value)
  {
  }

  lemma LocalSignatureChecked(p: Primitives, h: Exchange, signature: Bytes)
    requires CheckLocalSignature(p, h, signature).Ok?
    ensures |signature| == SIGNATURE_LEN && h.localPayload.CanonicalBytes().Ok?
  {
  }

  lemma SetLocalSignatureSound(p: Primitives, h: Exchange, signature: Bytes)
    requires Sound(p, h)
    ensures Sound(p, SetLocalSignature(p, h, signature).0)
  {
    if CheckLocalSignature(p, h, signature).Ok? {
      LocalSignatureChecked(p, h, signature);
      LocalMessageSound(p, h, SignedKeyExchange(h.localPayload, signature));
    }
  }

  lemma LocalMessageSound(p: Primitives, h: Exchange, message: SignedKeyExchange)
    requires Sound(p, h) && message.payload == h.localPayload
    requires |message.signature| == SIGNATURE_LEN && h.localPayload.CanonicalBytes().Ok?
    ensures Sound(p, h.(localMessage := Some(message)))
  {
  }

  lemma PeerMessageChecked(p: Primitives, h: Exchange, message: SignedKeyExchange, peerKey: Bytes32, now: u64)
    requires CheckPeerMessage(p, h, message, peerKey, now).Ok?
    ensures PeerBound(h, message.payload) && |message.signature| == SIGNATURE_LEN
    ensures message.payload.CanonicalBytes().Ok?
  {
  }

  lemma PeerMessageSound(p: Primitives, h: Exchange, message: SignedKeyExchange)
    requires Sound(p, h) && PeerBound(h, message.payload)
    requires |message.signature| == SIGNATURE_LEN && message.payload.CanonicalBytes().Ok?
    ensures Sound(p, h.(peerMessage := Some(message)))
  {
  }

  lemma VerifyPeerMessageSound(p: Primitives, h: Exchange, message: SignedKeyExchange, peerKey: Bytes32, now: u64)
    requires Sound(p, h)
    ensures Sound(p, VerifyPeerMessage(p, h, message, peerKey, now).0)
  {
    if CheckPeerMessage(p, h, message, peerKey, now).Ok? {
      PeerMessageChecked(p, h, message, peerKey, now);
      PeerMessageSound(p, h, message);
    }
  }

  class SessionHandshake {
    const p: Primitives
    const config: Config
    const secret: Bytes32
    const localPayload: KeyExchangePayload
    var localMessage: Option<SignedKeyExchange>
    var peerMessage: Option<SignedKeyExchange>

    function Current(): Exchange
      reads this
    {
      Exchange(config, secret, localPayload, localMessage, peerMessage)
    }

    constructor (p: Primitives, config: Config, secret: Bytes32, contextHash: Bytes32)
      requires ValidConfig(p, config) && SessionContextHash(p, config.context.Context()) == Ok(contextHash)
      ensures this.p == p && Ok(Current()) == Begin(p, config, secret)
    {
      this.p, this.config, this.secret := p, config, secret;
      localPayload := LocalPayload(config, contextHash, p.publicKey(secret));
      localMessage, peerMessage := None, None;
    }

    method AddLocalSignature(signature: Bytes) returns (r: Result<(), HandshakeError>)
      modifies this
      ensures (Current(), r) == SetLocalSignature(p, old(Current()), signature)
    {
      r := CheckLocalSignature(p, Current(), signature);
      if r.Ok? {
        localMessage := Some(SignedKeyExchange(localPayload, signature));
      }
    }

    method VerifyPeer(message: SignedKeyExchange, peerKey: Bytes32, now: u64) returns (r: Result<(), HandshakeError>)
      modifies this
      ensures (Current(), r) == VerifyPeerMessage(p, old(Current()), message, peerKey, now)
    {
      r := CheckPeerMessage(p, Current(), message, peerKey, now);
      if r.Ok? {
        peerMessage := Some(message);
      }
    }
  }

  method NewHandshake(p: Primitives, config: Config, secret: Bytes32)
    returns (r: Result<SessionHandshake, HandshakeError>)
    ensures match Begin(p, config, secret)
            case Err(e) => r == Err(e)
            case Ok(h) => r.Ok? && fresh(r.value) && r.value.p == p && r.value.Current() == h
  {
    if !ValidConfig(p, config) {
      return Err(InvalidConfiguration);
    }
    var contextHash := SessionContextHash(p, config.context.Context());
    if contextHash.Err? {
      return Err(KeyFailure(contextHash.error));
    }
    var handshake := new SessionHandshake(p, config, secret, contextHash.value);
    return Ok(handshake);
  }

  // ----- agreement

  function PayloadBytes(m: KeyExchangePayload): Bytes
    requires m.CanonicalBytes().Ok?
  {
    m.CanonicalBytes().value
  }

  /** The signed digest `a` accepted is the digest the device of `b` signed in this handshake. */
  ghost predicate AcceptedSignatureOf(p: Primitives, a: Exchange, b: Exchange) {
    && a.peerMessage.Some? && b.localMessage.Some?
    && a.peerMessage.value.payload.CanonicalBytes().Ok? && b.localPayload.CanonicalBytes().Ok?
    && p.sha256(PayloadBytes(a.peerMessage.value.payload)) == p.sha256(PayloadBytes(b.localPayload))
  }

  /** Where the premise comes from: a message is accepted only with a signature that verifies under
      the peer's device key, and that device signed one digest in this handshake. */
  lemma AcceptedIsSigned(p: Primitives, a: Exchange, b: Exchange, message: SignedKeyExchange, now: u64)
    requires b.localMessage.Some? && b.localPayload.CanonicalBytes().Ok?
    requires message.payload.CanonicalBytes().Ok? ==>
      var digest := p.sha256(PayloadBytes(message.payload));
      p.verifies(b.config.localPublicKey, digest, message.signature) ==>
        digest == p.sha256(PayloadBytes(b.localPayload))
    requires VerifyPeerMessage(p, a, message, b.config.localPublicKey, now).1.Ok?
    ensures AcceptedSignatureOf(p, VerifyPeerMessage(p, a, message, b.config.localPublicKey, now).0, b)
  {
  }

  /** No SHA-256 collision between the payloads, contexts and permissions the two ends hold. */
  ghost predicate NoCollisionBetween(p: Primitives, a: Exchange, b: Exchange) {
    var contextA, contextB := a.config.context.Context().CanonicalBytes(), b.config.context.Context().CanonicalBytes();
    var permissionsA, permissionsB := a.config.permissions.CanonicalBytes(), b.config.permissions.CanonicalBytes();
    && (a.peerMessage.Some? ==>
          var heard, signed := a.peerMessage.value.payload.CanonicalBytes(), b.localPayload.CanonicalBytes();
          heard.Ok? && signed.Ok? ==> !Collision(p, heard.value, signed.value))
    && (contextA.Ok? && contextB.Ok? ==> !Collision(p, contextA.value, contextB.value))
    && (permissionsA.Ok? && permissionsB.Ok? ==> !Collision(p, permissionsA.value, permissionsB.value))
  }

  /** Accepting the peer's signature alone settles every field: account, session, devices,
      permissions, version, expiry, path, candidate pair and relay node. */
  lemma PeerContextAgreement(p: Primitives, a: Exchange, b: Exchange)
    requires Sound(p, a) && Sound(p, b) && AcceptedSignatureOf(p, a, b) && NoCollisionBetween(p, a, b)
    ensures a.peerMessage.value.payload == b.localPayload
    ensures b.config.localRole == a.config.localRole.Opposite()
    ensures b.config.permissions == a.config.permissions
    ensures b.config.context.(transcriptHash := Zero32()) == a.config.context.(transcriptHash := Zero32())
  {
    var m := a.peerMessage.value.payload;
    PayloadInjective(m, b.localPayload);
    SessionContextInjective(a.config.context.Context(), b.config.context.Context());
    PermissionsInjective(a.config.permissions, b.config.permissions);
  }

  /** Both ends hold the other's message exactly as it was signed. */
  ghost predicate RelayedUnchanged(a: Exchange, b: Exchange) {
    && a.localMessage.Some? && b.localMessage.Some?
    && a.peerMessage == b.localMessage && b.peerMessage == a.localMessage
  }

  ghost predicate BothAccepted(p: Primitives, a: Exchange, b: Exchange) {
    && Sound(p, a) && Sound(p, b)
    && a.localMessage.Some? && b.localMessage.Some?
    && AcceptedSignatureOf(p, a, b) && AcceptedSignatureOf(p, b, a)
    && NoCollisionBetween(p, a, b) && NoCollisionBetween(p, b, a)
  }

  function Transcript(h: Exchange): Bytes
    requires h.localMessage.Some? && h.peerMessage.Some? && Transcribable(Ordered(h).0, Ordered(h).1)
  {
    TranscriptBytes(Ordered(h).0, Ordered(h).1)
  }

  ghost predicate NoTranscriptCollision(p: Primitives, a: Exchange, b: Exchange) {
    a.localMessage.Some? && a.peerMessage.Some? && b.localMessage.Some? && b.peerMessage.Some?
    && Transcribable(Ordered(a).0, Ordered(a).1) && Transcribable(Ordered(b).0, Ordered(b).1) ==>
      !Collision(p, Transcript(a), Transcript(b))
  }

  lemma FinishedParts(p: Primitives, h: Exchange, t: u64)
    requires Finish(p, h, t).Ok?
    ensures h.localMessage.Some? && h.peerMessage.Some? && ExchangeKeys(p, h).Ok?
    ensures var (transcript, keys) := ExchangeKeys(p, h).value;
            Ok(Finish(p, h, t).value) == FinishSession(p, h.config, transcript, keys, t)
  {
  }

  lemma ExchangedTranscript(p: Primitives, h: Exchange)
    requires h.localMessage.Some? && h.peerMessage.Some? && ExchangeKeys(p, h).Ok?
    ensures Transcribable(Ordered(h).0, Ordered(h).1)
    ensures ExchangeKeys(p, h).value.0 == p.sha256(Transcript(h))
  {
  }

  lemma SoundPathBindings(p: Primitives, h: Exchange)
    requires Sound(p, h) && h.localMessage.Some? && h.peerMessage.Some?
    ensures h.localMessage.value.payload == h.localPayload
    ensures Ordered(h).0.payload.ValidPathBinding() && Ordered(h).1.payload.ValidPathBinding()
  {
  }

  /** The two ends see the same payloads in opposite places. */
  ghost predicate Mirrored(a: Exchange, b: Exchange) {
    && a.localMessage.Some? && a.peerMessage.Some? && b.localMessage.Some? && b.peerMessage.Some?
    && b.config.localRole == a.config.localRole.Opposite()
    && a.peerMessage.value.payload == b.localMessage.value.payload
    && b.peerMessage.value.payload == a.localMessage.value.payload
  }

  lemma AcceptedMirrored(p: Primitives, a: Exchange, b: Exchange)
    requires BothAccepted(p, a, b)
    ensures Mirrored(a, b)
  {
    PeerContextAgreement(p, a, b);
    PeerContextAgreement(p, b, a);
    SoundPathBindings(p, a);
    SoundPathBindings(p, b);
  }

  /** One transcript exactly when both messages arrived unchanged, signatures included. */
  lemma SameTranscriptIffRelayedUnchanged(a: Exchange, b: Exchange)
    requires Mirrored(a, b)
    requires Transcribable(Ordered(a).0, Ordered(a).1) && Transcribable(Ordered(b).0, Ordered(b).1)
    requires Ordered(a).0.payload.ValidPathBinding() && Ordered(a).1.payload.ValidPathBinding()
    requires Ordered(b).0.payload.ValidPathBinding() && Ordered(b).1.payload.ValidPathBinding()
    ensures Transcript(a) == Transcript(b) <==> RelayedUnchanged(a, b)
  {
    if Transcript(a) == Transcript(b) {
      TranscriptUnique(Ordered(a).0, Ordered(a).1, Ordered(b).0, Ordered(b).1);
    }
  }

  lemma SameKeys(p: Primitives, a: Exchange, b: Exchange)
    requires AgreementCommutes(p) && Mirrored(a, b) && RelayedUnchanged(a, b)
    requires ExchangeKeys(p, a).Ok? && ExchangeKeys(p, b).Ok?
    requires a.localMessage.value.payload.ephemeralPublicKey == p.publicKey(a.secret)
    requires b.localMessage.value.payload.ephemeralPublicKey == p.publicKey(b.secret)
    requires b.config.context.(transcriptHash := Zero32()) == a.config.context.(transcriptHash := Zero32())
    ensures ExchangeKeys(p, a) == ExchangeKeys(p, b)
  {
    assert Ordered(a) == Ordered(b);
    var t := ExchangeKeys(p, a).value.0;
    assert a.config.context.(transcriptHash := t) == b.config.context.(transcriptHash := t);
    assert p.agree(a.secret, p.publicKey(b.secret)) == p.agree(b.secret, p.publicKey(a.secret));
  }

  lemma SoundPublicKey(p: Primitives, h: Exchange)
    requires Sound(p, h) && h.localMessage.Some?
    ensures h.localMessage.value.payload.ephemeralPublicKey == p.publicKey(h.secret)
    ensures h.config.localDeviceId == h.config.context.DeviceFor(h.config.localRole)
  {
  }

  /** Finished ends that accepted each other's signatures: the hashes are equal exactly when nothing
      was changed on the way, and then so are all six keys. */
  lemma FinishedAgreement(p: Primitives, a: Exchange, b: Exchange)
    requires AgreementCommutes(p) && BothAccepted(p, a, b) && NoTranscriptCollision(p, a, b)
    requires Mirrored(a, b) && ExchangeKeys(p, a).Ok? && ExchangeKeys(p, b).Ok?
    ensures ExchangeKeys(p, a).value.0 == ExchangeKeys(p, b).value.0 <==> RelayedUnchanged(a, b)
    ensures RelayedUnchanged(a, b) ==> ExchangeKeys(p, a) == ExchangeKeys(p, b)
  {
    SoundPathBindings(p, a);
    SoundPathBindings(p, b);
    ExchangedTranscript(p, a);
    ExchangedTranscript(p, b);
    SameTranscriptIffRelayedUnchanged(a, b);
    if RelayedUnchanged(a, b) {
      PeerContextAgreement(p, a, b);
      SoundPublicKey(p, a);
      SoundPublicKey(p, b);
      SameKeys(p, a, b);
    }
  }

  /** A fresh session accepts the peer's confirm exactly when the transcripts are equal and the
      clock is inside the window. */
  lemma ConfirmAcceptedIff(p: Primitives, mine: Binding, theirs: Binding, deviceId: Bytes, sent: u64, now: u64)
    requires theirs.localRole == mine.localRole.Opposite() && theirs.sessionId == mine.sessionId
    requires theirs.transcriptHash == mine.transcriptHash ==> theirs.keys == mine.keys
    requires
      CreateKeyConfirm(p, theirs.sessionId, deviceId, theirs.localRole, theirs.transcriptHash, sent, theirs.keys).Ok?
    ensures var confirm := CreateKeyConfirm(p, theirs.sessionId, deviceId, theirs.localRole,
                                            theirs.transcriptHash, sent, theirs.keys).value;
            var s := Initial(mine).(localConfirmSent := true);
            && (VerifyConfirmStep(p, s, confirm, deviceId, now).1 == ConfirmVerified <==>
                theirs.transcriptHash == mine.transcriptHash && AbsDiff(now, sent) <= KEY_CONFIRM_WINDOW_MILLIS)
            && (VerifyConfirmStep(p, s, confirm, deviceId, now).1 == ConfirmVerified ==>
                VerifyConfirmStep(p, s, confirm, deviceId, now).0.Phase() == Ready)
  {
    OwnConfirmAccepted(p, theirs.sessionId, deviceId, theirs.localRole, theirs.transcriptHash, sent, theirs.keys, now);
  }

  /** Two ends that accepted each other's signatures and finished agree on every context field; they
      hold the same transcript hash and keys, and each accepts the other's key confirm, exactly when
      both signed messages arrived unchanged and the clocks are inside the window. Accepting leaves
      both ends Ready and paired for delivery in both directions. */
  lemma TwoPartyAgreement(p: Primitives, a: Exchange, b: Exchange, ta: u64, tb: u64, now: u64)
    requires AgreementCommutes(p) && BothAccepted(p, a, b) && NoTranscriptCollision(p, a, b)
    requires Finish(p, a, ta).Ok? && Finish(p, b, tb).Ok?
    ensures b.config.permissions == a.config.permissions
    ensures b.config.context.(transcriptHash := Zero32()) == a.config.context.(transcriptHash := Zero32())
    ensures var fa, fb := Finish(p, a, ta).value, Finish(p, b, tb).value;
            var checked := VerifyConfirmStep(p, fa.session, fb.localConfirm, b.config.localDeviceId, now);
            && (RelayedUnchanged(a, b) ==>
                  && fa.transcriptHash == fb.transcriptHash
                  && fa.session.binding.keys == fb.session.binding.keys
                  && Paired(fa.session.binding, fb.session.binding)
                  && Paired(fb.session.binding, fa.session.binding))
            && (checked.1 == ConfirmVerified <==>
                RelayedUnchanged(a, b) && AbsDiff(now, tb) <= KEY_CONFIRM_WINDOW_MILLIS)
            && (checked.1 == ConfirmVerified ==> checked.0.Phase() == Ready)
  {
    PeerContextAgreement(p, a, b);
    AcceptedMirrored(p, a, b);
    FinishedParts(p, a, ta);
    FinishedParts(p, b, tb);
    FinishedAgreement(p, a, b);
    var fa, fb := Finish(p, a, ta).value, Finish(p, b, tb).value;
    ConfirmAcceptedIff(p, fa.session.binding, fb.session.binding, b.config.localDeviceId, tb, now);
  }

  /** The key confirm of `theirs`, checked at `mine`. */
  function CrossCheck(p: Primitives, mine: Finished, theirs: Finished, deviceId: Bytes, now: u64): (State, Outcome) {
    VerifyConfirmStep(p, mine.session, theirs.localConfirm, deviceId, now)
  }

  lemma AcceptedBothWays(p: Primitives, a: Exchange, b: Exchange)
    requires BothAccepted(p, a, b) && NoTranscriptCollision(p, a, b)
    ensures BothAccepted(p, b, a) && NoTranscriptCollision(p, b, a)
    ensures RelayedUnchanged(a, b) <==> RelayedUnchanged(b, a)
  {
  }

  /** Each end accepts the other's key confirm exactly when both signed messages arrived unchanged
      and its own clock is inside the window; then both are Ready. */
  lemma MutualAgreement(p: Primitives, a: Exchange, b: Exchange, ta: u64, tb: u64, nowA: u64, nowB: u64)
    requires AgreementCommutes(p) && BothAccepted(p, a, b) && NoTranscriptCollision(p, a, b)
    requires Finish(p, a, ta).Ok? && Finish(p, b, tb).Ok?
    ensures var fa, fb := Finish(p, a, ta).value, Finish(p, b, tb).value;
            var atA := CrossCheck(p, fa, fb, b.config.localDeviceId, nowA);
            var atB := CrossCheck(p, fb, fa, a.config.localDeviceId, nowB);
            && (atA.1 == ConfirmVerified <==> RelayedUnchanged(a, b) && AbsDiff(nowA, tb) <= KEY_CONFIRM_WINDOW_MILLIS)
            && (atB.1 == ConfirmVerified <==> RelayedUnchanged(a, b) && AbsDiff(nowB, ta) <= KEY_CONFIRM_WINDOW_MILLIS)
            && (atA.1 == ConfirmVerified ==> atA.0.Phase() == Ready)
            && (atB.1 == ConfirmVerified ==> atB.0.Phase() == Ready)
  {
    AcceptedBothWays(p, a, b);
    TwoPartyAgreement(p, a, b, ta, tb, nowA);
    TwoPartyAgreement(p, b, a, tb, ta, nowB);
  }

  /** This one signature is not forged: if it verifies under the device key of `h`, it is over what `h` signed. */
  ghost predicate NotForgedFor(p: Primitives, h: Exchange, message: SignedKeyExchange) {
    message.payload.CanonicalBytes().Ok? && h.localPayload.CanonicalBytes().Ok? ==>
      var digest := p.sha256(PayloadBytes(message.payload));
      p.verifies(h.config.localPublicKey, digest, message.signature) ==>
        digest == p.sha256(PayloadBytes(h.localPayload))
  }

  /** `h` after it has verified the message as that of `peer`. */
  function Verified(p: Primitives, h: Exchange, peer: Exchange, message: SignedKeyExchange, now: u64)
    : (Exchange, Result<(), HandshakeError>)
  {
    VerifyPeerMessage(p, h, message, peer.config.localPublicKey, now)
  }

  lemma VerifiedIsAccepted(p: Primitives, h: Exchange, peer: Exchange, message: SignedKeyExchange, now: u64)
    requires Sound(p, h) && Sound(p, peer) && peer.localMessage.Some?
    requires Verified(p, h, peer, message, now).1.Ok? && NotForgedFor(p, peer, message)
    ensures Verified(p, h, peer, message, now).0 == h.(peerMessage := Some(message))
    ensures Sound(p, h.(peerMessage := Some(message)))
    ensures AcceptedSignatureOf(p, h.(peerMessage := Some(message)), peer)
  {
    AcceptedIsSigned(p, h, peer, message, now);
    VerifyPeerMessageSound(p, h, message, peer.config.localPublicKey, now);
  }

  ghost predicate NoCollisions(p: Primitives, a: Exchange, b: Exchange) {
    NoCollisionBetween(p, a, b) && NoCollisionBetween(p, b, a) && NoTranscriptCollision(p, a, b)
  }

  lemma VerifiedBothAccepted(p: Primitives, a: Exchange, b: Exchange, toA: SignedKeyExchange, toB: SignedKeyExchange,
                             nowA: u64, nowB: u64)
    requires Sound(p, a) && Sound(p, b) && a.localMessage.Some? && b.localMessage.Some?
    requires Verified(p, a, b, toA, nowA).1.Ok? && NotForgedFor(p, b, toA)
    requires Verified(p, b, a, toB, nowB).1.Ok? && NotForgedFor(p, a, toB)
    requires NoCollisions(p, Verified(p, a, b, toA, nowA).0, Verified(p, b, a, toB, nowB).0)
    ensures BothAccepted(p, Verified(p, a, b, toA, nowA).0, Verified(p, b, a, toB, nowB).0)
  {
    VerifiedIsAccepted(p, a, b, toA, nowA);
    VerifiedIsAccepted(p, b, a, toB, nowB);
  }

  /**
   * Agreement from the calls themselves: two signed ends that each verify some message as the other's,
   * neither signature forged, and finish, agree on every context field, and confirm each other exactly
   * when both messages are the ones that were signed and the clocks are inside the window.
   */
  lemma VerifyingEndsAgree(p: Primitives, a: Exchange, b: Exchange, toA: SignedKeyExchange, toB: SignedKeyExchange,
                           nowA: u64, nowB: u64, ta: u64, tb: u64, checkA: u64, checkB: u64)
    requires AgreementCommutes(p)
    requires Sound(p, a) && Sound(p, b) && a.localMessage.Some? && b.localMessage.Some?
    requires Verified(p, a, b, toA, nowA).1.Ok? && NotForgedFor(p, b, toA)
    requires Verified(p, b, a, toB, nowB).1.Ok? && NotForgedFor(p, a, toB)
    requires NoCollisions(p, Verified(p, a, b, toA, nowA).0, Verified(p, b, a, toB, nowB).0)
    requires Finish(p, Verified(p, a, b, toA, nowA).0, ta).Ok? && Finish(p, Verified(p, b, a, toB, nowB).0, tb).Ok?
    ensures b.config.permissions == a.config.permissions && b.config.localRole == a.config.localRole.Opposite()
    ensures b.config.context.(transcriptHash := Zero32()) == a.config.context.(transcriptHash := Zero32())
    ensures
      var x, y := Verified(p, a, b, toA, nowA).0, Verified(p, b, a, toB, nowB).0;
      var intact := Some(toA) == b.localMessage && Some(toB) == a.localMessage;
      var fa, fb := Finish(p, x, ta).value, Finish(p, y, tb).value;
      var atA := CrossCheck(p, fa, fb, b.config.localDeviceId, checkA);
      var atB := CrossCheck(p, fb, fa, a.config.localDeviceId, checkB);
      && (atA.1 == ConfirmVerified <==> intact && AbsDiff(checkA, tb) <= KEY_CONFIRM_WINDOW_MILLIS)
      && (atB.1 == ConfirmVerified <==> intact && AbsDiff(checkB, ta) <= KEY_CONFIRM_WINDOW_MILLIS)
  {
    VerifiedBothAccepted(p, a, b, toA, toB, nowA, nowB);
    var x, y := Verified(p, a, b, toA, nowA).0, Verified(p, b, a, toB, nowB).0;
    PeerContextAgreement(p, x, y);
    MutualAgreement(p, x, y, ta, tb, checkA, checkB);
  }

  // ----- what each call does, and exactly when

  lemma ContextEncodesIff(c: SessionContext)
    ensures c.CanonicalBytes().Ok? <==>
      |c.accountId| <= U32_MAX && |c.controllerDeviceId| <= U32_MAX && |c.controlledDeviceId| <= U32_MAX
  {
    var fs := c.Fields();
    if AllFit(fs) {
      assert Fits(fs[1]) && Fits(fs[3]) && Fits(fs[4]);
    } else if |c.accountId| <= U32_MAX && |c.controllerDeviceId| <= U32_MAX && |c.controlledDeviceId| <= U32_MAX {
      assert AllFit(fs);
    }
  }

  /** What a configuration must hold: nothing empty or zero, two devices, and the rest consistent. */
  lemma ValidConfigIff(p: Primitives, c: Config)
    ensures ValidConfig(p, c) <==>
      var k := c.context;
      && k.accountId != [] && k.sessionId != 0 && k.candidatePairId != 0
      && k.controllerDeviceId != [] && k.controlledDeviceId != [] && k.controllerDeviceId != k.controlledDeviceId
      && c.localDeviceId == (if c.localRole == Controller then k.controllerDeviceId else k.controlledDeviceId)
      && k.protocolVersion == 1 && c.timestamp < k.expiresAt
      && (exists i :: 0 <= i < 32 && c.nonce[i] != 0)
      && (k.relayNodeId.Some? <==> k.path == QuicRelay || k.path == Tls443Relay)
      && c.permissions.CanonicalBytes().Ok? && k.permissionsDigest == p.sha256(c.permissions.CanonicalBytes().value)
  {
    if forall i :: 0 <= i < 32 ==> c.nonce[i] == 0 { assert c.nonce == Zero32(); }
    PermissionsEncodable(c.permissions);
  }

  /** A handshake begins exactly for a valid, encodable configuration, with the payload it determines and no message. */
  lemma BeginsIff(p: Primitives, c: Config, secret: Bytes32)
    ensures Begin(p, c, secret).Ok? <==> ValidConfig(p, c) && c.context.Context().CanonicalBytes().Ok?
    ensures !ValidConfig(p, c) ==> Begin(p, c, secret) == Err(InvalidConfiguration)
    ensures Begin(p, c, secret).Ok? ==>
      var h, k := Begin(p, c, secret).value, c.context;
      && h.config == c && h.secret == secret && h.localMessage.None? && h.peerMessage.None?
      && h.localPayload
         == KeyExchangePayload(k.sessionId, c.localDeviceId, c.localRole, p.sha256(k.Context().CanonicalBytes().value),
                               k.permissionsDigest, k.expiresAt, p.publicKey(secret), c.nonce, k.path,
                               k.candidatePairId, k.relayNodeId, c.timestamp)
  {
  }

  /** A local signature is stored exactly when it is the first, 64 bytes long, and verifies over the payload's hash. */
  lemma SignsIff(p: Primitives, h: Exchange, signature: Bytes)
    ensures
      var (t, r) := SetLocalSignature(p, h, signature);
      && (r.Ok? <==>
            && h.localMessage.None? && |signature| == 64 && h.localPayload.CanonicalBytes().Ok?
            && p.parsesKey(h.config.localPublicKey)
            && p.verifies(h.config.localPublicKey, p.sha256(h.localPayload.CanonicalBytes().value), signature))
      && t == if r.Ok? then h.(localMessage := Some(SignedKeyExchange(h.localPayload, signature))) else h
  {
  }

  /** What a peer payload must repeat of the local configuration. */
  lemma PeerBoundIff(h: Exchange, m: KeyExchangePayload)
    ensures PeerBound(h, m) <==>
      var k := h.config.context;
      && m.sessionId == k.sessionId && m.contextHash == h.localPayload.contextHash
      && m.role == (if h.config.localRole == Controller then Controlled else Controller)
      && m.deviceId == (if h.config.localRole == Controller then k.controlledDeviceId else k.controllerDeviceId)
      && m.permissionsDigest == k.permissionsDigest && m.expiresAt == k.expiresAt
      && m.path == k.path && m.candidatePairId == k.candidatePairId && m.relayNodeId == k.relayNodeId
      && (m.relayNodeId.Some? <==> m.path == QuicRelay || m.path == Tls443Relay)
      && m.ephemeralPublicKey != Zero32() && m.nonce != Zero32()
  {
  }

  /**
   * A peer message is stored exactly when it is the first, neither it nor the clock is at or past the
   * expiry, it repeats the configuration, it is at most 30 seconds from the clock, and its 64-byte
   * signature verifies over its hash under the peer's key.
   */
  lemma VerifiesIff(p: Primitives, h: Exchange, message: SignedKeyExchange, peerKey: Bytes32, now: u64)
    ensures
      var (t, r) := VerifyPeerMessage(p, h, message, peerKey, now);
      var m, expiry := message.payload, h.config.context.expiresAt;
      && (r.Ok? <==>
            && h.peerMessage.None? && now < expiry && m.timestamp < expiry && PeerBound(h, m)
            && m.timestamp <= now + 30_000 && now <= m.timestamp + 30_000
            && |message.signature| == 64 && m.CanonicalBytes().Ok?
            && p.parsesKey(peerKey) && p.verifies(peerKey, p.sha256(m.CanonicalBytes().value), message.signature))
      && t == if r.Ok? then h.(peerMessage := Some(message)) else h
  {
  }

  /** Why a message is refused, in the order in which it is found. */
  lemma PeerRefusals(p: Primitives, h: Exchange, message: SignedKeyExchange, peerKey: Bytes32, now: u64)
    ensures
      var r := VerifyPeerMessage(p, h, message, peerKey, now).1;
      var m, expiry := message.payload, h.config.context.expiresAt;
      var current := h.peerMessage.None? && now < expiry && m.timestamp < expiry;
      && (h.peerMessage.Some? ==> r == Err(InvalidState))
      && (h.peerMessage.None? && !current ==> r == Err(SessionExpired))
      && (current && !PeerBound(h, m) ==> r == Err(PeerBindingMismatch))
      && (current && PeerBound(h, m) && !(m.timestamp <= now + 30_000 && now <= m.timestamp + 30_000) ==>
            r == Err(PeerMessageTooOld))
  {
  }

  /**
   * A finished handshake is a session of its configuration, with the hash of the transcript of both
   * messages, controller first, the keys derived from the shared secret of its own key and the peer's,
   * and its confirm sent.
   */
  lemma FinishedSession(p: Primitives, h: Exchange, timestamp: u64)
    requires Finish(p, h, timestamp).Ok?
    ensures h.localMessage.Some? && h.peerMessage.Some? && timestamp < h.config.context.expiresAt
    ensures
      var f, c, k := Finish(p, h, timestamp).value, h.config, h.config.context;
      var controller := if c.localRole == Controller then h.localMessage.value else h.peerMessage.value;
      var controlled := if c.localRole == Controller then h.peerMessage.value else h.localMessage.value;
      var shared := p.agree(h.secret, h.peerMessage.value.payload.ephemeralPublicKey);
      && Transcribable(controller, controlled)
      && f.transcriptHash == p.sha256(TranscriptBytes(controller, controlled)) && shared != Zero32()
      && DeriveSessionKeys(p, shared, k.(transcriptHash := f.transcriptHash)).Ok?
      && f.session.binding
         == Binding(k.sessionId, c.localRole, c.permissions, k.permissionsDigest, k.path, k.candidatePairId,
                    k.relayNodeId, f.transcriptHash,
                    DeriveSessionKeys(p, shared, k.(transcriptHash := f.transcriptHash)).value)
      && f.session == Initial(f.session.binding).(localConfirmSent := true)
      && Ok(f.localConfirm)
         == CreateKeyConfirm(p, k.sessionId, c.localDeviceId, c.localRole, f.transcriptHash, timestamp,
                             f.session.binding.keys)
  {
    FinishedParts(p, h, timestamp);
    ExchangedTranscript(p, h);
  }
}
