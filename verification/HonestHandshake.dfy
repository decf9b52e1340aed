/** Two ends with mirrored configurations and nothing changed on the way: the handshake succeeds. */
module HonestHandshake {
  import opened Bytes
  import opened Canonical
  import opened Security
  import opened Primitives
  import opened KeySchedule
  import opened SecureSession
  import opened Handshake

  /** Two configurations of one session, for its two ends. */
  ghost predicate MirroredConfigs(a: Config, b: Config) {
    b.context == a.context && b.permissions == a.permissions && b.localRole == a.localRole.Opposite()
  }

  /** A begun exchange whose local message is signed and whose peer has not been heard. */
  ghost predicate Signed(p: Primitives, h: Exchange) {
    && Sound(p, h) && h.localMessage.Some? && h.peerMessage.None?
    && p.publicKey(h.secret) != Zero32()
    && VerifyCanonicalSignature(p, h.config.localPublicKey, PayloadBytes(h.localPayload),
                                h.localMessage.value.signature).Ok?
  }

  /** `now` is before the expiry and within the window of a message's timestamp. */
  ghost predicate InTime(c: Config, sent: u64, now: u64) {
    now < c.context.expiresAt && AbsDiff(sent, now) <= KEY_EXCHANGE_WINDOW_MILLIS
  }

  lemma BeginThenSign(p: Primitives, c: Config, secret: Bytes32, signature: Bytes)
    requires Begin(p, c, secret).Ok? && p.publicKey(secret) != Zero32()
    requires SetLocalSignature(p, Begin(p, c, secret).value, signature).1.Ok?
    ensures
      var h := SetLocalSignature(p, Begin(p, c, secret).value, signature).0;
      Signed(p, h) && h.config == c && h.secret == secret
  {
    BeginSound(p, c, secret);
    SetLocalSignatureSound(p, Begin(p, c, secret).value, signature);
  }

  lemma MirroredIsBound(p: Primitives, a: Exchange, b: Exchange)
    requires Signed(p, a) && Signed(p, b) && MirroredConfigs(a.config, b.config)
    ensures PeerBound(a, b.localPayload)
  {
    assert a.config.context.Context() == b.config.context.Context();
  }

  lemma PeerCheckPasses(p: Primitives, h: Exchange, message: SignedKeyExchange, peerKey: Bytes32, now: u64)
    requires h.peerMessage.None? && PeerBound(h, message.payload)
    requires message.payload.timestamp < h.config.context.expiresAt && InTime(h.config, message.payload.timestamp, now)
    requires |message.signature| == SIGNATURE_LEN && message.payload.CanonicalBytes().Ok?
    requires VerifyCanonicalSignature(p, peerKey, PayloadBytes(message.payload), message.signature).Ok?
    ensures CheckPeerMessage(p, h, message, peerKey, now) == Ok(())
  {
  }

  lemma SignedMessage(p: Primitives, h: Exchange)
    requires Signed(p, h)
    ensures |h.localMessage.value.signature| == SIGNATURE_LEN && h.localPayload.CanonicalBytes().Ok?
    ensures h.localMessage.value.payload == h.localPayload
    ensures h.localPayload.timestamp == h.config.timestamp < h.config.context.expiresAt
  {
  }

  /** The honest peer's message is accepted. */
  lemma HonestMessageAccepted(p: Primitives, a: Exchange, b: Exchange, now: u64)
    requires Signed(p, a) && Signed(p, b) && MirroredConfigs(a.config, b.config)
    requires InTime(a.config, b.config.timestamp, now)
    ensures VerifyPeerMessage(p, a, b.localMessage.value, b.config.localPublicKey, now)
         == (a.(peerMessage := b.localMessage), Ok(()))
  {
    MirroredIsBound(p, a, b);
    SignedMessage(p, b);
    PeerCheckPasses(p, a, b.localMessage.value, b.config.localPublicKey, now);
  }

  /** What an end holds once it has accepted the honest peer. */
  function Heard(a: Exchange, b: Exchange): Exchange { a.(peerMessage := b.localMessage) }

  lemma HonestAcceptance(p: Primitives, a: Exchange, b: Exchange)
    requires Signed(p, a) && Signed(p, b) && MirroredConfigs(a.config, b.config)
    ensures Sound(p, Heard(a, b))
    ensures AcceptedSignatureOf(p, Heard(a, b), Heard(b, a)) && NoCollisionBetween(p, Heard(a, b), Heard(b, a))
  {
    MirroredIsBound(p, a, b);
    SignedMessage(p, b);
    PeerMessageSound(p, a, b.localMessage.value);
  }

  /** Honest ends meet every premise of the agreement theorem, with no assumption about collisions. */
  lemma HonestEndsAgree(p: Primitives, a: Exchange, b: Exchange)
    requires Signed(p, a) && Signed(p, b) && MirroredConfigs(a.config, b.config)
    ensures BothAccepted(p, Heard(a, b), Heard(b, a)) && RelayedUnchanged(Heard(a, b), Heard(b, a))
    ensures NoTranscriptCollision(p, Heard(a, b), Heard(b, a))
  {
    HonestAcceptance(p, a, b);
    HonestAcceptance(p, b, a);
    assert Ordered(Heard(a, b)) == Ordered(Heard(b, a));
  }

  // ----- finishing

  function RelayName(relay: Option<Bytes>): Bytes { if relay.Some? then relay.value else [] }

  /** Strings short enough for every encoding of the session. */
  ghost predicate Encodable(c: KdfContext) {
    && |c.accountId| <= U32_MAX && |c.controllerDeviceId| <= U32_MAX && |c.controlledDeviceId| <= U32_MAX
    && |RelayName(c.relayNodeId)| <= U32_MAX
  }

  lemma ContextLengths(c: SessionContext)
    requires c.CanonicalBytes().Ok?
    ensures |c.accountId| <= U32_MAX && |c.controllerDeviceId| <= U32_MAX && |c.controlledDeviceId| <= U32_MAX
  {
    var fs := c.Fields();
    assert Fits(fs[1]) && Fits(fs[3]) && Fits(fs[4]);
  }

  lemma PayloadLengths(m: KeyExchangePayload)
    requires m.CanonicalBytes().Ok?
    ensures |RelayName(m.relayNodeId)| <= U32_MAX
  {
    assert Fits(m.Fields()[11]);
  }

  lemma SoundIsEncodable(p: Primitives, h: Exchange)
    requires Sound(p, h) && h.localPayload.CanonicalBytes().Ok?
    ensures Encodable(h.config.context)
  {
    ContextLengths(h.config.context.Context());
    PayloadLengths(h.localPayload);
  }

  lemma SaltEncodes(c: KdfContext)
    requires Encodable(c)
    ensures c.SaltBytes().Ok?
  {
    assert AllFit(c.SaltFields());
  }

  lemma InfoEncodes(c: KdfContext)
    requires Encodable(c)
    ensures c.InfoBase().Ok?
  {
    assert AllFit(c.InfoFields());
  }

  lemma ConfirmEncodes(c: KeyConfirm)
    requires |c.deviceId| <= U32_MAX
    ensures c.CanonicalMacInput().Ok?
  {
    assert AllFit(c.MacFields());
  }

  lemma SoundMessages(p: Primitives, h: Exchange)
    requires Sound(p, h) && h.localMessage.Some? && h.peerMessage.Some?
    ensures h.localMessage.value.payload.role == h.config.localRole == h.peerMessage.value.payload.role.Opposite()
    ensures h.localMessage.value.payload.CanonicalBytes().Ok? && h.peerMessage.value.payload.CanonicalBytes().Ok?
    ensures |h.localMessage.value.signature| == SIGNATURE_LEN == |h.peerMessage.value.signature|
  {
  }

  lemma TranscriptOf(p: Primitives, first: SignedKeyExchange, second: SignedKeyExchange)
    requires first.payload.role == Controller && second.payload.role == Controlled && Transcribable(first, second)
    ensures TranscriptHash(p, first, second).Ok?
  {
  }

  lemma TranscriptOfSound(p: Primitives, h: Exchange)
    requires Sound(p, h) && h.localMessage.Some? && h.peerMessage.Some?
    ensures TranscriptHash(p, Ordered(h).0, Ordered(h).1).Ok?
  {
    SoundMessages(p, h);
    TranscriptOf(p, Ordered(h).0, Ordered(h).1);
  }

  lemma DerivesFor(p: Primitives, secret: Bytes32, c: KdfContext)
    requires Encodable(c) && c.ValidPathBinding()
    ensures DeriveSessionKeys(p, secret, c).Ok?
  {
    SaltEncodes(c);
    InfoEncodes(c);
  }

  lemma KeysOfSound(p: Primitives, h: Exchange)
    requires Sound(p, h) && h.localMessage.Some? && h.peerMessage.Some?
    ensures ExchangeKeys(p, h).Ok? <==>
      p.agree(h.secret, h.peerMessage.value.payload.ephemeralPublicKey) != Zero32()
  {
    TranscriptOfSound(p, h);
    SoundIsEncodable(p, h);
    var transcript := TranscriptHash(p, Ordered(h).0, Ordered(h).1).value;
    DerivesFor(p, p.agree(h.secret, h.peerMessage.value.payload.ephemeralPublicKey),
               h.config.context.(transcriptHash := transcript));
  }

  lemma ConfirmOfSound(p: Primitives, c: Config, transcript: Bytes32, keys: DerivedSessionKeys, timestamp: u64)
    requires c.context.ValidPathBinding() && |c.localDeviceId| <= U32_MAX
    ensures FinishSession(p, c, transcript, keys, timestamp).Ok?
  {
    ConfirmEncodes(KeyConfirm(c.context.sessionId, c.localDeviceId, c.localRole, transcript, Zero32(), timestamp));
  }

  lemma SoundConfig(p: Primitives, h: Exchange)
    requires Sound(p, h) && h.localMessage.Some?
    ensures h.config.context.ValidPathBinding() && |h.config.localDeviceId| <= U32_MAX
  {
    SoundIsEncodable(p, h);
  }

  lemma FinishParts(p: Primitives, h: Exchange, timestamp: u64)
    requires h.localMessage.Some? && h.peerMessage.Some?
    requires forall transcript, keys :: FinishSession(p, h.config, transcript, keys, timestamp).Ok?
    ensures Finish(p, h, timestamp).Ok? <==> timestamp < h.config.context.expiresAt && ExchangeKeys(p, h).Ok?
  {
  }

  /** A handshake with both messages finishes exactly before its expiry and with a contributory peer key. */
  lemma FinishesIff(p: Primitives, h: Exchange, timestamp: u64)
    requires Sound(p, h) && h.localMessage.Some? && h.peerMessage.Some?
    ensures Finish(p, h, timestamp).Ok? <==>
      && timestamp < h.config.context.expiresAt
      && p.agree(h.secret, h.peerMessage.value.payload.ephemeralPublicKey) != Zero32()
  {
    KeysOfSound(p, h);
    SoundConfig(p, h);
    forall transcript, keys
      ensures FinishSession(p, h.config, transcript, keys, timestamp).Ok?
    {
      ConfirmOfSound(p, h.config, transcript, keys, timestamp);
    }
    FinishParts(p, h, timestamp);
  }

  /** Ends that have heard each other, before the expiry and with a contributory exchange, finish and confirm. */
  lemma HonestEndsConfirm(p: Primitives, a: Exchange, b: Exchange, ta: u64, tb: u64, nowA: u64, nowB: u64)
    requires AgreementCommutes(p)
    requires Signed(p, a) && Signed(p, b) && MirroredConfigs(a.config, b.config)
    requires ta < a.config.context.expiresAt && tb < a.config.context.expiresAt
    requires AbsDiff(nowA, tb) <= KEY_CONFIRM_WINDOW_MILLIS && AbsDiff(nowB, ta) <= KEY_CONFIRM_WINDOW_MILLIS
    requires p.agree(a.secret, p.publicKey(b.secret)) != Zero32()
    ensures Confirmed(p, Heard(a, b), Heard(b, a), ta, tb, nowA, nowB)
  {
    HonestEndsAgree(p, a, b);
    SoundPublicKey(p, a);
    SoundPublicKey(p, b);
    assert p.agree(b.secret, p.publicKey(a.secret)) == p.agree(a.secret, p.publicKey(b.secret));
    FinishesIff(p, Heard(a, b), ta);
    FinishesIff(p, Heard(b, a), tb);
    MutualAgreement(p, Heard(a, b), Heard(b, a), ta, tb, nowA, nowB);
  }

  /** Both ends finish, accept each other's key confirm and are Ready. */
  ghost predicate Confirmed(p: Primitives, a: Exchange, b: Exchange, ta: u64, tb: u64, nowA: u64, nowB: u64) {
    var x, y := Finish(p, a, ta), Finish(p, b, tb);
    && x.Ok? && y.Ok?
    && var atA := CrossCheck(p, x.value, y.value, b.config.localDeviceId, nowA);
       var atB := CrossCheck(p, y.value, x.value, a.config.localDeviceId, nowB);
       && atA.1 == ConfirmVerified && atA.0.Phase() == Ready
       && atB.1 == ConfirmVerified && atB.0.Phase() == Ready
  }

  /** The times of one run: when the messages are heard, when each end finishes, when the confirms are checked. */
  datatype Times = Times(heardA: u64, heardB: u64, finishedA: u64, finishedB: u64, checkedA: u64, checkedB: u64)
  {
    ghost predicate Fit(a: Config, b: Config) {
      && InTime(a, b.timestamp, heardA) && InTime(b, a.timestamp, heardB)
      && finishedA < a.context.expiresAt && finishedB < a.context.expiresAt
      && AbsDiff(checkedA, finishedB) <= KEY_CONFIRM_WINDOW_MILLIS
      && AbsDiff(checkedB, finishedA) <= KEY_CONFIRM_WINDOW_MILLIS
    }
  }

  /** An end that has begun and stored its signature. */
  function Sign(p: Primitives, c: Config, secret: Bytes32, signature: Bytes): Exchange
    requires Begin(p, c, secret).Ok?
  {
    SetLocalSignature(p, Begin(p, c, secret).value, signature).0
  }

  /**
   * The whole run from two configurations of one session: when both begin and their signatures are
   * stored, the times fit and the exchange is contributory, each end verifies the message the other
   * signed, finishes, accepts the other's key confirm, and is Ready.
   */
  lemma HonestRunSucceeds(p: Primitives, a: Config, b: Config, secretA: Bytes32, secretB: Bytes32,
                          signatureA: Bytes, signatureB: Bytes, t: Times)
    requires AgreementCommutes(p) && MirroredConfigs(a, b) && t.Fit(a, b)
    requires Begin(p, a, secretA).Ok? && SetLocalSignature(p, Begin(p, a, secretA).value, signatureA).1.Ok?
    requires Begin(p, b, secretB).Ok? && SetLocalSignature(p, Begin(p, b, secretB).value, signatureB).1.Ok?
    requires p.publicKey(secretA) != Zero32() && p.publicKey(secretB) != Zero32()
    requires p.agree(secretA, p.publicKey(secretB)) != Zero32()
    ensures
      var x, y := Sign(p, a, secretA, signatureA), Sign(p, b, secretB, signatureB);
      && x.localMessage.Some? && y.localMessage.Some?
      && var (x', heardX) := VerifyPeerMessage(p, x, y.localMessage.value, b.localPublicKey, t.heardA);
         var (y', heardY) := VerifyPeerMessage(p, y, x.localMessage.value, a.localPublicKey, t.heardB);
         && heardX.Ok? && heardY.Ok?
         && Confirmed(p, x', y', t.finishedA, t.finishedB, t.checkedA, t.checkedB)
  {
    BeginThenSign(p, a, secretA, signatureA);
    BeginThenSign(p, b, secretB, signatureB);
    var x, y := Sign(p, a, secretA, signatureA), Sign(p, b, secretB, signatureB);
    HonestMessageAccepted(p, x, y, t.heardA);
    HonestMessageAccepted(p, y, x, t.heardB);
    HonestEndsConfirm(p, x, y, t.finishedA, t.finishedB, t.checkedA, t.checkedB);
  }
}
