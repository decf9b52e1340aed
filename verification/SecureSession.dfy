/** One end of a secure session: confirmations, sealing, opening, sequence restore, invalidation. */
module SecureSession {
  import opened Bytes
  import opened Header
  import opened Security
  import opened Primitives
  import opened ReplayWindow
  import opened E2ee
  import opened KeySchedule

  datatype SessionError =
    | KeyConfirmationRequired
    | Invalidated
    | PermissionDenied
    | SessionMismatch
    | PathChanged
    | PermissionsChanged
    | Crypto(error: CryptoError)

  datatype Phase = AwaitingKeyConfirm | Ready | Closed
  {
    function Rank(): nat {
      match this
      case AwaitingKeyConfirm => 0
      case Ready => 1
      case Closed => 2
    }
  }

  /** What a session is created from and never changes. */
  datatype Binding = Binding(
    sessionId: u128,
    localRole: SessionRole,
    permissions: SessionPermissions,
    permissionsDigest: Bytes32,
    path: TransportPath,
    candidatePairId: u128,
    relayNodeId: Option<Bytes>,
    transcriptHash: Bytes32,
    keys: DerivedSessionKeys)
  {
    function Outgoing(): TrafficDirection { TrafficDirection.FromSenderRole(localRole) }

    function Incoming(): TrafficDirection { Outgoing().Reverse() }

    function Authorize(kind: MessageKind): Result<(), SessionError> {
      if Allowed(permissions, kind) then Ok(()) else Err(PermissionDenied)
    }
  }

  predicate Allowed(permissions: SessionPermissions, kind: MessageKind) {
    match kind
    case KeyExchangeMessage | KeyConfirm | ErrorReport => true
    case InputEvent => permissions.inputControl
    case MediaCapabilities | MediaConfigRequest | MediaConfigState | MediaQualityRequest
       | MediaQualityState | KeyframeRequest | VideoFrameInfo | VideoFrameData
       | DisplayList | DisplaySelect | DisplayChanged => permissions.remoteDesktop
    case ClipboardPermissionRequest | ClipboardPermissionState | ClipboardText => permissions.clipboard
    case FileTransferRequest | FileTransferAck | FileChunk | FileTransferCancel => permissions.fileTransfer
    case PrivacyModeRequest | PrivacyModeState | PrivacyModeRestore =>
      permissions.privacyScreen || permissions.blockLocalInput
    case RebootRequest | RebootState | RebootCancel | RebootResumeHint | Stats => true
  }

  type Sequences = s: seq<u64> | |s| == CHANNEL_COUNT witness [0, 0, 0, 0, 0, 0, 0, 0, 0]

  datatype State = State(
    binding: Binding,
    sendSequences: Sequences,
    windows: Windows,
    acceptedConfirms: set<Bytes32>,
    localConfirmSent: bool,
    peerConfirmed: bool,
    invalidated: bool)
  {
    function Phase(): Phase {
      if invalidated then Closed
      else if localConfirmSent && peerConfirmed then Ready
      else AwaitingKeyConfirm
    }

    function EnsureReady(): Result<(), SessionError> {
      match Phase()
      case Closed => Err(Invalidated)
      case AwaitingKeyConfirm => Err(KeyConfirmationRequired)
      case Ready => Ok(())
    }

    /** The sequence number the next message of this kind would take on the channel. */
    function NextSequence(kind: MessageKind, channel: ChannelId): Result<u64, SessionError> {
      if EnsureReady().Err? then Err(EnsureReady().error)
      else if binding.Authorize(kind).Err? then Err(binding.Authorize(kind).error)
      else if sendSequences[channel.Code()] > MAX_SECURE_SEQUENCE then Err(Crypto(SequenceExhausted))
      else Ok(sendSequences[channel.Code()])
    }
  }

  function Initial(binding: Binding): State {
    State(binding, seq(CHANNEL_COUNT, i => 0), seq(CHANNEL_COUNT, i => EMPTY_WINDOW), {}, false, false, false)
  }

  datatype Op =
    | CreateConfirm(deviceId: Bytes, timestamp: u64)
    | VerifyConfirm(confirm: Security.KeyConfirm, peerDeviceId: Bytes, now: u64)
    | Seal(kind: MessageKind, channel: ChannelId, flags: u16, plaintext: Bytes)
    | Open(frame: Frame)
    | CheckBinding(permissionsDigest: Bytes32, path: TransportPath, candidatePairId: u128, relayNodeId: Option<Bytes>)
    | Reboot
    | RestoreSequence(restored: ChannelId, next: u64)

  datatype Outcome =
    | ConfirmSent(sent: Security.KeyConfirm)
    | ConfirmVerified
    | Sealed(frame: Frame)
    | Opened(plaintext: Bytes)
    | Done
    | Failed(error: SessionError)

  // ----- the operations as functions of the state

  function CreateConfirmStep(p: Primitives, s: State, deviceId: Bytes, timestamp: u64): (State, Outcome) {
    if s.invalidated then (s, Failed(Invalidated))
    else if s.localConfirmSent then (s, Failed(Crypto(ReplayDetected)))
    else
      match CreateKeyConfirm(p, s.binding.sessionId, deviceId, s.binding.localRole,
                             s.binding.transcriptHash, timestamp, s.binding.keys)
      case Err(e) => (s, Failed(Crypto(e)))
      case Ok(confirm) => (s.(localConfirmSent := true), ConfirmSent(confirm))
  }

  function VerifyConfirmStep(p: Primitives, s: State, confirm: Security.KeyConfirm, peerDeviceId: Bytes, now: u64)
    : (State, Outcome)
  {
    var b := s.binding;
    if s.invalidated then (s, Failed(Invalidated))
    else if s.peerConfirmed then (s.(invalidated := true), Failed(Crypto(ReplayDetected)))
    else if confirm.sessionId != b.sessionId || confirm.role == b.localRole then
      (s.(invalidated := true), Failed(SessionMismatch))
    else
      var (r, accepted) := VerifyKeyConfirm(p, s.acceptedConfirms, confirm, peerDeviceId,
                                            b.localRole.Opposite(), b.transcriptHash, now, b.keys);
      match r
      case Err(e) => (s.(acceptedConfirms := accepted, invalidated := true), Failed(Crypto(e)))
      case Ok(_) => (s.(acceptedConfirms := accepted, peerConfirmed := true), ConfirmVerified)
  }

  function NewHeader(kind: MessageKind, channel: ChannelId, flags: u16, sessionId: u128, sequence: u64): MessageHeader {
    MessageHeader(PROTOCOL_VERSION, kind, flags, channel, sessionId, sequence, 0)
  }

  /** What the sending key makes of a message with the given number. */
  function Encrypted(p: Primitives, b: Binding, kind: MessageKind, channel: ChannelId, flags: u16, sequence: u64,
                     plaintext: Bytes): Result<Frame, CryptoError>
  {
    EncryptPayload(p, b.keys.TrafficKey(b.Outgoing()), b.keys.NoncePrefix(b.Outgoing()), b.permissionsDigest,
                   b.Outgoing(), NewHeader(kind, channel, flags, b.sessionId, sequence), plaintext)
  }

  function SealStep(p: Primitives, s: State, kind: MessageKind, channel: ChannelId, flags: u16, plaintext: Bytes)
    : (State, Outcome)
  {
    match s.NextSequence(kind, channel)
    case Err(e) => (s, Failed(e))
    case Ok(sequence) =>
      match Encrypted(p, s.binding, kind, channel, flags, sequence, plaintext)
      case Err(e) => (s, Failed(Crypto(e)))
      case Ok(frame) =>
        (s.(sendSequences := s.sendSequences[channel.Code() := sequence + 1]), Sealed(frame))
  }

  function OpenStep(p: Primitives, s: State, frame: Frame): (State, Outcome) {
    var b := s.binding;
    if s.EnsureReady().Err? then (s, Failed(s.EnsureReady().error))
    else if frame.header.sessionId != b.sessionId then (s, Failed(SessionMismatch))
    else
      var (r, windows) := Decrypt(p, b.keys.TrafficKey(b.Incoming()), b.keys.NoncePrefix(b.Incoming()),
                                  b.permissionsDigest, b.Incoming(), frame, s.windows);
      match r
      case Err(e) => (s, Failed(Crypto(e)))
      case Ok(plaintext) =>
        (s.(windows := windows),
         if b.Authorize(frame.header.kind).Err? then Failed(PermissionDenied) else Opened(plaintext))
  }

  function CheckBindingStep(s: State, digest: Bytes32, path: TransportPath, pair: u128, relay: Option<Bytes>)
    : (State, Outcome)
  {
    var b := s.binding;
    if digest != b.permissionsDigest then (s.(invalidated := true), Failed(PermissionsChanged))
    else if path != b.path || pair != b.candidatePairId || relay != b.relayNodeId then
      (s.(invalidated := true), Failed(PathChanged))
    else (s, Done)
  }

  function RestoreStep(s: State, channel: ChannelId, next: u64): (State, Outcome) {
    if s.invalidated then (s, Failed(Invalidated))
    else if next < s.sendSequences[channel.Code()] || next > MAX_SECURE_SEQUENCE then
      (s, Failed(Crypto(ReplayDetected)))
    else (s.(sendSequences := s.sendSequences[channel.Code() := next]), Done)
  }

  function Step(p: Primitives, s: State, op: Op): (State, Outcome) {
    match op
    case CreateConfirm(deviceId, timestamp) => CreateConfirmStep(p, s, deviceId, timestamp)
    case VerifyConfirm(confirm, peer, now) => VerifyConfirmStep(p, s, confirm, peer, now)
    case Seal(kind, channel, flags, plaintext) => SealStep(p, s, kind, channel, flags, plaintext)
    case Open(frame) => OpenStep(p, s, frame)
    case CheckBinding(digest, path, pair, relay) => CheckBindingStep(s, digest, path, pair, relay)
    case Reboot => (s.(invalidated := true), Done)
    case RestoreSequence(channel, next) => RestoreStep(s, channel, next)
  }

  // ----- the session object, updated in place

  class SecureSession {
    const p: Primitives
    const binding: Binding
    var sendSequences: Sequences
    const receiveReplayGuard: ReplayGuard
    const keyConfirmReplayGuard: KeyConfirmReplayGuard
    var localConfirmSent: bool
    var peerConfirmed: bool
    var invalidated: bool

    constructor (p: Primitives, binding: Binding)
      ensures this.p == p && Current() == Initial(binding)
      ensures fresh(receiveReplayGuard) && fresh(keyConfirmReplayGuard)
    {
      this.p := p;
      this.binding := binding;
      sendSequences := seq(CHANNEL_COUNT, i => 0);
      receiveReplayGuard := new ReplayGuard();
      keyConfirmReplayGuard := new KeyConfirmReplayGuard();
      localConfirmSent, peerConfirmed, invalidated := false, false, false;
    }

    ghost function Current(): State
      reads this, receiveReplayGuard, keyConfirmReplayGuard
    {
      State(binding, sendSequences, receiveReplayGuard.channels, keyConfirmReplayGuard.accepted,
            localConfirmSent, peerConfirmed, invalidated)
    }

    method CreateLocalKeyConfirm(deviceId: Bytes, timestamp: u64) returns (o: Outcome)
      modifies this
      ensures (Current(), o) == CreateConfirmStep(p, old(Current()), deviceId, timestamp)
    {
      if invalidated {
        return Failed(Invalidated);
      }
      if localConfirmSent {
        return Failed(Crypto(ReplayDetected));
      }
      var confirm := CreateKeyConfirm(p, binding.sessionId, deviceId, binding.localRole,
                                      binding.transcriptHash, timestamp, binding.keys);
      if confirm.Err? {
        return Failed(Crypto(confirm.error));
      }
      localConfirmSent := true;
      return ConfirmSent(confirm.value);
    }

    method VerifyPeerKeyConfirm(confirm: Security.KeyConfirm, peerDeviceId: Bytes, now: u64) returns (o: Outcome)
      modifies this, keyConfirmReplayGuard
      ensures (Current(), o) == VerifyConfirmStep(p, old(Current()), confirm, peerDeviceId, now)
    {
      if invalidated {
        return Failed(Invalidated);
      }
      if peerConfirmed {
        invalidated := true;
        return Failed(Crypto(ReplayDetected));
      }
      if confirm.sessionId != binding.sessionId || confirm.role == binding.localRole {
        invalidated := true;
        return Failed(SessionMismatch);
      }
      var verification := keyConfirmReplayGuard.Verify(
        p, confirm, peerDeviceId, binding.localRole.Opposite(), binding.transcriptHash, now, binding.keys);
      if verification.Err? {
        invalidated := true;
        return Failed(Crypto(verification.error));
      }
      peerConfirmed := true;
      return ConfirmVerified;
    }

    method SealMessage(kind: MessageKind, channel: ChannelId, flags: u16, plaintext: Bytes) returns (o: Outcome)
      modifies this
      ensures (Current(), o) == SealStep(p, old(Current()), kind, channel, flags, plaintext)
    {
      var next := NextSequence(kind, channel);
      if next.Err? {
        return Failed(next.error);
      }
      var header := NewHeader(kind, channel, flags, binding.sessionId, next.value);
      var direction := binding.Outgoing();
      var encrypted := EncryptPayload(p, binding.keys.TrafficKey(direction), binding.keys.NoncePrefix(direction),
                                      binding.permissionsDigest, direction, header, plaintext);
      if encrypted.Err? {
        return Failed(Crypto(encrypted.error));
      }
      sendSequences := sendSequences[channel.Code() := next.value + 1];
      return Sealed(encrypted.value);
    }

    method NextSequence(kind: MessageKind, channel: ChannelId) returns (r: Result<u64, SessionError>)
      ensures r == Current().NextSequence(kind, channel)
    {
      var ready := EnsureReady();
      if ready.Err? {
        return Err(ready.error);
      }
      var allowed := binding.Authorize(kind);
      if allowed.Err? {
        return Err(allowed.error);
      }
      var sequence := sendSequences[channel.Code()];
      if sequence > MAX_SECURE_SEQUENCE {
        return Err(Crypto(SequenceExhausted));
      }
      return Ok(sequence);
    }

    method OpenMessage(header: MessageHeader, ciphertext: Bytes) returns (o: Outcome)
      modifies receiveReplayGuard
      ensures (Current(), o) == OpenStep(p, old(Current()), Frame(header, ciphertext))
    {
      var ready := EnsureReady();
      if ready.Err? {
        return Failed(ready.error);
      }
      if header.sessionId != binding.sessionId {
        return Failed(SessionMismatch);
      }
      var direction := binding.Incoming();
      var plaintext := DecryptPayload(p, binding.keys.TrafficKey(direction), binding.keys.NoncePrefix(direction),
                                      binding.permissionsDigest, direction, header, ciphertext, receiveReplayGuard);
      if plaintext.Err? {
        return Failed(Crypto(plaintext.error));
      }
      if !Allowed(binding.permissions, header.kind) {
        return Failed(PermissionDenied);
      }
      return Opened(plaintext.value);
    }

    method InvalidateIfBindingChanged(digest: Bytes32, path: TransportPath, pair: u128, relay: Option<Bytes>)
      returns (o: Outcome)
      modifies this
      ensures (Current(), o) == CheckBindingStep(old(Current()), digest, path, pair, relay)
    {
      if digest != binding.permissionsDigest {
        invalidated := true;
        return Failed(PermissionsChanged);
      }
      if path != binding.path || pair != binding.candidatePairId || relay != binding.relayNodeId {
        invalidated := true;
        return Failed(PathChanged);
      }
      return Done;
    }

    method InvalidateForReboot()
      modifies this
      ensures Current() == old(Current()).(invalidated := true)
    {
      invalidated := true;
    }

    method RestoreSendSequence(channel: ChannelId, next: u64) returns (o: Outcome)
      modifies this
      ensures (Current(), o) == RestoreStep(old(Current()), channel, next)
    {
      if invalidated {
        return Failed(Invalidated);
      }
      if next < sendSequences[channel.Code()] || next > MAX_SECURE_SEQUENCE {
        return Failed(Crypto(ReplayDetected));
      }
      sendSequences := sendSequences[channel.Code() := next];
      return Done;
    }

    method EnsureReady() returns (r: Result<(), SessionError>)
      ensures r == Current().EnsureReady()
    {
      if invalidated {
        return Err(Invalidated);
      }
      if localConfirmSent && peerConfirmed {
        return Ok(());
      }
      return Err(KeyConfirmationRequired);
    }
  }

  /** `SecureSession::new`: a relay path needs a relay node and a direct path must have none. */
  method NewSecureSession(p: Primitives, binding: Binding) returns (r: Result<SecureSession, SessionError>)
    ensures r.Ok? <==> binding.path.IsRelay() == binding.relayNodeId.Some?
    ensures r.Ok? ==> fresh(r.value) && r.value.Current() == Initial(binding)
    ensures r.Err? ==> r.error == PathChanged
  {
    if binding.path.IsRelay() != binding.relayNodeId.Some? {
      return Err(PathChanged);
    }
    var session := new SecureSession(p, binding);
    return Ok(session);
  }

  // ----- what each operation does, and exactly when

  /** Which permission a kind needs goes by the group of its code. */
  lemma PermissionOfGroups(permissions: SessionPermissions, kind: MessageKind)
    ensures Allowed(permissions, kind) <==>
      var code := kind.Code();
      if 0x0100 <= code < 0x0200 || 0x0400 <= code < 0x0500 then permissions.remoteDesktop
      else if 0x0200 <= code < 0x0300 then permissions.inputControl
      else if 0x0300 <= code < 0x0400 then permissions.clipboard
      else if 0x0500 <= code < 0x0600 then permissions.fileTransfer
      else if 0x0600 <= code < 0x0700 then permissions.privacyScreen || permissions.blockLocalInput
      else true
  {
  }

  /** Ready is both confirmations without an invalidation. */
  lemma ReadyIff(s: State)
    ensures s.Phase() == Ready <==> s.localConfirmSent && s.peerConfirmed && !s.invalidated
    ensures s.Phase() == Closed <==> s.invalidated
    ensures s.EnsureReady().Ok? <==> s.Phase() == Ready
  {
  }

  /** A local confirm is made once, before any invalidation, and says who, what and when. */
  lemma CreatesConfirmIff(p: Primitives, s: State, deviceId: Bytes, timestamp: u64)
    ensures
      var (t, o) := CreateConfirmStep(p, s, deviceId, timestamp);
      var b := s.binding;
      && (o.ConfirmSent? <==> !s.invalidated && !s.localConfirmSent && |deviceId| <= U32_MAX)
      && (o.ConfirmSent? ==>
            && t == s.(localConfirmSent := true)
            && Ok(o.sent)
               == CreateKeyConfirm(p, b.sessionId, deviceId, b.localRole, b.transcriptHash, timestamp, b.keys))
      && (!o.ConfirmSent? ==> t == s)
  {
    var b := s.binding;
    CreatedConfirm(p, b.sessionId, deviceId, b.localRole, b.transcriptHash, timestamp, b.keys);
  }

  /** The confirm the session waits for: its own session, the other role, the peer's device and authentic. */
  ghost predicate Awaited(p: Primitives, s: State, c: Security.KeyConfirm, peerDeviceId: Bytes, now: u64) {
    var b := s.binding;
    && c.sessionId == b.sessionId
    && Authentic(p, c, peerDeviceId, b.localRole.Opposite(), b.transcriptHash, now, b.keys)
    && p.sha256(c.CanonicalMacInput().value + c.confirmMac) !in s.acceptedConfirms
  }

  /** A peer confirm is verified exactly when it is the awaited one and the first; anything else invalidates. */
  lemma VerifiesConfirmIff(p: Primitives, s: State, c: Security.KeyConfirm, peerDeviceId: Bytes, now: u64)
    ensures
      var (t, o) := VerifyConfirmStep(p, s, c, peerDeviceId, now);
      && (o == ConfirmVerified <==> !s.invalidated && !s.peerConfirmed && Awaited(p, s, c, peerDeviceId, now))
      && (o == ConfirmVerified ==> t.peerConfirmed && !t.invalidated && t.localConfirmSent == s.localConfirmSent)
      && (o != ConfirmVerified ==> t.invalidated && t.peerConfirmed == s.peerConfirmed)
  {
    var b := s.binding;
    ConfirmsIff(p, s.acceptedConfirms, c, peerDeviceId, b.localRole.Opposite(), b.transcriptHash, now, b.keys);
  }

  /** The key and the nonce prefix an end sends with, and receives with, by its role. */
  lemma KeysByRole(b: Binding)
    ensures b.keys.TrafficKey(b.Outgoing())
         == if b.localRole == Controller then b.keys.forwardKey else b.keys.backwardKey
    ensures b.keys.TrafficKey(b.Incoming())
         == if b.localRole == Controller then b.keys.backwardKey else b.keys.forwardKey
    ensures b.keys.NoncePrefix(b.Outgoing())
         == if b.localRole == Controller then b.keys.forwardPrefix else b.keys.backwardPrefix
    ensures b.keys.NoncePrefix(b.Incoming())
         == if b.localRole == Controller then b.keys.backwardPrefix else b.keys.forwardPrefix
  {
  }

  /** A number is given out exactly in a Ready session, for a permitted kind, while the counter is in range. */
  lemma NumbersIff(s: State, kind: MessageKind, channel: ChannelId)
    ensures s.NextSequence(kind, channel).Ok? <==>
      && s.Phase() == Ready && Allowed(s.binding.permissions, kind)
      && s.sendSequences[channel.Code()] < 0x1_0000_0000_0000
    ensures s.NextSequence(kind, channel).Ok? ==> s.NextSequence(kind, channel).value == s.sendSequences[channel.Code()]
    ensures s.Phase() == Ready && !Allowed(s.binding.permissions, kind) ==>
      s.NextSequence(kind, channel) == Err(PermissionDenied)
    ensures s.Phase() == Ready && Allowed(s.binding.permissions, kind) && s.NextSequence(kind, channel).Err? ==>
      s.NextSequence(kind, channel) == Err(Crypto(SequenceExhausted))
  {
  }

  /** A seal is a number given out and a message encrypted under it; only that counter moves, by one. */
  lemma SealParts(p: Primitives, s: State, kind: MessageKind, channel: ChannelId, flags: u16, plaintext: Bytes)
    ensures
      var (t, o) := SealStep(p, s, kind, channel, flags, plaintext);
      var number := s.NextSequence(kind, channel);
      if number.Err? then t == s && o == Failed(number.error)
      else
        var frame := Encrypted(p, s.binding, kind, channel, flags, number.value, plaintext);
        if frame.Err? then t == s && o == Failed(Crypto(frame.error))
        else o == Sealed(frame.value)
             && t == s.(sendSequences := s.sendSequences[channel.Code() := number.value + 1])
  {
  }

  /**
   * A message is sealed exactly when the session is Ready, the kind is permitted and may use the channel,
   * the size fits and the counter is in range. The header repeats what was asked for, with the counter as
   * its number, and the ciphertext is sealed with the key of the end's role.
   */
  lemma SealsIff(p: Primitives, s: State, kind: MessageKind, channel: ChannelId, flags: u16, plaintext: Bytes)
    ensures
      var o := SealStep(p, s, kind, channel, flags, plaintext).1;
      var b, counter := s.binding, s.sendSequences[channel.Code()];
      && (o.Sealed? <==>
            && s.Phase() == Ready && Allowed(b.permissions, kind) && counter < 0x1_0000_0000_0000
            && kind.AcceptsChannel(channel) && |plaintext| + 16 <= 0xffff_ffff)
      && (o.Sealed? ==>
            var h := MessageHeader(1, kind, flags, channel, b.sessionId, counter, |plaintext| + 16);
            var prefix := if b.localRole == Controller then b.keys.forwardPrefix else b.keys.backwardPrefix;
            && o.frame.header == h && BuildNonce(prefix, channel, counter).Ok?
            && o.frame.ciphertext
               == p.aeadSeal(if b.localRole == Controller then b.keys.forwardKey else b.keys.backwardKey,
                             BuildNonce(prefix, channel, counter).value,
                             BuildAad(h, b.permissionsDigest, b.Outgoing()), plaintext))
  {
    var b, counter := s.binding, s.sendSequences[channel.Code()];
    NumbersIff(s, kind, channel);
    SealParts(p, s, kind, channel, flags, plaintext);
    KeysByRole(b);
    EncryptsIff(p, b.keys.TrafficKey(b.Outgoing()), b.keys.NoncePrefix(b.Outgoing()), b.permissionsDigest,
                b.Outgoing(), MessageHeader(1, kind, flags, channel, b.sessionId, counter, 0), plaintext);
  }

  /** What the receiving key makes of a frame. */
  function Decrypted(p: Primitives, s: State, frame: Frame): (Result<Bytes, CryptoError>, Windows) {
    var b := s.binding;
    Decrypt(p, b.keys.TrafficKey(b.Incoming()), b.keys.NoncePrefix(b.Incoming()), b.permissionsDigest, b.Incoming(),
            frame, s.windows)
  }

  /**
   * A frame is opened exactly when the session is Ready, the frame is of this session, it decrypts, and
   * its kind is permitted; a kind that is not is refused after the frame was recorded.
   */
  lemma OpensIff(p: Primitives, s: State, frame: Frame)
    ensures
      var (t, o) := OpenStep(p, s, frame);
      var mine, r := frame.header.sessionId == s.binding.sessionId, Decrypted(p, s, frame);
      var permitted := Allowed(s.binding.permissions, frame.header.kind);
      && (o.Opened? <==> s.Phase() == Ready && mine && r.0.Ok? && permitted)
      && (o.Opened? ==> o.plaintext == r.0.value)
      && (o == Failed(PermissionDenied) <==> s.Phase() == Ready && mine && r.0.Ok? && !permitted)
      && (s.Phase() == Ready && !mine ==> o == Failed(SessionMismatch))
      && (s.Phase() == Ready && mine && r.0.Err? ==> o == Failed(Crypto(r.0.error)))
      && t == if s.Phase() == Ready && mine && r.0.Ok? then s.(windows := r.1) else s
  {
  }

  /** The binding is confirmed exactly when nothing in it changed; any change invalidates. */
  lemma BindingHoldsIff(s: State, digest: Bytes32, path: TransportPath, pair: u128, relay: Option<Bytes>)
    ensures
      var (t, o) := CheckBindingStep(s, digest, path, pair, relay);
      var b := s.binding;
      var same := path == b.path && pair == b.candidatePairId && relay == b.relayNodeId;
      && (o == Done <==> digest == b.permissionsDigest && same)
      && (digest != b.permissionsDigest ==> o == Failed(PermissionsChanged))
      && (digest == b.permissionsDigest && !same ==> o == Failed(PathChanged))
      && t == if o == Done then s else s.(invalidated := true)
  {
  }

  /**
   * A counter is restored exactly when the session is not invalidated and the number is not lower and in
   * range; then the next message sealed on the channel takes it.
   */
  lemma RestoresIff(p: Primitives, s: State, channel: ChannelId, next: u64,
                    kind: MessageKind, flags: u16, plaintext: Bytes)
    ensures
      var (t, o) := RestoreStep(s, channel, next);
      && (o == Done <==> !s.invalidated && s.sendSequences[channel.Code()] <= next < 0x1_0000_0000_0000)
      && (o == Done ==>
            && t == s.(sendSequences := s.sendSequences[channel.Code() := next])
            && (SealStep(p, t, kind, channel, flags, plaintext).1.Sealed? ==>
                  SealStep(p, t, kind, channel, flags, plaintext).1.frame.header.sequence == next))
      && (o != Done ==> t == s)
  {
    var t := RestoreStep(s, channel, next).0;
    SealsIff(p, t, kind, channel, flags, plaintext);
  }
}
