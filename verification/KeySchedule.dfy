/** Transcript hash, session key derivation and key confirmation. */
module KeySchedule {
  import opened Bytes
  import opened Canonical
  import opened Security
  import opened Primitives

  const KEY_CONFIRM_WINDOW_MILLIS := 30_000
  const SIGNATURE_LEN := 64

  datatype DerivedSessionKeys = DerivedSessionKeys(
    forwardKey: Bytes32,
    forwardPrefix: Bytes4,
    backwardKey: Bytes32,
    backwardPrefix: Bytes4,
    forwardConfirm: Bytes32,
    backwardConfirm: Bytes32)
  {
    function TrafficKey(d: TrafficDirection): Bytes32 {
      match d
      case ControllerToControlled => forwardKey
      case ControlledToController => backwardKey
    }

    function NoncePrefix(d: TrafficDirection): Bytes4 {
      match d
      case ControllerToControlled => forwardPrefix
      case ControlledToController => backwardPrefix
    }

    function ConfirmationKey(d: TrafficDirection): Bytes32 {
      match d
      case ControllerToControlled => forwardConfirm
      case ControlledToController => backwardConfirm
    }
  }

  function PermissionsDigest(p: Primitives, permissions: SessionPermissions): Result<Bytes32, CryptoError> {
    match permissions.CanonicalBytes()
    case Err(_) => Err(CanonicalEncoding)
    case Ok(bytes) => Ok(p.sha256(bytes))
  }

  function SessionContextHash(p: Primitives, context: SessionContext): Result<Bytes32, CryptoError> {
    match context.CanonicalBytes()
    case Err(_) => Err(CanonicalEncoding)
    case Ok(bytes) => Ok(p.sha256(bytes))
  }

  // ----- transcript

  predicate Transcribable(controller: SignedKeyExchange, controlled: SignedKeyExchange) {
    && controller.payload.CanonicalBytes().Ok? && controlled.payload.CanonicalBytes().Ok?
    && |controller.signature| == SIGNATURE_LEN && |controlled.signature| == SIGNATURE_LEN
  }

  /** Two payload encodings and two raw signatures, with no outer lengths. */
  function TranscriptBytes(controller: SignedKeyExchange, controlled: SignedKeyExchange): Bytes
    requires Transcribable(controller, controlled)
  {
    controller.payload.CanonicalBytes().value + controller.signature
    + controlled.payload.CanonicalBytes().value + controlled.signature
  }

  function TranscriptHash(p: Primitives, controller: SignedKeyExchange, controlled: SignedKeyExchange)
    : (r: Result<Bytes32, CryptoError>)
    ensures r.Ok? ==>
      && controller.payload.role == Controller && controlled.payload.role == Controlled
      && Transcribable(controller, controlled)
      && r.value == p.sha256(TranscriptBytes(controller, controlled))
  {
    if controller.payload.role != Controller || controlled.payload.role != Controlled then
      Err(DeviceRoleMismatch)
    else if controller.payload.CanonicalBytes().Err? || controlled.payload.CanonicalBytes().Err? then
      Err(CanonicalEncoding)
    else if |controller.signature| != SIGNATURE_LEN || |controlled.signature| != SIGNATURE_LEN then
      Err(InvalidSignature)
    else Ok(p.sha256(TranscriptBytes(controller, controlled)))
  }

  lemma SignedPairUnique(fa: seq<Field>, sa: Bytes, fb: seq<Field>, sb: Bytes,
                         ga: seq<Field>, ta: Bytes, gb: seq<Field>, tb: Bytes)
    requires AllFit(fa) && AllFit(fb) && AllFit(ga) && AllFit(gb)
    requires |fa| == |ga| && |fb| == |gb| && |sa| == |ta|
    requires EncodeFields(fa) + sa + EncodeFields(fb) + sb == EncodeFields(ga) + ta + EncodeFields(gb) + tb
    ensures fa == ga && sa == ta && fb == gb && sb == tb
  {
    var ea, eb, ec, ed := EncodeFields(fa), EncodeFields(fb), EncodeFields(ga), EncodeFields(gb);
    var tail, tail' := eb + sb, ed + tb;
    Regroup(ea, sa, eb, sb);
    Regroup(ec, ta, ed, tb);
    FieldsPrefixFree(fa, ga, sa + tail, ta + tail');
    SplitEqual(sa, tail, ta, tail');
    FieldsPrefixFree(fb, gb, sb, tb);
  }

  /** The transcript is uniquely decodable: equal bytes force equal messages, up to the fit with their path. */
  lemma TranscriptUnique(a: SignedKeyExchange, b: SignedKeyExchange, c: SignedKeyExchange, d: SignedKeyExchange)
    requires Transcribable(a, b) && Transcribable(c, d)
    requires TranscriptBytes(a, b) == TranscriptBytes(c, d)
    ensures a.signature == c.signature && b.signature == d.signature
    ensures a == c <==> a.payload.ValidPathBinding() == c.payload.ValidPathBinding()
    ensures b == d <==> b.payload.ValidPathBinding() == d.payload.ValidPathBinding()
  {
    SignedPairUnique(a.payload.Fields(), a.signature, b.payload.Fields(), b.signature,
                     c.payload.Fields(), c.signature, d.payload.Fields(), d.signature);
    if a.payload.ValidPathBinding() == c.payload.ValidPathBinding() { PayloadFromFields(a.payload, c.payload); }
    if b.payload.ValidPathBinding() == d.payload.ValidPathBinding() { PayloadFromFields(b.payload, d.payload); }
  }

  // ----- derivation

  const LABEL_FORWARD_KEY := Ascii("controller_to_controlled_key")
  const LABEL_FORWARD_PREFIX := Ascii("controller_to_controlled_nonce_prefix")
  const LABEL_BACKWARD_KEY := Ascii("controlled_to_controller_key")
  const LABEL_BACKWARD_PREFIX := Ascii("controlled_to_controller_nonce_prefix")
  const LABEL_FORWARD_CONFIRM := Ascii("key_confirmation_controller_to_controlled")
  const LABEL_BACKWARD_CONFIRM := Ascii("key_confirmation_controlled_to_controller")

  function Expand(p: Primitives, salt: Bytes32, secret: Bytes32, infoBase: Bytes, l: Bytes): Bytes32 {
    p.hkdf(salt, secret, infoBase + l)
  }

  function DeriveSessionKeys(p: Primitives, secret: Bytes32, context: KdfContext)
    : Result<DerivedSessionKeys, CryptoError>
  {
    if !context.ValidPathBinding() then Err(InvalidKeyExchangeContext)
    else
      match context.SaltBytes()
      case Err(_) => Err(CanonicalEncoding)
      case Ok(saltBytes) =>
        match context.InfoBase()
        case Err(_) => Err(CanonicalEncoding)
        case Ok(info) =>
          var salt := p.sha256(saltBytes);
          Ok(DerivedSessionKeys(
               Expand(p, salt, secret, info, LABEL_FORWARD_KEY),
               Expand(p, salt, secret, info, LABEL_FORWARD_PREFIX)[..4],
               Expand(p, salt, secret, info, LABEL_BACKWARD_KEY),
               Expand(p, salt, secret, info, LABEL_BACKWARD_PREFIX)[..4],
               Expand(p, salt, secret, info, LABEL_FORWARD_CONFIRM),
               Expand(p, salt, secret, info, LABEL_BACKWARD_CONFIRM)))
  }

  /** The derivation input determines the label and, up to the fit with its path, the whole context,
      although the label is appended to the encoded context without a length of its own. */
  lemma KdfInfoUnique(c: KdfContext, l: Bytes, c': KdfContext, l': Bytes)
    requires c.InfoBase().Ok? && c'.InfoBase().Ok?
    requires c.InfoBase().value + l == c'.InfoBase().value + l'
    ensures l == l'
    ensures c == c' <==> c.ValidPathBinding() == c'.ValidPathBinding()
  {
    FieldsPrefixFree(c.InfoFields(), c'.InfoFields(), l, l');
    if c.ValidPathBinding() == c'.ValidPathBinding() { InfoFromFields(c, c'); }
  }

  // ----- key confirmation

  function ConfirmMac(p: Primitives, keys: DerivedSessionKeys, role: SessionRole, canonical: Bytes): Bytes32 {
    p.hmac(keys.ConfirmationKey(TrafficDirection.FromSenderRole(role)), canonical)
  }

  function CreateKeyConfirm(p: Primitives, sessionId: u128, deviceId: Bytes, role: SessionRole,
                            transcriptHash: Bytes32, timestamp: u64, keys: DerivedSessionKeys)
    : Result<KeyConfirm, CryptoError>
  {
    var blank := KeyConfirm(sessionId, deviceId, role, transcriptHash, Zero32(), timestamp);
    match blank.CanonicalMacInput()
    case Err(_) => Err(CanonicalEncoding)
    case Ok(canonical) => Ok(blank.(confirmMac := ConfirmMac(p, keys, role, canonical)))
  }

  function AbsDiff(a: nat, b: nat): nat { if a < b then b - a else a - b }

  /** The checks of `KeyConfirmReplayGuard::verify` before the replay set is consulted. */
  function CheckKeyConfirm(p: Primitives, confirm: KeyConfirm, deviceId: Bytes, role: SessionRole,
                           transcriptHash: Bytes32, now: u64, keys: DerivedSessionKeys)
    : Result<(), CryptoError>
  {
    if confirm.deviceId != deviceId || confirm.role != role then Err(DeviceRoleMismatch)
    else if confirm.transcriptHash != transcriptHash then Err(InvalidKeyExchangeContext)
    else if AbsDiff(now, confirm.timestamp) > KEY_CONFIRM_WINDOW_MILLIS then Err(TimestampOutsideWindow)
    else
      match confirm.CanonicalMacInput()
      case Err(_) => Err(CanonicalEncoding)
      case Ok(canonical) =>
        if confirm.confirmMac != ConfirmMac(p, keys, confirm.role, canonical) then Err(AuthenticationFailed)
        else Ok(())
  }

  function Fingerprint(p: Primitives, confirm: KeyConfirm): Bytes32
    requires confirm.CanonicalMacInput().Ok?
  {
    p.sha256(confirm.CanonicalMacInput().value + confirm.confirmMac)
  }

  /** Result and replay set after one verification. */
  function VerifyKeyConfirm(p: Primitives, accepted: set<Bytes32>, confirm: KeyConfirm, deviceId: Bytes,
                            role: SessionRole, transcriptHash: Bytes32, now: u64, keys: DerivedSessionKeys)
    : (Result<(), CryptoError>, set<Bytes32>)
  {
    match CheckKeyConfirm(p, confirm, deviceId, role, transcriptHash, now, keys)
    case Err(e) => (Err(e), accepted)
    case Ok(_) =>
      var f := Fingerprint(p, confirm);
      (if f in accepted then Err(ReplayDetected) else Ok(()), accepted + {f})
  }

  class KeyConfirmReplayGuard {
    var accepted: set<Bytes32>

    constructor ()
      ensures accepted == {}
    {
      accepted := {};
    }

    method Verify(p: Primitives, confirm: KeyConfirm, deviceId: Bytes, role: SessionRole,
                  transcriptHash: Bytes32, now: u64, keys: DerivedSessionKeys)
      returns (r: Result<(), CryptoError>)
      modifies this
      ensures (r, accepted)
           == VerifyKeyConfirm(p, old(accepted), confirm, deviceId, role, transcriptHash, now, keys)
    {
      if confirm.deviceId != deviceId || confirm.role != role {
        return Err(DeviceRoleMismatch);
      }
      if confirm.transcriptHash != transcriptHash {
        return Err(InvalidKeyExchangeContext);
      }
      if AbsDiff(now, confirm.timestamp) > KEY_CONFIRM_WINDOW_MILLIS {
        return Err(TimestampOutsideWindow);
      }
      var canonical := confirm.CanonicalMacInput();
      if canonical.Err? {
        return Err(CanonicalEncoding);
      }
      if confirm.confirmMac != ConfirmMac(p, keys, confirm.role, canonical.value) {
        return Err(AuthenticationFailed);
      }
      var fingerprint := p.sha256(canonical.value + confirm.confirmMac);
      var seen := fingerprint in accepted;
      accepted := accepted + {fingerprint};
      if seen {
        return Err(ReplayDetected);
      }
      return Ok(());
    }
  }

  /** A confirm made from a session's own keys, transcript and device passes exactly inside the
      time window, and passes a fresh guard. */
  lemma OwnConfirmAccepted(p: Primitives, sessionId: u128, deviceId: Bytes, role: SessionRole,
                           transcriptHash: Bytes32, sent: u64, keys: DerivedSessionKeys, now: u64)
    requires CreateKeyConfirm(p, sessionId, deviceId, role, transcriptHash, sent, keys).Ok?
    ensures var confirm := CreateKeyConfirm(p, sessionId, deviceId, role, transcriptHash, sent, keys).value;
            VerifyKeyConfirm(p, {}, confirm, deviceId, role, transcriptHash, now, keys).0.Ok?
            <==> AbsDiff(now, sent) <= KEY_CONFIRM_WINDOW_MILLIS
  {
    var blank := KeyConfirm(sessionId, deviceId, role, transcriptHash, Zero32(), sent);
    var confirm := CreateKeyConfirm(p, sessionId, deviceId, role, transcriptHash, sent, keys).value;
    assert confirm.MacFields() == blank.MacFields();
  }

  // ----- what a transcript holds

  /** The transcript reads back, front to back, as the controller's payload and signature, then the controlled end's. */
  lemma TranscriptReadsBack(controller: SignedKeyExchange, controlled: SignedKeyExchange)
    requires Transcribable(controller, controlled)
    ensures
      var second := controlled.payload.CanonicalBytes().value + controlled.signature;
      && TakeFields(TranscriptBytes(controller, controlled), 13)
         == Some((controller.payload.Fields(), controller.signature + second))
      && TakeFields(second, 13) == Some((controlled.payload.Fields(), controlled.signature))
  {
    var first, second := controller.payload.CanonicalBytes().value, controlled.payload.CanonicalBytes().value;
    Regroup(first, controller.signature, second, controlled.signature);
    TakeFieldsInverts(controller.payload.Fields(), controller.signature + (second + controlled.signature));
    TakeFieldsInverts(controlled.payload.Fields(), controlled.signature);
  }

  // ----- which bytes the six keys are

  datatype KeyName = ForwardKey | ForwardPrefix | BackwardKey | BackwardPrefix | ForwardConfirm | BackwardConfirm
  {
    function Label(): Bytes {
      match this
      case ForwardKey => Ascii("controller_to_controlled_key")
      case ForwardPrefix => Ascii("controller_to_controlled_nonce_prefix")
      case BackwardKey => Ascii("controlled_to_controller_key")
      case BackwardPrefix => Ascii("controlled_to_controller_nonce_prefix")
      case ForwardConfirm => Ascii("key_confirmation_controller_to_controlled")
      case BackwardConfirm => Ascii("key_confirmation_controlled_to_controller")
    }

    predicate IsPrefix() { ForwardPrefix? || BackwardPrefix? }
  }

  function KeyOf(keys: DerivedSessionKeys, name: KeyName): Bytes {
    match name
    case ForwardKey => keys.forwardKey
    case ForwardPrefix => keys.forwardPrefix
    case BackwardKey => keys.backwardKey
    case BackwardPrefix => keys.backwardPrefix
    case ForwardConfirm => keys.forwardConfirm
    case BackwardConfirm => keys.backwardConfirm
  }

  /** What one key is derived from. */
  datatype HkdfInput = HkdfInput(salt: Bytes32, secret: Bytes32, info: Bytes)
  {
    function Output(p: Primitives): Bytes32 { p.hkdf(salt, secret, info) }
  }

  function InputOf(p: Primitives, secret: Bytes32, c: KdfContext, name: KeyName): HkdfInput
    requires c.SaltBytes().Ok? && c.InfoBase().Ok?
  {
    HkdfInput(p.sha256(c.SaltBytes().value), secret, c.InfoBase().value + name.Label())
  }

  /** Keys are derived exactly for a path-consistent, encodable context. */
  lemma DerivesIff(p: Primitives, secret: Bytes32, c: KdfContext)
    ensures DeriveSessionKeys(p, secret, c).Ok? <==> c.ValidPathBinding() && c.SaltBytes().Ok? && c.InfoBase().Ok?
  {
  }

  /** Each of the six is HKDF of the salt hash, the secret and the labelled info, a prefix its first four bytes. */
  lemma KeysAreHkdf(p: Primitives, secret: Bytes32, c: KdfContext, name: KeyName)
    requires DeriveSessionKeys(p, secret, c).Ok?
    ensures c.SaltBytes().Ok? && c.InfoBase().Ok?
    ensures
      var output := InputOf(p, secret, c, name).Output(p);
      KeyOf(DeriveSessionKeys(p, secret, c).value, name) == if name.IsPrefix() then output[..4] else output
  {
    DerivesIff(p, secret, c);
  }

  lemma LabelsDiffer(a: KeyName, b: KeyName)
    requires a.Label() == b.Label()
    ensures a == b
  {
    assert |a.Label()| == |b.Label()|;
    assert Ascii("controller_to_controlled_key")[9] != Ascii("controlled_to_controller_key")[9];
    assert Ascii("controller_to_controlled_nonce_prefix")[9] != Ascii("controlled_to_controller_nonce_prefix")[9];
    assert Ascii("key_confirmation_controller_to_controlled")[26]
        != Ascii("key_confirmation_controlled_to_controller")[26];
  }

  /** The salt covers session, both devices, permissions and expiry. */
  lemma SaltCovers(c: KdfContext, d: KdfContext)
    requires c.SaltBytes().Ok? && c.SaltBytes() == d.SaltBytes()
    ensures c.sessionId == d.sessionId && c.controllerDeviceId == d.controllerDeviceId
    ensures c.controlledDeviceId == d.controlledDeviceId
    ensures c.permissionsDigest == d.permissionsDigest && c.expiresAt == d.expiresAt
  {
    var fs, gs := c.SaltFields(), d.SaltFields();
    FieldsUnique(fs, gs);
    assert fs[1] == gs[1] && fs[2] == gs[2] && fs[3] == gs[3] && fs[4] == gs[4] && fs[5] == gs[5];
    U128FieldInjective("session_id", c.sessionId, d.sessionId);
    U64FieldInjective("session_expires_at_epoch_millis", c.expiresAt, d.expiresAt);
  }

  /** Different secret, context or key name: different input. */
  lemma InputsDiffer(p: Primitives, secret: Bytes32, c: KdfContext, name: KeyName,
                     secret': Bytes32, c': KdfContext, name': KeyName)
    requires c.ValidPathBinding() && c'.ValidPathBinding()
    requires c.SaltBytes().Ok? && c.InfoBase().Ok? && c'.SaltBytes().Ok? && c'.InfoBase().Ok?
    requires (secret, c, name) != (secret', c', name')
    ensures InputOf(p, secret, c, name) != InputOf(p, secret', c', name')
  {
    if c.InfoBase().value + name.Label() == c'.InfoBase().value + name'.Label() {
      KdfInfoUnique(c, name.Label(), c', name'.Label());
      LabelsDiffer(name, name');
    }
  }

  /** Two different HKDF inputs with one output, or with one beginning of it. */
  ghost predicate HkdfCollision(p: Primitives, x: HkdfInput, y: HkdfInput, width: nat) {
    x != y && width <= 32 && x.Output(p)[..width] == y.Output(p)[..width]
  }

  /**
   * Two derived keys that differ in shared secret, context or place among the six are equal only if
   * HKDF collides on the two inputs named, on all 32 bytes or, where a nonce prefix is one of the
   * two, on the first four.
   */
  lemma KeysDifferOrCollide(p: Primitives, secret: Bytes32, c: KdfContext, name: KeyName,
                            secret': Bytes32, c': KdfContext, name': KeyName)
    requires DeriveSessionKeys(p, secret, c).Ok? && DeriveSessionKeys(p, secret', c').Ok?
    requires (secret, c, name) != (secret', c', name') && name.IsPrefix() == name'.IsPrefix()
    requires KeyOf(DeriveSessionKeys(p, secret, c).value, name) == KeyOf(DeriveSessionKeys(p, secret', c').value, name')
    ensures c.SaltBytes().Ok? && c.InfoBase().Ok? && c'.SaltBytes().Ok? && c'.InfoBase().Ok?
    ensures HkdfCollision(p, InputOf(p, secret, c, name), InputOf(p, secret', c', name'),
                          if name.IsPrefix() then 4 else 32)
  {
    DerivesIff(p, secret, c);
    DerivesIff(p, secret', c');
    KeysAreHkdf(p, secret, c, name);
    KeysAreHkdf(p, secret', c', name');
    InputsDiffer(p, secret, c, name, secret', c', name');
    var x, y := InputOf(p, secret, c, name).Output(p), InputOf(p, secret', c', name').Output(p);
    assert x[..32] == x && y[..32] == y;
  }

  /** Where HKDF tells two shared secrets apart, so does every key. */
  lemma SecretDecidesKeys(p: Primitives, secret: Bytes32, secret': Bytes32, c: KdfContext, name: KeyName)
    requires DeriveSessionKeys(p, secret, c).Ok? && DeriveSessionKeys(p, secret', c).Ok?
    requires forall salt, info ::
      if name.IsPrefix() then p.hkdf(salt, secret, info)[..4] != p.hkdf(salt, secret', info)[..4]
      else p.hkdf(salt, secret, info) != p.hkdf(salt, secret', info)
    ensures KeyOf(DeriveSessionKeys(p, secret, c).value, name) != KeyOf(DeriveSessionKeys(p, secret', c).value, name)
  {
    KeysAreHkdf(p, secret, c, name);
    KeysAreHkdf(p, secret', c, name);
  }

  /** Sending and receiving use one key of each pair: the controller sends with the forward ones. */
  lemma KeysOfSender(keys: DerivedSessionKeys, role: SessionRole)
    ensures keys.TrafficKey(TrafficDirection.FromSenderRole(role))
         == if role == Controller then keys.forwardKey else keys.backwardKey
    ensures keys.NoncePrefix(TrafficDirection.FromSenderRole(role))
         == if role == Controller then keys.forwardPrefix else keys.backwardPrefix
    ensures keys.ConfirmationKey(TrafficDirection.FromSenderRole(role))
         == if role == Controller then keys.forwardConfirm else keys.backwardConfirm
    ensures TrafficDirection.FromSenderRole(role).Reverse() == TrafficDirection.FromSenderRole(role.Opposite())
  {
  }

  // ----- which confirms are accepted

  function SenderConfirmKey(keys: DerivedSessionKeys, role: SessionRole): Bytes32 {
    if role == Controller then keys.forwardConfirm else keys.backwardConfirm
  }

  /** A confirm that names the expected end and transcript, in time, with the MAC of that end's key. */
  ghost predicate Authentic(p: Primitives, c: KeyConfirm, deviceId: Bytes, role: SessionRole,
                            transcriptHash: Bytes32, now: u64, keys: DerivedSessionKeys)
  {
    && c.deviceId == deviceId && c.role == role && c.transcriptHash == transcriptHash
    && c.timestamp <= now + 30_000 && now <= c.timestamp + 30_000
    && c.CanonicalMacInput().Ok?
    && c.confirmMac == p.hmac(SenderConfirmKey(keys, role), c.CanonicalMacInput().value)
  }

  /** A confirm passes exactly when it is authentic with a new fingerprint; exactly the authentic ones are stored. */
  lemma ConfirmsIff(p: Primitives, accepted: set<Bytes32>, c: KeyConfirm, deviceId: Bytes, role: SessionRole,
                    transcriptHash: Bytes32, now: u64, keys: DerivedSessionKeys)
    ensures
      var (r, after) := VerifyKeyConfirm(p, accepted, c, deviceId, role, transcriptHash, now, keys);
      var authentic := Authentic(p, c, deviceId, role, transcriptHash, now, keys);
      && (r.Ok? <==> authentic && p.sha256(c.CanonicalMacInput().value + c.confirmMac) !in accepted)
      && (r == Err(ReplayDetected) <==> authentic && p.sha256(c.CanonicalMacInput().value + c.confirmMac) in accepted)
      && after == if authentic then accepted + {p.sha256(c.CanonicalMacInput().value + c.confirmMac)} else accepted
  {
    KeysOfSender(keys, role);
  }

  /** The other refusals, in the order in which they are found. */
  lemma ConfirmRefusals(p: Primitives, accepted: set<Bytes32>, c: KeyConfirm, deviceId: Bytes, role: SessionRole,
                        transcriptHash: Bytes32, now: u64, keys: DerivedSessionKeys)
    ensures
      var r := VerifyKeyConfirm(p, accepted, c, deviceId, role, transcriptHash, now, keys).0;
      var inTime := c.timestamp <= now + 30_000 && now <= c.timestamp + 30_000;
      var expected := c.deviceId == deviceId && c.role == role;
      && (!expected ==> r == Err(DeviceRoleMismatch))
      && (expected && c.transcriptHash != transcriptHash ==> r == Err(InvalidKeyExchangeContext))
      && (expected && c.transcriptHash == transcriptHash && !inTime ==> r == Err(TimestampOutsideWindow))
      && (expected && c.transcriptHash == transcriptHash && inTime && c.CanonicalMacInput().Ok?
          && c.confirmMac != p.hmac(SenderConfirmKey(keys, role), c.CanonicalMacInput().value) ==>
            r == Err(AuthenticationFailed))
  {
    KeysOfSender(keys, role);
  }

  /** The MAC covers everything in a confirm but itself. */
  lemma MacInputCovers(c: KeyConfirm, d: KeyConfirm)
    requires c.CanonicalMacInput().Ok? && c.CanonicalMacInput() == d.CanonicalMacInput()
    ensures c == d.(confirmMac := c.confirmMac)
  {
    var fs, gs := c.MacFields(), d.MacFields();
    FieldsUnique(fs, gs);
    assert fs[1] == gs[1] && fs[2] == gs[2] && fs[3] == gs[3] && fs[4] == gs[4] && fs[5] == gs[5];
    U128FieldInjective("session_id", c.sessionId, d.sessionId);
    RoleNames(c.role, d.role);
    U64FieldInjective("timestamp", c.timestamp, d.timestamp);
  }

  /** A created confirm says what it was asked to, with the MAC of its sender's key; only the encoding can fail. */
  lemma CreatedConfirm(p: Primitives, sessionId: u128, deviceId: Bytes, role: SessionRole,
                       transcriptHash: Bytes32, timestamp: u64, keys: DerivedSessionKeys)
    ensures
      var r := CreateKeyConfirm(p, sessionId, deviceId, role, transcriptHash, timestamp, keys);
      && (r.Ok? <==> |deviceId| <= U32_MAX)
      && (r.Ok? ==>
            && r.value == KeyConfirm(sessionId, deviceId, role, transcriptHash, r.value.confirmMac, timestamp)
            && r.value.CanonicalMacInput().Ok?
            && r.value.confirmMac == p.hmac(SenderConfirmKey(keys, role), r.value.CanonicalMacInput().value))
      && (r.Err? ==> r.error == CanonicalEncoding)
  {
    var blank := KeyConfirm(sessionId, deviceId, role, transcriptHash, Zero32(), timestamp);
    assert |deviceId| <= U32_MAX ==> AllFit(blank.MacFields());
    assert |deviceId| > U32_MAX ==> !Fits(blank.MacFields()[2]);
    KeysOfSender(keys, role);
    var r := CreateKeyConfirm(p, sessionId, deviceId, role, transcriptHash, timestamp, keys);
    assert r.Ok? ==> r.value.MacFields() == blank.MacFields();
  }
}
