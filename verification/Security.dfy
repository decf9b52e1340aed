/** Roles, paths, permissions and the canonical encodings that are hashed, signed and used for key
    derivation. Every encoding is a list of fields written by `CanonicalWriter`. */
module Security {
  import opened Bytes
  import opened Canonical

  datatype SessionRole = Controller | Controlled
  {
    function AsStr(): Bytes {
      match this
      case Controller => Ascii("controller")
      case Controlled => Ascii("controlled")
    }

    function Opposite(): SessionRole {
      match this
      case Controller => Controlled
      case Controlled => Controller
    }
  }

  datatype TransportPath = LanDirect | UdpP2p | QuicRelay | Tls443Relay
  {
    function AsStr(): Bytes {
      match this
      case LanDirect => Ascii("lan_direct")
      case UdpP2p => Ascii("udp_p2p")
      case QuicRelay => Ascii("quic_relay")
      case Tls443Relay => Ascii("tls_443_relay")
    }

    predicate IsRelay() {
      QuicRelay? || Tls443Relay?
    }
  }

  datatype TrafficDirection = ControllerToControlled | ControlledToController
  {
    function AsStr(): Bytes {
      match this
      case ControllerToControlled => Ascii("controller_to_controlled")
      case ControlledToController => Ascii("controlled_to_controller")
    }

    static function FromSenderRole(role: SessionRole): TrafficDirection {
      match role
      case Controller => ControllerToControlled
      case Controlled => ControlledToController
    }

    function Reverse(): TrafficDirection {
      match this
      case ControllerToControlled => ControlledToController
      case ControlledToController => ControllerToControlled
    }
  }

  lemma RoleNames(a: SessionRole, b: SessionRole)
    requires a.AsStr() == b.AsStr()
    ensures a == b
  {
    assert Ascii("controller")[9] != Ascii("controlled")[9];
  }

  lemma PathNames(a: TransportPath, b: TransportPath)
    requires a.AsStr() == b.AsStr()
    ensures a == b
  {
    assert Ascii("lan_direct")[0] != Ascii("quic_relay")[0];
  }

  // ----- typed pushes

  function StrField(name: string, value: Bytes): Field { Field(Ascii(name), value) }

  /** `push_optional_str`: an absent string is written like an empty one. */
  function OptField(name: string, value: Option<Bytes>): Field {
    Field(Ascii(name), if value.Some? then value.value else [])
  }

  function BoolField(name: string, value: bool): Field { Field(Ascii(name), [if value then 1 else 0]) }

  function U16Field(name: string, value: u16): Field { Field(Ascii(name), BigEndian(value, 2)) }

  function U64Field(name: string, value: u64): Field { Field(Ascii(name), BigEndian(value, 8)) }

  function U128Field(name: string, value: u128): Field { Field(Ascii(name), BigEndian(value, 16)) }

  lemma U16FieldInjective(name: string, v: u16, w: u16)
    ensures U16Field(name, v) == U16Field(name, w) ==> v == w
  {
    PowersOf256();
    if U16Field(name, v) == U16Field(name, w) { BigEndianInjective(v, w, 2); }
  }

  lemma U64FieldInjective(name: string, v: u64, w: u64)
    ensures U64Field(name, v) == U64Field(name, w) ==> v == w
  {
    PowersOf256();
    if U64Field(name, v) == U64Field(name, w) { BigEndianInjective(v, w, 8); }
  }

  lemma U128FieldInjective(name: string, v: u128, w: u128)
    ensures U128Field(name, v) == U128Field(name, w) ==> v == w
  {
    PowersOf256();
    if U128Field(name, v) == U128Field(name, w) { BigEndianInjective(v, w, 16); }
  }

  // ----- permissions

  datatype SessionPermissions = SessionPermissions(
    remoteDesktop: bool,
    inputControl: bool,
    clipboard: bool,
    fileTransfer: bool,
    unattended: bool,
    privacyScreen: bool,
    blockLocalInput: bool,
    requirePrompt: bool,
    allowRelay: bool)
  {
    function Fields(): seq<Field> {
      [BoolField("remote_desktop", remoteDesktop),
       BoolField("input_control", inputControl),
       BoolField("clipboard", clipboard),
       BoolField("file_transfer", fileTransfer),
       BoolField("unattended", unattended),
       BoolField("privacy_screen", privacyScreen),
       BoolField("block_local_input", blockLocalInput),
       BoolField("require_prompt", requirePrompt),
       BoolField("allow_relay", allowRelay)]
    }

    function CanonicalBytes(): Result<Bytes, CanonicalError> { Encode(Fields()) }
  }

  lemma PermissionsFromFields(p: SessionPermissions, q: SessionPermissions)
    requires p.Fields() == q.Fields()
    ensures p == q
  {
    var fs, gs := p.Fields(), q.Fields();
    assert fs[0].value[0] == gs[0].value[0] && fs[1].value[0] == gs[1].value[0];
    assert fs[2].value[0] == gs[2].value[0] && fs[3].value[0] == gs[3].value[0];
    assert fs[4].value[0] == gs[4].value[0] && fs[5].value[0] == gs[5].value[0];
    assert fs[6].value[0] == gs[6].value[0] && fs[7].value[0] == gs[7].value[0];
    assert fs[8].value[0] == gs[8].value[0];
  }

  /** Permission encodings never fail. */
  lemma PermissionsEncodable(p: SessionPermissions)
    ensures p.CanonicalBytes().Ok?
  {
    assert AllFit(p.Fields());
  }

  /** Permission encodings are told apart by every one of the nine flags. */
  lemma PermissionsInjective(p: SessionPermissions, q: SessionPermissions)
    requires p.CanonicalBytes() == q.CanonicalBytes()
    ensures p == q
  {
    PermissionsEncodable(p);
    FieldsUnique(p.Fields(), q.Fields());
    PermissionsFromFields(p, q);
  }

  // ----- session context

  datatype SessionContext = SessionContext(
    accountId: Bytes,
    sessionId: u128,
    controllerDeviceId: Bytes,
    controlledDeviceId: Bytes,
    permissionsDigest: Bytes32,
    protocolVersion: u16,
    expiresAt: u64)
  {
    function Fields(): seq<Field> {
      [StrField("domain", Ascii("rctl-session-context-v1")),
       StrField("account_id", accountId),
       U128Field("session_id", sessionId),
       StrField("controller_device_id", controllerDeviceId),
       StrField("controlled_device_id", controlledDeviceId),
       StrField("permissions_digest", permissionsDigest),
       U16Field("protocol_version", protocolVersion),
       U64Field("session_expires_at_epoch_millis", expiresAt)]
    }

    function CanonicalBytes(): Result<Bytes, CanonicalError> { Encode(Fields()) }
  }

  lemma SessionContextInjective(c: SessionContext, d: SessionContext)
    requires c.CanonicalBytes().Ok? && c.CanonicalBytes() == d.CanonicalBytes()
    ensures c == d
  {
    var fs, gs := c.Fields(), d.Fields();
    FieldsUnique(fs, gs);
    assert fs[1] == gs[1] && fs[2] == gs[2] && fs[3] == gs[3] && fs[4] == gs[4];
    assert fs[5] == gs[5] && fs[6] == gs[6] && fs[7] == gs[7];
    U128FieldInjective("session_id", c.sessionId, d.sessionId);
    U16FieldInjective("protocol_version", c.protocolVersion, d.protocolVersion);
    U64FieldInjective("session_expires_at_epoch_millis", c.expiresAt, d.expiresAt);
  }

  // ----- signed key exchange

  datatype KeyExchangePayload = KeyExchangePayload(
    sessionId: u128,
    deviceId: Bytes,
    role: SessionRole,
    contextHash: Bytes32,
    permissionsDigest: Bytes32,
    expiresAt: u64,
    ephemeralPublicKey: Bytes32,
    nonce: Bytes32,
    path: TransportPath,
    candidatePairId: u128,
    relayNodeId: Option<Bytes>,
    timestamp: u64)
  {
    function Fields(): seq<Field> {
      [StrField("domain", Ascii("rctl-signed-key-exchange-v1")),
       U128Field("session_id", sessionId),
       StrField("device_id", deviceId),
       StrField("role", role.AsStr()),
       StrField("session_context_hash", contextHash),
       StrField("permissions_digest", permissionsDigest),
       U64Field("session_expires_at_epoch_millis", expiresAt),
       StrField("ephemeral_public_key", ephemeralPublicKey),
       StrField("key_exchange_nonce", nonce),
       StrField("selected_transport_path", path.AsStr()),
       U128Field("selected_candidate_pair_id", candidatePairId),
       OptField("relay_node_id", relayNodeId),
       U64Field("timestamp", timestamp)]
    }

    function CanonicalBytes(): Result<Bytes, CanonicalError> { Encode(Fields()) }

    predicate ValidPathBinding() { path.IsRelay() == relayNodeId.Some? }
  }

  datatype SignedKeyExchange = SignedKeyExchange(payload: KeyExchangePayload, signature: Bytes)

  /** Absent and empty relay names share an encoding; consistency with the path tells them apart. */
  lemma RelayBound(p: TransportPath, a: Option<Bytes>, b: Option<Bytes>, name: string)
    requires (p.IsRelay() == a.Some?) == (p.IsRelay() == b.Some?)
    requires OptField(name, a) == OptField(name, b)
    ensures a == b
  {
  }

  lemma PayloadFromFields(c: KeyExchangePayload, d: KeyExchangePayload)
    requires c.ValidPathBinding() == d.ValidPathBinding()
    requires c.Fields() == d.Fields()
    ensures c == d
  {
    var fs, gs := c.Fields(), d.Fields();
    assert fs[1] == gs[1] && fs[2] == gs[2] && fs[3] == gs[3] && fs[4] == gs[4];
    assert fs[5] == gs[5] && fs[6] == gs[6] && fs[7] == gs[7] && fs[8] == gs[8];
    assert fs[9] == gs[9] && fs[10] == gs[10] && fs[11] == gs[11] && fs[12] == gs[12];
    U128FieldInjective("session_id", c.sessionId, d.sessionId);
    RoleNames(c.role, d.role);
    U64FieldInjective("session_expires_at_epoch_millis", c.expiresAt, d.expiresAt);
    PathNames(c.path, d.path);
    U128FieldInjective("selected_candidate_pair_id", c.candidatePairId, d.candidatePairId);
    RelayBound(c.path, c.relayNodeId, d.relayNodeId, "relay_node_id");
    U64FieldInjective("timestamp", c.timestamp, d.timestamp);
  }

  /** Payloads with one encoding are the same exactly when both or neither fit their path. */
  lemma PayloadEqualIff(c: KeyExchangePayload, d: KeyExchangePayload)
    requires c.CanonicalBytes().Ok? && c.CanonicalBytes() == d.CanonicalBytes()
    ensures c == d <==> c.ValidPathBinding() == d.ValidPathBinding()
  {
    FieldsUnique(c.Fields(), d.Fields());
    if c.ValidPathBinding() == d.ValidPathBinding() { PayloadFromFields(c, d); }
  }

  lemma PayloadInjective(c: KeyExchangePayload, d: KeyExchangePayload)
    requires c.ValidPathBinding() && d.ValidPathBinding()
    requires c.CanonicalBytes().Ok? && c.CanonicalBytes() == d.CanonicalBytes()
    ensures c == d
  {
    PayloadEqualIff(c, d);
  }

  /** Without the path check the encoding is not injective: `None` and `Some("")` collide. */
  lemma PayloadCollisionWithoutPathBinding(c: KeyExchangePayload)
    ensures var d, e := c.(relayNodeId := None), c.(relayNodeId := Some([]));
            d != e && d.CanonicalBytes() == e.CanonicalBytes()
            && d.ValidPathBinding() != e.ValidPathBinding()
  {
    assert c.(relayNodeId := None).Fields() == c.(relayNodeId := Some([])).Fields();
  }

  // ----- key confirmation

  datatype KeyConfirm = KeyConfirm(
    sessionId: u128,
    deviceId: Bytes,
    role: SessionRole,
    transcriptHash: Bytes32,
    confirmMac: Bytes32,
    timestamp: u64)
  {
    function MacFields(): seq<Field> {
      [StrField("domain", Ascii("rctl-key-confirm-v1")),
       U128Field("session_id", sessionId),
       StrField("device_id", deviceId),
       StrField("role", role.AsStr()),
       StrField("key_exchange_transcript_hash", transcriptHash),
       U64Field("timestamp", timestamp)]
    }

    function CanonicalMacInput(): Result<Bytes, CanonicalError> { Encode(MacFields()) }
  }

  // ----- key derivation context

  datatype KdfContext = KdfContext(
    accountId: Bytes,
    sessionId: u128,
    controllerDeviceId: Bytes,
    controlledDeviceId: Bytes,
    permissionsDigest: Bytes32,
    protocolVersion: u16,
    expiresAt: u64,
    path: TransportPath,
    candidatePairId: u128,
    relayNodeId: Option<Bytes>,
    transcriptHash: Bytes32)
  {
    function SaltFields(): seq<Field> {
      [StrField("domain", Ascii("rctl-hkdf-salt-v1")),
       U128Field("session_id", sessionId),
       StrField("controller_device_id", controllerDeviceId),
       StrField("controlled_device_id", controlledDeviceId),
       StrField("permissions_digest", permissionsDigest),
       U64Field("session_expires_at_epoch_millis", expiresAt)]
    }

    function SaltBytes(): Result<Bytes, CanonicalError> { Encode(SaltFields()) }

    function InfoFields(): seq<Field> {
      [StrField("domain", Ascii("rctl-session-v1")),
       StrField("account_id", accountId),
       U128Field("session_id", sessionId),
       StrField("controller_device_id", controllerDeviceId),
       StrField("controlled_device_id", controlledDeviceId),
       StrField("permissions_digest", permissionsDigest),
       U16Field("protocol_version", protocolVersion),
       U64Field("session_expires_at_epoch_millis", expiresAt),
       StrField("selected_transport_path", path.AsStr()),
       U128Field("selected_candidate_pair_id", candidatePairId),
       OptField("relay_node_id", relayNodeId),
       StrField("key_exchange_transcript_hash", transcriptHash)]
    }

    function InfoBase(): Result<Bytes, CanonicalError> { Encode(InfoFields()) }

    predicate ValidPathBinding() { path.IsRelay() == relayNodeId.Some? }

    /** The part of the context that the session context hash covers. */
    function Context(): SessionContext {
      SessionContext(accountId, sessionId, controllerDeviceId, controlledDeviceId,
                     permissionsDigest, protocolVersion, expiresAt)
    }

    function DeviceFor(role: SessionRole): Bytes {
      match role
      case Controller => controllerDeviceId
      case Controlled => controlledDeviceId
    }
  }

  lemma InfoFromFields(c: KdfContext, d: KdfContext)
    requires c.ValidPathBinding() == d.ValidPathBinding()
    requires c.InfoFields() == d.InfoFields()
    ensures c == d
  {
    var fs, gs := c.InfoFields(), d.InfoFields();
    assert fs[1] == gs[1] && fs[2] == gs[2] && fs[3] == gs[3] && fs[4] == gs[4];
    assert fs[5] == gs[5] && fs[6] == gs[6] && fs[7] == gs[7] && fs[8] == gs[8];
    assert fs[9] == gs[9] && fs[10] == gs[10] && fs[11] == gs[11];
    U128FieldInjective("session_id", c.sessionId, d.sessionId);
    U16FieldInjective("protocol_version", c.protocolVersion, d.protocolVersion);
    U64FieldInjective("session_expires_at_epoch_millis", c.expiresAt, d.expiresAt);
    PathNames(c.path, d.path);
    U128FieldInjective("selected_candidate_pair_id", c.candidatePairId, d.candidatePairId);
    RelayBound(c.path, c.relayNodeId, d.relayNodeId, "relay_node_id");
  }
}
