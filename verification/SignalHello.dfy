/** The hello exchange of the signal client: the challenge, the signed response and what it makes the client expect. */
module SignalHello {
  import opened Bytes
  import opened Canonical
  import opened Header
  import opened Security

  datatype SignalError =
    | InvalidTransition
    | InvalidChallenge
    | HelloMismatch
    | Canonical
    | InvalidUrl
    | InvalidHeader
    | UpgradeRejected(status: u16)
    | Transport
    | TimedOut
    | ConnectionClosed
    | InvalidServerMessage
    | AuthenticationRejected
    | Cancelled
    | NotificationQueueFull
    | NotificationReceiverUnavailable
    | OutboundQueueFull
    | InvalidSessionMessage

  datatype HelloChallenge = HelloChallenge(
    accountId: Bytes,
    protocolVersion: u16,
    serverNonce: Bytes,
    expiresAt: u64,
    serverVersions: seq<u16>)

  datatype HelloResponse = HelloResponse(
    accountId: Bytes,
    deviceId: Bytes,
    clientNonce: Bytes,
    timestamp: u64,
    versions: seq<u16>,
    minVersion: u16,
    publicKeyId: Bytes,
    publicKeyVersion: u32,
    versionsHash: Bytes,
    capabilities: Bytes,
    capabilitiesHash: Bytes,
    signature: Bytes)

  datatype HelloOk = HelloOk(
    accountId: Bytes,
    deviceId: Bytes,
    protocolVersion: u16,
    connectionId: Bytes,
    versionsHash: Bytes,
    capabilitiesHash: Bytes,
    serverVersions: seq<u16>)

  /**
   * What the caller brings to a challenge. Base64, SHA-256, the signing key and the canonical JSON of
   * the capabilities, or its failure, come from code outside this model. The state machine works with
   * any way to `respond`; the program's is `Respond` below.
   */
  datatype Client = Client(
    accountId: Bytes,
    deviceId: Bytes,
    identityDeviceId: Bytes,
    publicKeyId: Bytes,
    publicKeyVersion: u32,
    capabilities: Bytes,
    capabilitiesJson: Option<Bytes>,
    decode: Bytes -> Option<Bytes>,
    encode: Bytes -> Bytes,
    sha256: Bytes -> Bytes32,
    sign: Bytes -> Bytes,
    respond: (HelloChallenge, u64, Bytes32) -> Result<HelloResponse, SignalError>)
  {
    ghost predicate RespondsAsSpecified() {
      forall c, now, nonce {:trigger Respond(c, this, now, nonce)} ::
        ChallengeFits(c, this, now) ==> respond(c, now, nonce) == Respond(c, this, now, nonce)
    }

    /** The server's nonce, if it decodes to 32 bytes. */
    function ServerNonce(c: HelloChallenge): Option<Bytes32> {
      match decode(c.serverNonce)
      case None => None
      case Some(nonce) => if |nonce| == 32 then Some(nonce) else None
    }
  }

  predicate ChallengeFits(c: HelloChallenge, client: Client, now: u64) {
    && c.accountId == client.accountId
    && c.protocolVersion == PROTOCOL_VERSION
    && 0 < |c.serverVersions| <= 16 && PROTOCOL_VERSION in c.serverVersions
    && c.expiresAt > now
    && client.identityDeviceId == client.deviceId
    && client.ServerNonce(c).Some?
  }

  // ----- the response

  function HexDigit(n: nat): byte
    requires n < 16
  {
    if n < 10 then 0x30 + n else 0x61 + n - 10
  }

  /** Two lower-case digits for every byte. */
  function Hex(v: Bytes): (r: Bytes)
    ensures |r| == 2 * |v|
  {
    if v == [] then [] else [HexDigit(v[0] / 16), HexDigit(v[0] % 16)] + Hex(v[1..])
  }

  lemma {:induction false} HexInjective(v: Bytes, w: Bytes)
    requires Hex(v) == Hex(w)
    ensures v == w
  {
    if v != [] {
      assert Hex(v)[0] == Hex(w)[0] && Hex(v)[1] == Hex(w)[1];
      assert Hex(v)[2..] == Hex(v[1..]) && Hex(w)[2..] == Hex(w[1..]);
      HexInjective(v[1..], w[1..]);
      assert v == [v[0]] + v[1..] && w == [w[0]] + w[1..];
    }
  }

  function VersionsFields(): seq<Field> {
    [StrField("domain", Ascii("rctl-protocol-versions-v1")),
     StrField("client_supported_protocol_versions", BigEndian(PROTOCOL_VERSION, 2)),
     U16Field("client_min_protocol_version", PROTOCOL_VERSION)]
  }

  function CapabilitiesFields(json: Bytes): seq<Field> {
    [StrField("domain", Ascii("rctl-client-capabilities-v1")), StrField("client_capabilities", json)]
  }

  /** What a hello signature is made over. */
  datatype HelloInput = HelloInput(
    serverNonce: Bytes32,
    clientNonce: Bytes32,
    accountId: Bytes,
    deviceId: Bytes,
    protocolVersion: u16,
    timestamp: u64,
    versionsHash: Bytes32,
    capabilitiesHash: Bytes32)
  {
    function Fields(): seq<Field> {
      [StrField("domain", Ascii("rctl-ws-hello-v1")),
       StrField("server_nonce", serverNonce),
       StrField("client_nonce", clientNonce),
       StrField("account_id", accountId),
       StrField("device_id", deviceId),
       U16Field("protocol_version", protocolVersion),
       U64Field("timestamp", timestamp),
       StrField("client_supported_protocol_versions_hash", versionsHash),
       StrField("client_capabilities_hash", capabilitiesHash)]
    }

    function CanonicalBytes(): Result<Bytes, CanonicalError> { Encode(Fields()) }
  }

  /** One signature input belongs to one pair of nonces, account, device, version, time and pair of hashes. */
  lemma HelloInputInjective(a: HelloInput, b: HelloInput)
    requires a.CanonicalBytes().Ok? && a.CanonicalBytes() == b.CanonicalBytes()
    ensures a == b
  {
    var fs, gs := a.Fields(), b.Fields();
    FieldsUnique(fs, gs);
    assert fs[1] == gs[1] && fs[2] == gs[2] && fs[3] == gs[3] && fs[4] == gs[4];
    assert fs[5] == gs[5] && fs[6] == gs[6] && fs[7] == gs[7] && fs[8] == gs[8];
    U16FieldInjective("protocol_version", a.protocolVersion, b.protocolVersion);
    U64FieldInjective("timestamp", a.timestamp, b.timestamp);
  }

  function VersionsHash(client: Client): Bytes32 { client.sha256(EncodeFields(VersionsFields())) }

  function CapabilitiesHash(client: Client): Result<Bytes32, SignalError> {
    if client.capabilitiesJson.None? then Err(SignalError.Canonical)
    else
      match Encode(CapabilitiesFields(client.capabilitiesJson.value))
      case Err(_) => Err(SignalError.Canonical)
      case Ok(bytes) => Ok(client.sha256(bytes))
  }

  function InputFor(c: HelloChallenge, client: Client, now: u64, nonce: Bytes32, capabilitiesHash: Bytes32): HelloInput
    requires client.ServerNonce(c).Some?
  {
    HelloInput(client.ServerNonce(c).value, nonce, client.accountId, client.deviceId, c.protocolVersion, now,
               VersionsHash(client), capabilitiesHash)
  }

  /** The signed response to a fitting challenge, with a fresh client nonce. */
  function Respond(c: HelloChallenge, client: Client, now: u64, nonce: Bytes32): Result<HelloResponse, SignalError>
    requires ChallengeFits(c, client, now)
  {
    match CapabilitiesHash(client)
    case Err(e) => Err(e)
    case Ok(capabilitiesHash) =>
      match InputFor(c, client, now, nonce, capabilitiesHash).CanonicalBytes()
      case Err(_) => Err(SignalError.Canonical)
      case Ok(canonical) =>
        Ok(HelloResponse(client.accountId, client.deviceId, client.encode(nonce), now, [PROTOCOL_VERSION],
                         PROTOCOL_VERSION, client.publicKeyId, client.publicKeyVersion, Hex(VersionsHash(client)),
                         client.capabilities, Hex(capabilitiesHash), client.encode(client.sign(canonical))))
  }

  /** The client as the program has it. */
  function AsProgram(client: Client): Client {
    client.(respond := (c: HelloChallenge, now: u64, nonce: Bytes32) =>
      if ChallengeFits(c, client, now) then Respond(c, client, now, nonce) else Err(InvalidChallenge))
  }

  lemma ProgramResponds(client: Client)
    ensures AsProgram(client).RespondsAsSpecified()
  {
    forall c, now, nonce | ChallengeFits(c, AsProgram(client), now)
      ensures AsProgram(client).respond(c, now, nonce) == Respond(c, AsProgram(client), now, nonce)
    {
      assert ChallengeFits(c, client, now);
    }
  }

  /** The fitting challenge at `now` can be answered. */
  predicate Answerable(c: HelloChallenge, client: Client, now: u64, nonce: Bytes32) {
    ChallengeFits(c, client, now) && client.respond(c, now, nonce).Ok?
  }

  /** What the client waits for after a response, and what an answer must repeat. */
  datatype ExpectedHello = ExpectedHello(
    accountId: Bytes,
    deviceId: Bytes,
    protocolVersion: u16,
    versionsHash: Bytes,
    capabilitiesHash: Bytes,
    serverVersions: seq<u16>)

  function Expect(c: HelloChallenge, client: Client, response: HelloResponse): ExpectedHello {
    ExpectedHello(client.accountId, client.deviceId, c.protocolVersion,
                  response.versionsHash, response.capabilitiesHash, c.serverVersions)
  }

  predicate Matches(e: ExpectedHello, hello: HelloOk) {
    && e.accountId == hello.accountId
    && e.deviceId == hello.deviceId
    && e.protocolVersion == hello.protocolVersion
    && e.versionsHash == hello.versionsHash
    && e.capabilitiesHash == hello.capabilitiesHash
    && e.serverVersions == hello.serverVersions
    && hello.connectionId != []
  }

  /**
   * A response signs exactly its challenge: its signature is over an input that carries the server's
   * nonce, the response's own identity, time and hashes; the response fails only for its encodings.
   */
  lemma ResponseSignsChallenge(c: HelloChallenge, client: Client, now: u64, nonce: Bytes32)
    requires ChallengeFits(c, client, now)
    ensures Respond(c, client, now, nonce).Err? ==> Respond(c, client, now, nonce).error == SignalError.Canonical
    ensures Respond(c, client, now, nonce).Ok? ==>
      var r := Respond(c, client, now, nonce).value;
      exists input: HelloInput ::
        && input.CanonicalBytes().Ok? && r.signature == client.encode(client.sign(input.CanonicalBytes().value))
        && Some(input.serverNonce) == client.ServerNonce(c) && r.clientNonce == client.encode(input.clientNonce)
        && input.accountId == r.accountId == c.accountId && input.deviceId == r.deviceId == client.identityDeviceId
        && input.protocolVersion == c.protocolVersion == r.minVersion && r.versions == [r.minVersion]
        && input.timestamp == r.timestamp == now < c.expiresAt
        && r.versionsHash == Hex(input.versionsHash) && r.capabilitiesHash == Hex(input.capabilitiesHash)
  {
    if Respond(c, client, now, nonce).Ok? {
      var input := InputFor(c, client, now, nonce, CapabilitiesHash(client).value);
      assert input.CanonicalBytes().Ok?;
    }
  }

  /**
   * A hello matches what the program expects exactly when it repeats its hashes and the challenge, with
   * a connection.
   */
  lemma MatchesIff(c: HelloChallenge, client: Client, now: u64, nonce: Bytes32, hello: HelloOk)
    requires client.RespondsAsSpecified() && Answerable(c, client, now, nonce)
    ensures
      Matches(Expect(c, client, client.respond(c, now, nonce).value), hello) <==>
      && hello.accountId == c.accountId && hello.deviceId == client.deviceId
      && hello.protocolVersion == PROTOCOL_VERSION && hello.serverVersions == c.serverVersions
      && hello.versionsHash == Hex(VersionsHash(client)) && hello.connectionId != []
      && CapabilitiesHash(client).Ok? && hello.capabilitiesHash == Hex(CapabilitiesHash(client).value)
  {
    assert Respond(c, client, now, nonce).Ok?;
  }

  // ----- exactly which challenges fit, and what answers them

  /** A challenge for this account and device, in version 1, among at most sixteen, not expired, with a nonce. */
  lemma FitsIff(c: HelloChallenge, client: Client, now: u64)
    ensures ChallengeFits(c, client, now) <==>
      && c.accountId == client.accountId && client.identityDeviceId == client.deviceId
      && c.protocolVersion == 1 && 1 in c.serverVersions && 1 <= |c.serverVersions| <= 16
      && now < c.expiresAt && client.decode(c.serverNonce).Some? && |client.decode(c.serverNonce).value| == 32
  {
  }

  /** A fitting challenge is answered exactly when the capabilities and the names can be encoded. */
  lemma RespondsIff(c: HelloChallenge, client: Client, now: u64, nonce: Bytes32)
    requires ChallengeFits(c, client, now)
    ensures
      var r := Respond(c, client, now, nonce);
      && (r.Ok? <==>
            && client.capabilitiesJson.Some? && |client.capabilitiesJson.value| <= U32_MAX
            && |client.accountId| <= U32_MAX && |client.deviceId| <= U32_MAX)
      && (r.Ok? ==>
            && r.value.versions == [1] && r.value.minVersion == 1 && r.value.capabilities == client.capabilities
            && r.value.publicKeyId == client.publicKeyId && r.value.publicKeyVersion == client.publicKeyVersion)
  {
    if client.capabilitiesJson.Some? {
      CapabilitiesFit(client.capabilitiesJson.value);
      if CapabilitiesHash(client).Ok? {
        InputFits(InputFor(c, client, now, nonce, CapabilitiesHash(client).value));
      }
    }
  }

  lemma CapabilitiesFit(json: Bytes)
    ensures AllFit(CapabilitiesFields(json)) <==> |json| <= U32_MAX
  {
    if AllFit(CapabilitiesFields(json)) {
      assert Fits(CapabilitiesFields(json)[1]);
    }
  }

  lemma InputFits(input: HelloInput)
    ensures AllFit(input.Fields()) <==> |input.accountId| <= U32_MAX && |input.deviceId| <= U32_MAX
  {
    var fs := input.Fields();
    if AllFit(fs) {
      assert Fits(fs[3]) && Fits(fs[4]);
    }
  }

  /** Two lower-case digits, the high one first. */
  lemma {:induction false} HexDigits(v: Bytes, i: nat)
    requires i < |v|
    ensures Hex(v)[2 * i] as char == "0123456789abcdef"[v[i] / 16]
    ensures Hex(v)[2 * i + 1] as char == "0123456789abcdef"[v[i] % 16]
  {
    if i > 0 {
      HexDigits(v[1..], i - 1);
      assert Hex(v)[2 * i] == Hex(v[1..])[2 * i - 2] && Hex(v)[2 * i + 1] == Hex(v[1..])[2 * i - 1];
    }
  }
}
