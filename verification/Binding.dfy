/** Candidate identifiers, token bindings and candidate authorization. */
module Binding {
  import opened Bytes
  import opened Canonical
  import opened Security
  import opened Primitives

  const CANDIDATE_TOKEN_MAX_TTL_MILLIS := 60_000

  /** The errors a candidate or probe check can return. */
  datatype BindingError =
    | CanonicalEncoding
    | CandidateIdMismatch
    | InvalidCandidateKindSource
    | InvalidRelayNodeBinding
    | TokenMismatch
    | TokenBindingMismatch
    | TokenExpired
    | TokenTtlExceeded
    | ProbeRoleMismatch
    | ProbeReplay

  datatype CandidateSource = LocalInterface | UdpObserved | RelayAllocated
  {
    function AsStr(): Bytes {
      match this
      case LocalInterface => Ascii("local_interface")
      case UdpObserved => Ascii("udp_observed")
      case RelayAllocated => Ascii("relay_allocated")
    }
  }

  /** The identity of a connection candidate; its measurements (priority, rtt, loss, jitter) are bound by nothing. */
  datatype Candidate = Candidate(
    candidateId: u128,
    sessionId: u128,
    deviceId: Bytes,
    role: SessionRole,
    kind: TransportPath,
    endpoint: Bytes,
    source: CandidateSource,
    observeResultId: Option<Bytes>,
    relayNodeId: Option<Bytes>)
  {
    function IdFields(): seq<Field> {
      [StrField("domain", Ascii("rctl-candidate-id-v1")),
       U128Field("session_id", sessionId),
       StrField("device_id", deviceId),
       StrField("role", role.AsStr()),
       StrField("kind", kind.AsStr()),
       StrField("endpoint", endpoint),
       StrField("source", source.AsStr()),
       OptField("relay_node_id", relayNodeId)]
    }

    function BindingFields(expiresAt: u64): seq<Field> {
      [StrField("domain", Ascii("rctl-candidate-token-binding-v1")),
       U128Field("session_id", sessionId),
       StrField("device_id", deviceId),
       StrField("role", role.AsStr()),
       U128Field("candidate_id", candidateId),
       StrField("kind", kind.AsStr()),
       StrField("endpoint", endpoint),
       StrField("source", source.AsStr()),
       OptField("observe_result_id", observeResultId),
       U64Field("expires_at_epoch_millis", expiresAt)]
    }
  }

  lemma SourceNames(a: CandidateSource, b: CandidateSource)
    requires a.AsStr() == b.AsStr()
    ensures a == b
  {
    assert |Ascii("local_interface")| == |Ascii("relay_allocated")|;
    assert Ascii("local_interface")[0] != Ascii("relay_allocated")[0];
  }

  // ----- shape

  predicate KindFitsSource(kind: TransportPath, source: CandidateSource) {
    match kind
    case LanDirect => source == LocalInterface
    case UdpP2p => source == UdpObserved
    case QuicRelay => source == RelayAllocated
    case Tls443Relay => source == RelayAllocated
  }

  function CheckShape(c: Candidate): (r: Result<(), BindingError>)
    ensures r.Ok? ==> c.kind.IsRelay() == c.relayNodeId.Some?
    ensures r.Ok? ==> (c.source == UdpObserved) == c.observeResultId.Some?
  {
    if !KindFitsSource(c.kind, c.source) then Err(InvalidCandidateKindSource)
    else if c.kind.IsRelay() != c.relayNodeId.Some? then Err(InvalidRelayNodeBinding)
    else if (c.source == UdpObserved) != c.observeResultId.Some? then Err(InvalidCandidateKindSource)
    else Ok(())
  }

  // ----- identifiers and bindings

  /** The first sixteen bytes of a digest, read as a big-endian number. */
  function DigestPrefix(digest: Bytes32): u128 {
    FromBigEndianRoundTrip(digest[..16]);
    PowersOf256();
    FromBigEndian(digest[..16])
  }

  function CandidateId(p: Primitives, c: Candidate): (r: Result<u128, BindingError>)
    ensures r.Ok? ==> CheckShape(c).Ok? && AllFit(c.IdFields())
    ensures r.Ok? ==> r.value == DigestPrefix(p.sha256(EncodeFields(c.IdFields())))
  {
    match CheckShape(c)
    case Err(e) => Err(e)
    case Ok(_) =>
      match Encode(c.IdFields())
      case Err(_) => Err(BindingError.CanonicalEncoding)
      case Ok(bytes) => Ok(DigestPrefix(p.sha256(bytes)))
  }

  function TokenBindingHash(p: Primitives, c: Candidate, expiresAt: u64): (r: Result<Bytes32, BindingError>)
    ensures r.Ok? ==> CandidateId(p, c) == Ok(c.candidateId) && AllFit(c.BindingFields(expiresAt))
    ensures r.Ok? ==> r.value == p.sha256(EncodeFields(c.BindingFields(expiresAt)))
  {
    match CandidateId(p, c)
    case Err(e) => Err(e)
    case Ok(id) =>
      if id != c.candidateId then Err(CandidateIdMismatch)
      else
        match Encode(c.BindingFields(expiresAt))
        case Err(_) => Err(BindingError.CanonicalEncoding)
        case Ok(bytes) => Ok(p.sha256(bytes))
  }

  lemma BoundFields(c: Candidate, d: Candidate, e: u64, f: u64)
    requires CheckShape(c).Ok? && CheckShape(d).Ok?
    requires c.BindingFields(e) == d.BindingFields(f)
    ensures e == f && c == d.(relayNodeId := c.relayNodeId)
  {
    var fs, gs := c.BindingFields(e), d.BindingFields(f);
    assert fs[1] == gs[1] && fs[2] == gs[2] && fs[3] == gs[3] && fs[4] == gs[4] && fs[5] == gs[5];
    assert fs[6] == gs[6] && fs[7] == gs[7] && fs[8] == gs[8] && fs[9] == gs[9];
    U128FieldInjective("session_id", c.sessionId, d.sessionId);
    RoleNames(c.role, d.role);
    U128FieldInjective("candidate_id", c.candidateId, d.candidateId);
    PathNames(c.kind, d.kind);
    SourceNames(c.source, d.source);
    U64FieldInjective("expires_at_epoch_millis", e, f);
  }

  lemma IdCoversRelay(c: Candidate, d: Candidate)
    requires CheckShape(c).Ok? && CheckShape(d).Ok? && c.kind == d.kind
    requires c.IdFields() == d.IdFields()
    ensures c.relayNodeId == d.relayNodeId
  {
    assert c.IdFields()[7] == d.IdFields()[7];
    RelayBound(c.kind, c.relayNodeId, d.relayNodeId, "relay_node_id");
  }

  /** Two different messages whose digests share their first sixteen bytes. */
  ghost predicate PrefixCollision(p: Primitives, x: Bytes, y: Bytes) {
    x != y && DigestPrefix(p.sha256(x)) == DigestPrefix(p.sha256(y))
  }

  /**
   * One binding hash covers one candidate and one expiry, the relay node included through the
   * identifier: serving two needs a SHA-256 collision, whole or on sixteen bytes.
   */
  lemma BindingCoversCandidate(p: Primitives, c: Candidate, d: Candidate, e: u64, f: u64)
    requires TokenBindingHash(p, c, e).Ok? && TokenBindingHash(p, c, e) == TokenBindingHash(p, d, f)
    ensures
      || (c == d && e == f)
      || Collision(p, EncodeFields(c.BindingFields(e)), EncodeFields(d.BindingFields(f)))
      || PrefixCollision(p, EncodeFields(c.IdFields()), EncodeFields(d.IdFields()))
  {
    if EncodeFields(c.BindingFields(e)) == EncodeFields(d.BindingFields(f)) {
      FieldsUnique(c.BindingFields(e), d.BindingFields(f));
      BoundFields(c, d, e, f);
      if EncodeFields(c.IdFields()) == EncodeFields(d.IdFields()) {
        FieldsUnique(c.IdFields(), d.IdFields());
        IdCoversRelay(c, d);
      }
    }
  }

  // ----- authorization

  datatype Authorization = Authorization(token: Bytes, bindingHash: Bytes32, expiresAt: u64)

  function CheckAuthorization(p: Primitives, c: Candidate, a: Authorization, now: u64)
    : (r: Result<(), BindingError>)
    ensures r.Ok? <==>
      && now <= a.expiresAt <= now + CANDIDATE_TOKEN_MAX_TTL_MILLIS
      && TokenBindingHash(p, c, a.expiresAt) == Ok(a.bindingHash) && a.token != []
  {
    if now > a.expiresAt then Err(TokenExpired)
    else if a.expiresAt - now > CANDIDATE_TOKEN_MAX_TTL_MILLIS then Err(TokenTtlExceeded)
    else
      match TokenBindingHash(p, c, a.expiresAt)
      case Err(e) => Err(e)
      case Ok(expected) =>
        if expected != a.bindingHash then Err(TokenBindingMismatch)
        else if a.token == [] then Err(TokenMismatch)
        else Ok(())
  }

  // ----- each check, and exactly when it passes

  /** A candidate of one of the four kinds, with the source, relay node and observation that kind has. */
  lemma ShapeIff(c: Candidate)
    ensures CheckShape(c).Ok? <==>
      || (c.kind == LanDirect && c.source == LocalInterface && c.relayNodeId.None? && c.observeResultId.None?)
      || (c.kind == UdpP2p && c.source == UdpObserved && c.relayNodeId.None? && c.observeResultId.Some?)
      || (c.kind == QuicRelay && c.source == RelayAllocated && c.relayNodeId.Some? && c.observeResultId.None?)
      || (c.kind == Tls443Relay && c.source == RelayAllocated && c.relayNodeId.Some? && c.observeResultId.None?)
    ensures CheckShape(c).Err? ==>
      CheckShape(c).error
      == if KindFitsSource(c.kind, c.source) && ((c.kind == QuicRelay || c.kind == Tls443Relay) != c.relayNodeId.Some?)
         then InvalidRelayNodeBinding else InvalidCandidateKindSource
  {
  }

  predicate Short(value: Option<Bytes>) { value.None? || |value.value| <= U32_MAX }

  lemma IdFieldsFitIff(c: Candidate)
    ensures AllFit(c.IdFields()) <==> |c.deviceId| <= U32_MAX && |c.endpoint| <= U32_MAX && Short(c.relayNodeId)
  {
    var fs := c.IdFields();
    if AllFit(fs) {
      assert Fits(fs[2]) && Fits(fs[5]) && Fits(fs[7]);
    }
  }

  lemma BindingFieldsFitIff(c: Candidate, expiresAt: u64)
    ensures AllFit(c.BindingFields(expiresAt)) <==>
      |c.deviceId| <= U32_MAX && |c.endpoint| <= U32_MAX && Short(c.observeResultId)
  {
    var fs := c.BindingFields(expiresAt);
    if AllFit(fs) {
      assert Fits(fs[2]) && Fits(fs[6]) && Fits(fs[8]);
    }
  }

  /** A candidate has an identifier exactly when it has a shape and its texts can be encoded. */
  lemma IdentifiesIff(p: Primitives, c: Candidate)
    ensures CandidateId(p, c).Ok? <==>
      CheckShape(c).Ok? && |c.deviceId| <= U32_MAX && |c.endpoint| <= U32_MAX && Short(c.relayNodeId)
    ensures CandidateId(p, c).Err? ==>
      CandidateId(p, c).error == if CheckShape(c).Err? then CheckShape(c).error else BindingError.CanonicalEncoding
  {
    IdFieldsFitIff(c);
  }

  /** One identifier belongs to one identity: sharing it needs a collision on sixteen bytes. */
  lemma IdCoversCandidate(p: Primitives, c: Candidate, d: Candidate)
    requires CandidateId(p, c).Ok? && CandidateId(p, c) == CandidateId(p, d)
    ensures
      || c == d.(candidateId := c.candidateId, observeResultId := c.observeResultId)
      || PrefixCollision(p, EncodeFields(c.IdFields()), EncodeFields(d.IdFields()))
  {
    if EncodeFields(c.IdFields()) == EncodeFields(d.IdFields()) {
      var fs, gs := c.IdFields(), d.IdFields();
      FieldsUnique(fs, gs);
      assert fs[1] == gs[1] && fs[2] == gs[2] && fs[3] == gs[3] && fs[4] == gs[4] && fs[5] == gs[5] && fs[6] == gs[6];
      U128FieldInjective("session_id", c.sessionId, d.sessionId);
      RoleNames(c.role, d.role);
      PathNames(c.kind, d.kind);
      SourceNames(c.source, d.source);
      IdCoversRelay(c, d);
    }
  }

  /** A candidate is bound exactly when it carries its own identifier and its observation can be encoded. */
  lemma BindsIff(p: Primitives, c: Candidate, expiresAt: u64)
    ensures
      var r := TokenBindingHash(p, c, expiresAt);
      && (r.Ok? <==> CandidateId(p, c) == Ok(c.candidateId) && Short(c.observeResultId))
      && (CandidateId(p, c).Err? ==> r == Err(CandidateId(p, c).error))
      && (CandidateId(p, c).Ok? && CandidateId(p, c).value != c.candidateId ==> r == Err(CandidateIdMismatch))
      && (CandidateId(p, c) == Ok(c.candidateId) && !Short(c.observeResultId) ==>
            r == Err(BindingError.CanonicalEncoding))
  {
    IdentifiesIff(p, c);
    BindingFieldsFitIff(c, expiresAt);
  }

  /**
   * An authorization holds exactly until it expires, at most a minute ahead, for the candidate it was
   * bound to, with a token; the refusals come in that order.
   */
  lemma AuthorizesIff(p: Primitives, c: Candidate, a: Authorization, now: u64)
    ensures
      var r, bound := CheckAuthorization(p, c, a, now), TokenBindingHash(p, c, a.expiresAt);
      var current := now <= a.expiresAt <= now + 60_000;
      && (r.Ok? <==> current && bound == Ok(a.bindingHash) && a.token != [])
      && (now > a.expiresAt ==> r == Err(TokenExpired))
      && (a.expiresAt > now + 60_000 ==> r == Err(TokenTtlExceeded))
      && (current && bound.Err? ==> r == Err(bound.error))
      && (current && bound.Ok? && bound.value != a.bindingHash ==> r == Err(TokenBindingMismatch))
      && (current && bound == Ok(a.bindingHash) && a.token == [] ==> r == Err(TokenMismatch))
  {
  }
}
