/** Frame encryption: nonces, authenticated data, and the check-open-record order of decryption. */
module E2ee {
  import opened Bytes
  import opened Header
  import opened Security
  import opened Primitives
  import opened ReplayWindow

  /** Prefix, channel and the low six bytes of the sequence. */
  function BuildNonce(prefix: Bytes4, channel: ChannelId, sequence: u64): (r: Result<Bytes, CryptoError>)
    ensures r.Ok? <==> sequence <= MAX_SECURE_SEQUENCE
    ensures r.Ok? ==> |r.value| == 12
  {
    if sequence > MAX_SECURE_SEQUENCE then Err(SequenceExhausted)
    else Ok(prefix + BigEndian(channel.Code(), 2) + BigEndian(sequence, 8)[2..8])
  }

  function BuildAad(header: MessageHeader, permissionsDigest: Bytes32, direction: TrafficDirection): Bytes {
    EncodeHeader(header) + permissionsDigest + direction.AsStr()
  }

  datatype Frame = Frame(header: MessageHeader, ciphertext: Bytes)

  function EncryptPayload(p: Primitives, key: Bytes32, prefix: Bytes4, permissionsDigest: Bytes32,
                          direction: TrafficDirection, header: MessageHeader, plaintext: Bytes)
    : Result<Frame, CryptoError>
  {
    if !header.ValidKindChannel() then Err(CryptoError.InvalidChannel)
    else if |plaintext| + AUTH_TAG_LEN > U32_MAX then Err(InvalidPayloadLength)
    else
      var sized := header.(payloadLen := |plaintext| + AUTH_TAG_LEN);
      match BuildNonce(prefix, sized.channel, sized.sequence)
      case Err(e) => Err(e)
      case Ok(nonce) =>
        Ok(Frame(sized, p.aeadSeal(key, nonce, BuildAad(sized, permissionsDigest, direction), plaintext)))
  }

  /** What the frame's bytes open to under this key, nonce and authenticated data. */
  function OpenFrame(p: Primitives, key: Bytes32, prefix: Bytes4, permissionsDigest: Bytes32,
                     direction: TrafficDirection, frame: Frame): Option<Bytes>
    requires frame.header.sequence <= MAX_SECURE_SEQUENCE
  {
    p.aeadOpen(key, BuildNonce(prefix, frame.header.channel, frame.header.sequence).value,
               BuildAad(frame.header, permissionsDigest, direction), frame.ciphertext)
  }

  /** The result of decryption and the windows it leaves: recorded only after authentication. */
  function Decrypt(p: Primitives, key: Bytes32, prefix: Bytes4, permissionsDigest: Bytes32,
                   direction: TrafficDirection, frame: Frame, windows: Windows)
    : (Result<Bytes, CryptoError>, Windows)
  {
    var h := frame.header;
    if !h.ValidKindChannel() then (Err(CryptoError.InvalidChannel), windows)
    else if h.payloadLen != |frame.ciphertext| then (Err(InvalidPayloadLength), windows)
    else if GuardCheck(windows, h.channel, h.sequence).Err? then
      (Err(GuardCheck(windows, h.channel, h.sequence).error), windows)
    else
      match OpenFrame(p, key, prefix, permissionsDigest, direction, frame)
      case None => (Err(AuthenticationFailed), windows)
      case Some(plaintext) => (Ok(plaintext), GuardRecord(windows, h.channel, h.sequence))
  }

  method DecryptPayload(p: Primitives, key: Bytes32, prefix: Bytes4, permissionsDigest: Bytes32,
                        direction: TrafficDirection, header: MessageHeader, ciphertext: Bytes,
                        guard: ReplayGuard)
    returns (r: Result<Bytes, CryptoError>)
    modifies guard
    ensures (r, guard.channels)
         == Decrypt(p, key, prefix, permissionsDigest, direction, Frame(header, ciphertext), old(guard.channels))
  {
    if !header.ValidKindChannel() {
      return Err(CryptoError.InvalidChannel);
    }
    if header.payloadLen != |ciphertext| {
      return Err(InvalidPayloadLength);
    }
    var checked := guard.CheckSequence(header.channel, header.sequence);
    if checked.Err? {
      return Err(checked.error);
    }
    var nonce := BuildNonce(prefix, header.channel, header.sequence);
    if nonce.Err? {
      return Err(SequenceExhausted);
    }
    var aad := BuildAad(header, permissionsDigest, direction);
    var plaintext := p.aeadOpen(key, nonce.value, aad, ciphertext);
    if plaintext.None? {
      return Err(AuthenticationFailed);
    }
    guard.RecordSequence(header.channel, header.sequence);
    return Ok(plaintext.value);
  }

  // ----- nonces and authenticated data name their frame

  lemma {:induction false} BigEndianShift(v: nat, n: nat, k: nat)
    requires v < Pow256(n)
    ensures BigEndian(v, n + k)[k..] == BigEndian(v, n)
  {
    if n > 0 {
      BigEndianShift(v / 256, n - 1, k);
    }
  }

  /** The nonce reads back as prefix, channel and sequence, four, two and six bytes wide. */
  lemma NonceReadsBack(prefix: Bytes4, channel: ChannelId, sequence: u64)
    requires sequence <= MAX_SECURE_SEQUENCE
    ensures
      var nonce := BuildNonce(prefix, channel, sequence).value;
      && nonce[..4] == prefix
      && FromBigEndian(nonce[4..6]) == channel.Code()
      && FromBigEndian(nonce[6..12]) == sequence
  {
    PowersOf256();
    BigEndianShift(sequence, 6, 2);
    BigEndianRoundTrip(channel.Code(), 2);
    BigEndianRoundTrip(sequence, 6);
    var nonce := BuildNonce(prefix, channel, sequence).value;
    assert BigEndian(sequence, 8)[2..8] == BigEndian(sequence, 6);
    assert nonce[4..6] == BigEndian(channel.Code(), 2) && nonce[6..12] == BigEndian(sequence, 6);
  }

  /** No two (channel, sequence) pairs share a nonce under one prefix, and the prefix is visible. */
  lemma NonceInjective(prefix: Bytes4, c: ChannelId, q: u64, prefix': Bytes4, c': ChannelId, q': u64)
    requires BuildNonce(prefix, c, q).Ok? && BuildNonce(prefix, c, q) == BuildNonce(prefix', c', q')
    ensures prefix == prefix' && c == c' && q == q'
  {
    PowersOf256();
    BigEndianShift(q, 6, 2);
    BigEndianShift(q', 6, 2);
    var low, low' := BigEndian(q, 6), BigEndian(q', 6);
    assert BigEndian(q, 8)[2..8] == low && BigEndian(q', 8)[2..8] == low';
    SplitEqual(prefix + BigEndian(c.Code(), 2), low, prefix' + BigEndian(c'.Code(), 2), low');
    SplitEqual(prefix, BigEndian(c.Code(), 2), prefix', BigEndian(c'.Code(), 2));
    BigEndianInjective(q, q', 6);
    BigEndianInjective(c.Code(), c'.Code(), 2);
    ChannelCodes(c);
    ChannelCodes(c');
  }

  lemma AadInjective(h: MessageHeader, d: Bytes32, dir: TrafficDirection,
                     h': MessageHeader, d': Bytes32, dir': TrafficDirection)
    requires BuildAad(h, d, dir) == BuildAad(h', d', dir')
    ensures h == h' && d == d' && dir == dir'
  {
    SplitEqual(EncodeHeader(h) + d, dir.AsStr(), EncodeHeader(h') + d', dir'.AsStr());
    SplitEqual(EncodeHeader(h), d, EncodeHeader(h'), d');
    EncodeHeaderInjective(h, h');
    assert Ascii("controller_to_controlled")[9] != Ascii("controlled_to_controller")[9];
  }

  /** Whatever was encrypted decrypts to the same bytes wherever its number is still acceptable. */
  lemma DecryptInvertsEncrypt(p: Primitives, key: Bytes32, prefix: Bytes4, digest: Bytes32,
                              direction: TrafficDirection, header: MessageHeader, plaintext: Bytes,
                              windows: Windows)
    requires OpenInvertsSeal(p)
    requires EncryptPayload(p, key, prefix, digest, direction, header, plaintext).Ok?
    requires GuardCheck(windows, header.channel, header.sequence).Ok?
    ensures var frame := EncryptPayload(p, key, prefix, digest, direction, header, plaintext).value;
            Decrypt(p, key, prefix, digest, direction, frame, windows)
            == (Ok(plaintext), GuardRecord(windows, header.channel, header.sequence))
  {
    var frame := EncryptPayload(p, key, prefix, digest, direction, header, plaintext).value;
    var nonce := BuildNonce(prefix, header.channel, header.sequence).value;
    var aad := BuildAad(frame.header, digest, direction);
    assert p.aeadOpen(key, nonce, aad, p.aeadSeal(key, nonce, aad, plaintext)) == Some(plaintext);
  }

  // ----- which messages are encrypted and which frames decrypt

  /** The authenticated data is the 40 header bytes, the 32 digest bytes and the name of the direction. */
  lemma AadReadsBack(header: MessageHeader, digest: Bytes32, direction: TrafficDirection)
    ensures
      var aad := BuildAad(header, digest, direction);
      && |aad| == 96 && aad[..40] == EncodeHeader(header) && aad[40..72] == digest
      && aad[72..] == if direction == ControllerToControlled then Ascii("controller_to_controlled")
                      else Ascii("controlled_to_controller")
  {
  }

  /** A message is encrypted exactly when its kind may use the channel, its size fits and its number is in range. */
  lemma EncryptsIff(p: Primitives, key: Bytes32, prefix: Bytes4, digest: Bytes32, direction: TrafficDirection,
                    header: MessageHeader, plaintext: Bytes)
    ensures
      var r := EncryptPayload(p, key, prefix, digest, direction, header, plaintext);
      var legal, fits := header.kind.AcceptsChannel(header.channel), |plaintext| + 16 <= 0xffff_ffff;
      && (r.Ok? <==> legal && fits && header.sequence < 0x1_0000_0000_0000)
      && (!legal ==> r == Err(CryptoError.InvalidChannel))
      && (legal && !fits ==> r == Err(InvalidPayloadLength))
      && (legal && fits && header.sequence >= 0x1_0000_0000_0000 ==> r == Err(SequenceExhausted))
      && (r.Ok? ==>
            && r.value.header == header.(payloadLen := |plaintext| + 16)
            && BuildNonce(prefix, header.channel, header.sequence).Ok?
            && r.value.ciphertext
               == p.aeadSeal(key, BuildNonce(prefix, header.channel, header.sequence).value,
                             BuildAad(r.value.header, digest, direction), plaintext))
  {
  }

  /**
   * A frame decrypts exactly when its kind may use the channel, its length is the stated one, its number
   * is acceptable and it opens; it is recorded exactly then.
   */
  lemma DecryptsIff(p: Primitives, key: Bytes32, prefix: Bytes4, digest: Bytes32, direction: TrafficDirection,
                    frame: Frame, windows: Windows)
    ensures
      var h := frame.header;
      var (r, after) := Decrypt(p, key, prefix, digest, direction, frame, windows);
      var legal, sized := h.kind.AcceptsChannel(h.channel), h.payloadLen == |frame.ciphertext|;
      var nonce, checked := BuildNonce(prefix, h.channel, h.sequence), GuardCheck(windows, h.channel, h.sequence);
      var aad := BuildAad(h, digest, direction);
      && (checked.Ok? ==> nonce.Ok?)
      && (r.Ok? <==>
            legal && sized && checked.Ok? && p.aeadOpen(key, nonce.value, aad, frame.ciphertext).Some?)
      && (r.Ok? ==>
            && Some(r.value) == p.aeadOpen(key, nonce.value, aad, frame.ciphertext)
            && after == GuardRecord(windows, h.channel, h.sequence))
      && (r.Err? ==> after == windows)
      && (!legal ==> r == Err(CryptoError.InvalidChannel))
      && (legal && !sized ==> r == Err(InvalidPayloadLength))
      && (legal && sized && checked.Err? ==> r == Err(checked.error))
      && (legal && sized && checked.Ok? && r.Err? ==> r == Err(AuthenticationFailed))
  {
  }
}
