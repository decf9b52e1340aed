/** The frozen 40-byte message header: kinds, channels and the wire codec. */
module Header {
  import opened Bytes

  const HEADER_LEN := 40
  const PROTOCOL_VERSION: u16 := 1
  const MAX_SECURE_SEQUENCE: u64 := 0xffff_ffff_ffff
  const CHANNEL_COUNT := 9

  datatype ChannelId =
    | SecureControl
    | InputReliable
    | InputRealtime
    | MediaControl
    | Video
    | Clipboard
    | FileTransfer
    | DeviceControl
    | Telemetry
  {
    function Code(): (r: u16)
      ensures r < CHANNEL_COUNT
    {
      match this
      case SecureControl => 0
      case InputReliable => 1
      case InputRealtime => 2
      case MediaControl => 3
      case Video => 4
      case Clipboard => 5
      case FileTransfer => 6
      case DeviceControl => 7
      case Telemetry => 8
    }
  }

  function ChannelFromCode(value: u16): Option<ChannelId> {
    match value
    case 0 => Some(SecureControl)
    case 1 => Some(InputReliable)
    case 2 => Some(InputRealtime)
    case 3 => Some(MediaControl)
    case 4 => Some(Video)
    case 5 => Some(Clipboard)
    case 6 => Some(FileTransfer)
    case 7 => Some(DeviceControl)
    case 8 => Some(Telemetry)
    case _ => None
  }

  datatype MessageKind =
    | KeyExchangeMessage
    | KeyConfirm
    | MediaCapabilities
    | MediaConfigRequest
    | MediaConfigState
    | MediaQualityRequest
    | MediaQualityState
    | KeyframeRequest
    | VideoFrameInfo
    | VideoFrameData
    | InputEvent
    | ClipboardPermissionRequest
    | ClipboardPermissionState
    | ClipboardText
    | DisplayList
    | DisplaySelect
    | DisplayChanged
    | FileTransferRequest
    | FileTransferAck
    | FileChunk
    | FileTransferCancel
    | PrivacyModeRequest
    | PrivacyModeState
    | PrivacyModeRestore
    | RebootRequest
    | RebootState
    | RebootCancel
    | RebootResumeHint
    | Stats
    | ErrorReport
  {
    function Code(): u16 {
      match this
      case KeyExchangeMessage => 0x0001
      case KeyConfirm => 0x0002
      case MediaCapabilities => 0x0100
      case MediaConfigRequest => 0x0101
      case MediaConfigState => 0x0102
      case MediaQualityRequest => 0x0103
      case MediaQualityState => 0x0104
      case KeyframeRequest => 0x0105
      case VideoFrameInfo => 0x0110
      case VideoFrameData => 0x0111
      case InputEvent => 0x0200
      case ClipboardPermissionRequest => 0x0300
      case ClipboardPermissionState => 0x0301
      case ClipboardText => 0x0302
      case DisplayList => 0x0400
      case DisplaySelect => 0x0401
      case DisplayChanged => 0x0402
      case FileTransferRequest => 0x0500
      case FileTransferAck => 0x0501
      case FileChunk => 0x0502
      case FileTransferCancel => 0x0503
      case PrivacyModeRequest => 0x0600
      case PrivacyModeState => 0x0601
      case PrivacyModeRestore => 0x0602
      case RebootRequest => 0x0700
      case RebootState => 0x0701
      case RebootCancel => 0x0702
      case RebootResumeHint => 0x0703
      case Stats => 0x0800
      case ErrorReport => 0xffff
    }

    function DefaultChannel(): ChannelId {
      match this
      case KeyExchangeMessage | KeyConfirm | ErrorReport => SecureControl
      case MediaCapabilities | MediaConfigRequest | MediaConfigState
         | MediaQualityRequest | MediaQualityState | KeyframeRequest => MediaControl
      case VideoFrameInfo | VideoFrameData => Video
      case InputEvent => InputReliable
      case ClipboardPermissionRequest | ClipboardPermissionState | ClipboardText => Clipboard
      case FileTransferRequest | FileTransferAck | FileChunk | FileTransferCancel => FileTransfer
      case DisplayList | DisplaySelect | DisplayChanged
         | PrivacyModeRequest | PrivacyModeState | PrivacyModeRestore
         | RebootRequest | RebootState | RebootCancel | RebootResumeHint => DeviceControl
      case Stats => Telemetry
    }

    predicate AcceptsChannel(channel: ChannelId) {
      if InputEvent? then channel == InputReliable || channel == InputRealtime
      else DefaultChannel().Code() == channel.Code()
    }
  }

  function KindFromCode(value: u16): Option<MessageKind> {
    match value
    case 0x0001 => Some(KeyExchangeMessage)
    case 0x0002 => Some(KeyConfirm)
    case 0x0100 => Some(MediaCapabilities)
    case 0x0101 => Some(MediaConfigRequest)
    case 0x0102 => Some(MediaConfigState)
    case 0x0103 => Some(MediaQualityRequest)
    case 0x0104 => Some(MediaQualityState)
    case 0x0105 => Some(KeyframeRequest)
    case 0x0110 => Some(VideoFrameInfo)
    case 0x0111 => Some(VideoFrameData)
    case 0x0200 => Some(InputEvent)
    case 0x0300 => Some(ClipboardPermissionRequest)
    case 0x0301 => Some(ClipboardPermissionState)
    case 0x0302 => Some(ClipboardText)
    case 0x0400 => Some(DisplayList)
    case 0x0401 => Some(DisplaySelect)
    case 0x0402 => Some(DisplayChanged)
    case 0x0500 => Some(FileTransferRequest)
    case 0x0501 => Some(FileTransferAck)
    case 0x0502 => Some(FileChunk)
    case 0x0503 => Some(FileTransferCancel)
    case 0x0600 => Some(PrivacyModeRequest)
    case 0x0601 => Some(PrivacyModeState)
    case 0x0602 => Some(PrivacyModeRestore)
    case 0x0700 => Some(RebootRequest)
    case 0x0701 => Some(RebootState)
    case 0x0702 => Some(RebootCancel)
    case 0x0703 => Some(RebootResumeHint)
    case 0x0800 => Some(Stats)
    case 0xffff => Some(ErrorReport)
    case _ => None
  }

  lemma ChannelCodes(c: ChannelId)
    ensures ChannelFromCode(c.Code()) == Some(c)
  {
  }

  lemma ChannelDecodes(value: u16)
    ensures ChannelFromCode(value).Some? ==> ChannelFromCode(value).value.Code() == value
  {
  }

  lemma KindCodes(k: MessageKind)
    ensures KindFromCode(k.Code()) == Some(k)
  {
  }

  lemma KindDecodes(value: u16)
    ensures KindFromCode(value).Some? ==> KindFromCode(value).value.Code() == value
  {
  }

  /** The codes on the wire: channels. */
  lemma ChannelWireCodes()
    ensures SecureControl.Code() == 0 && InputReliable.Code() == 1 && InputRealtime.Code() == 2
    ensures MediaControl.Code() == 3 && Video.Code() == 4 && Clipboard.Code() == 5
    ensures FileTransfer.Code() == 6 && DeviceControl.Code() == 7 && Telemetry.Code() == 8
  {
  }

  /** The codes on the wire: session, media and input kinds. */
  lemma MediaWireCodes()
    ensures KeyExchangeMessage.Code() == 0x0001 && KeyConfirm.Code() == 0x0002 && ErrorReport.Code() == 0xffff
    ensures MediaCapabilities.Code() == 0x0100 && MediaConfigRequest.Code() == 0x0101
    ensures MediaConfigState.Code() == 0x0102 && MediaQualityRequest.Code() == 0x0103
    ensures MediaQualityState.Code() == 0x0104 && KeyframeRequest.Code() == 0x0105
    ensures VideoFrameInfo.Code() == 0x0110 && VideoFrameData.Code() == 0x0111 && InputEvent.Code() == 0x0200
  {
  }

  /** The codes on the wire: clipboard, display and file kinds. */
  lemma ContentWireCodes()
    ensures ClipboardPermissionRequest.Code() == 0x0300 && ClipboardPermissionState.Code() == 0x0301
    ensures ClipboardText.Code() == 0x0302 && DisplayList.Code() == 0x0400
    ensures DisplaySelect.Code() == 0x0401 && DisplayChanged.Code() == 0x0402
    ensures FileTransferRequest.Code() == 0x0500 && FileTransferAck.Code() == 0x0501
    ensures FileChunk.Code() == 0x0502 && FileTransferCancel.Code() == 0x0503
  {
  }

  /** The codes on the wire: privacy, reboot and statistics kinds. */
  lemma DeviceWireCodes()
    ensures PrivacyModeRequest.Code() == 0x0600 && PrivacyModeState.Code() == 0x0601
    ensures PrivacyModeRestore.Code() == 0x0602 && RebootRequest.Code() == 0x0700
    ensures RebootState.Code() == 0x0701 && RebootCancel.Code() == 0x0702
    ensures RebootResumeHint.Code() == 0x0703 && Stats.Code() == 0x0800
  {
  }

  /** Exactly these codes are kinds, and exactly the first nine numbers are channels. */
  lemma KnownCodes(value: u16)
    ensures KindFromCode(value).Some? <==>
      || 0x0001 <= value <= 0x0002 || 0x0100 <= value <= 0x0105 || 0x0110 <= value <= 0x0111 || value == 0x0200
      || 0x0300 <= value <= 0x0302 || 0x0400 <= value <= 0x0402 || 0x0500 <= value <= 0x0503
      || 0x0600 <= value <= 0x0602 || 0x0700 <= value <= 0x0703 || value == 0x0800 || value == 0xffff
    ensures ChannelFromCode(value).Some? <==> value <= 8
  {
  }

  /** The channels of a kind go by the group of its code; input alone has two. */
  lemma ChannelsOfGroups(kind: MessageKind, channel: ChannelId)
    ensures kind.AcceptsChannel(channel) <==>
      var code, c := kind.Code(), channel.Code();
      if code < 0x0100 || code == 0xffff then c == 0
      else if code < 0x0110 then c == 3
      else if code < 0x0200 then c == 4
      else if code < 0x0300 then c == 1 || c == 2
      else if code < 0x0400 then c == 5
      else if 0x0500 <= code < 0x0600 then c == 6
      else if code < 0x0800 then c == 7
      else c == 8
  {
    ChannelCodes(channel);
  }

  datatype ProtocolError =
    | InvalidMagic
    | IncompleteHeader
    | UnsupportedVersion(version: u16)
    | UnknownMessageKind(kindCode: u16)
    | UnknownChannel(channelCode: u16)
    | InvalidChannel(kind: MessageKind, channel: ChannelId)

  datatype MessageHeader = MessageHeader(
    version: u16,
    kind: MessageKind,
    flags: u16,
    channel: ChannelId,
    sessionId: u128,
    sequence: u64,
    payloadLen: u32)
  {
    predicate ValidKindChannel() {
      kind.AcceptsChannel(channel)
    }
  }

  const MAGIC := [0x52, 0x43, 0x54, 0x4c] // "RCTL"

  function EncodeHeader(h: MessageHeader): (r: Bytes)
    ensures |r| == HEADER_LEN
  {
    MAGIC
    + BigEndian(h.version, 2)
    + BigEndian(h.kind.Code(), 2)
    + BigEndian(h.flags, 2)
    + BigEndian(h.channel.Code(), 2)
    + BigEndian(h.sessionId, 16)
    + BigEndian(h.sequence, 8)
    + BigEndian(h.payloadLen, 4)
  }

  /** An unsigned field of the input, read big-endian. */
  function ReadAt(input: Bytes, lo: nat, hi: nat): (r: nat)
    requires lo <= hi <= |input|
    ensures r < Pow256(hi - lo)
  {
    FromBigEndianRoundTrip(input[lo..hi]);
    FromBigEndian(input[lo..hi])
  }

  function DecodeHeader(input: Bytes): Result<MessageHeader, ProtocolError> {
    if |input| < HEADER_LEN then Err(IncompleteHeader)
    else if input[0..4] != MAGIC then Err(InvalidMagic)
    else
      PowersOf256();
      var version := ReadAt(input, 4, 6);
      if version != PROTOCOL_VERSION then Err(UnsupportedVersion(version))
      else
        match KindFromCode(ReadAt(input, 6, 8))
        case None => Err(UnknownMessageKind(ReadAt(input, 6, 8)))
        case Some(kind) =>
          match ChannelFromCode(ReadAt(input, 10, 12))
          case None => Err(UnknownChannel(ReadAt(input, 10, 12)))
          case Some(channel) =>
            if !kind.AcceptsChannel(channel) then Err(InvalidChannel(kind, channel))
            else Ok(MessageHeader(version, kind, ReadAt(input, 8, 10), channel,
                                  ReadAt(input, 12, 28), ReadAt(input, 28, 36), ReadAt(input, 36, 40)))
  }

  // ----- the codec is a bijection between legal headers and accepted 40-byte prefixes

  /** The eight slices of an encoded header, whatever follows it. */
  lemma EncodedSlices(h: MessageHeader, input: Bytes)
    requires |input| >= HEADER_LEN
    ensures input[..HEADER_LEN] == EncodeHeader(h) <==>
      && input[0..4] == MAGIC
      && input[4..6] == BigEndian(h.version, 2)
      && input[6..8] == BigEndian(h.kind.Code(), 2)
      && input[8..10] == BigEndian(h.flags, 2)
      && input[10..12] == BigEndian(h.channel.Code(), 2)
      && input[12..28] == BigEndian(h.sessionId, 16)
      && input[28..36] == BigEndian(h.sequence, 8)
      && input[36..40] == BigEndian(h.payloadLen, 4)
  {
    var e := EncodeHeader(h);
    assert e[0..4] == MAGIC && e[4..6] == BigEndian(h.version, 2) && e[6..8] == BigEndian(h.kind.Code(), 2);
    assert e[8..10] == BigEndian(h.flags, 2) && e[10..12] == BigEndian(h.channel.Code(), 2);
    assert e[12..28] == BigEndian(h.sessionId, 16) && e[28..36] == BigEndian(h.sequence, 8);
    assert e[36..40] == BigEndian(h.payloadLen, 4);
    var p := input[..HEADER_LEN];
    assert p == p[0..4] + p[4..6] + p[6..8] + p[8..10] + p[10..12] + p[12..28] + p[28..36] + p[36..40];
    assert p[0..4] == input[0..4] && p[4..6] == input[4..6] && p[6..8] == input[6..8];
    assert p[8..10] == input[8..10] && p[10..12] == input[10..12] && p[12..28] == input[12..28];
    assert p[28..36] == input[28..36] && p[36..40] == input[36..40];
  }

  /** Decoding what was encoded gives it back, with any payload behind it. */
  lemma DecodeInvertsEncode(h: MessageHeader, payload: Bytes)
    requires h.version == PROTOCOL_VERSION && h.ValidKindChannel()
    ensures DecodeHeader(EncodeHeader(h) + payload) == Ok(h)
  {
    var input := EncodeHeader(h) + payload;
    assert input[..HEADER_LEN] == EncodeHeader(h);
    EncodedSlices(h, input);
    PowersOf256();
    ChannelCodes(h.channel);
    KindCodes(h.kind);
    BigEndianRoundTrip(h.version, 2);
    BigEndianRoundTrip(h.kind.Code(), 2);
    BigEndianRoundTrip(h.flags, 2);
    BigEndianRoundTrip(h.channel.Code(), 2);
    BigEndianRoundTrip(h.sessionId, 16);
    BigEndianRoundTrip(h.sequence, 8);
    BigEndianRoundTrip(h.payloadLen, 4);
  }

  /** Only encodings of legal current-version headers are accepted. */
  lemma EncodeInvertsDecode(input: Bytes)
    requires DecodeHeader(input).Ok?
    ensures |input| >= HEADER_LEN
    ensures var h := DecodeHeader(input).value;
            h.version == PROTOCOL_VERSION && h.ValidKindChannel() && EncodeHeader(h) == input[..HEADER_LEN]
  {
    var h := DecodeHeader(input).value;
    PowersOf256();
    ChannelDecodes(ReadAt(input, 10, 12));
    KindDecodes(ReadAt(input, 6, 8));
    FromBigEndianRoundTrip(input[4..6]);
    FromBigEndianRoundTrip(input[6..8]);
    FromBigEndianRoundTrip(input[8..10]);
    FromBigEndianRoundTrip(input[10..12]);
    FromBigEndianRoundTrip(input[12..28]);
    FromBigEndianRoundTrip(input[28..36]);
    FromBigEndianRoundTrip(input[36..40]);
    EncodedSlices(h, input);
  }

  /** Headers of any version are told apart by their bytes: what the authenticated data relies on. */
  lemma EncodeHeaderInjective(h: MessageHeader, g: MessageHeader)
    requires EncodeHeader(h) == EncodeHeader(g)
    ensures h == g
  {
    var e := EncodeHeader(h);
    assert e[..HEADER_LEN] == e;
    EncodedSlices(h, e);
    EncodedSlices(g, e);
    PowersOf256();
    ChannelCodes(h.channel);
    ChannelCodes(g.channel);
    KindCodes(h.kind);
    KindCodes(g.kind);
    BigEndianInjective(h.version, g.version, 2);
    BigEndianInjective(h.kind.Code(), g.kind.Code(), 2);
    BigEndianInjective(h.flags, g.flags, 2);
    BigEndianInjective(h.channel.Code(), g.channel.Code(), 2);
    BigEndianInjective(h.sessionId, g.sessionId, 16);
    BigEndianInjective(h.sequence, g.sequence, 8);
    BigEndianInjective(h.payloadLen, g.payloadLen, 4);
  }

  function U16At(input: Bytes, i: nat): u16
    requires i + 2 <= |input|
  {
    (input[i] as int) * 256 + input[i + 1] as int
  }

  lemma U16AtIsRead(input: Bytes, i: nat)
    requires i + 2 <= |input|
    ensures ReadAt(input, i, i + 2) == U16At(input, i)
  {
    var pair := input[i..i + 2];
    assert FromBigEndian(pair[..1]) == pair[0] by { assert pair[..1][..0] == []; }
  }

  /** Which inputs are accepted, and why the others are not, in the order in which it is found. */
  lemma DecodesIff(input: Bytes)
    ensures |input| < 40 <==> DecodeHeader(input) == Err(IncompleteHeader)
    ensures |input| >= 40 && input[..4] != [0x52, 0x43, 0x54, 0x4c] ==> DecodeHeader(input) == Err(InvalidMagic)
    ensures |input| >= 40 && input[..4] == [0x52, 0x43, 0x54, 0x4c] ==>
      var version, code, channelCode := U16At(input, 4), U16At(input, 6), U16At(input, 10);
      var kind, channel := KindFromCode(code), ChannelFromCode(channelCode);
      var legal := kind.Some? && channel.Some? && kind.value.AcceptsChannel(channel.value);
      && DecodeHeader(input).Ok? == (version == 1 && legal)
      && (version != 1 ==> DecodeHeader(input) == Err(UnsupportedVersion(version)))
      && (version == 1 && kind.None? ==> DecodeHeader(input) == Err(UnknownMessageKind(code)))
      && (version == 1 && kind.Some? && channel.None? ==> DecodeHeader(input) == Err(UnknownChannel(channelCode)))
  {
    if |input| >= 40 {
      assert input[0..4] == input[..4];
      U16AtIsRead(input, 4);
      U16AtIsRead(input, 6);
      U16AtIsRead(input, 10);
    }
  }
}
