/** The incremental multipart parser: one pass of its loop, the loop, and the object. */
module Multipart {
  import opened Bytes
  import opened ContentLength

  const MAX_MULTIPART_HEADERS := 16 * 1024
  const MAX_BUFFER_OVERHEAD := 64 * 1024
  const MAX_ACCESS_UNIT_BYTES := 32 * 1024 * 1024

  const DASH: byte := 0x2d
  const TERMINATOR: Bytes := [13, 10, 13, 10]

  // ----- search

  ghost predicate OccursAt(haystack: Bytes, needle: Bytes, i: nat) {
    i + |needle| <= |haystack| && haystack[i..i + |needle|] == needle
  }

  /** `find_bytes` (its callers' needles are never empty). */
  function FindBytes(haystack: Bytes, needle: Bytes): (r: Option<nat>)
    requires needle != []
    ensures r.Some? ==> r.value + |needle| <= |haystack|
  {
    if |haystack| < |needle| then None
    else if haystack[..|needle|] == needle then Some(0)
    else
      var rest := FindBytes(haystack[1..], needle);
      if rest.None? then None else Some(rest.value + 1)
  }

  ghost predicate IsFirst(haystack: Bytes, needle: Bytes, r: Option<nat>) {
    && (r.Some? ==> OccursAt(haystack, needle, r.value))
    && (forall j: nat :: (r.Some? ==> j < r.value) ==> !OccursAt(haystack, needle, j))
  }

  /** `find_bytes` returns the first occurrence, and nothing only when there is none. */
  lemma {:induction false} FindIsFirst(haystack: Bytes, needle: Bytes, r: Option<nat>)
    requires needle != []
    ensures FindBytes(haystack, needle) == r <==> IsFirst(haystack, needle, r)
    decreases |haystack|
  {
    FoundIsFirst(haystack, needle);
    var found := FindBytes(haystack, needle);
    if IsFirst(haystack, needle, r) {
      if r.Some? { assert OccursAt(haystack, needle, r.value); }
      if found.Some? { assert OccursAt(haystack, needle, found.value); }
    }
  }

  lemma {:induction false} FoundIsFirst(haystack: Bytes, needle: Bytes)
    requires needle != []
    ensures IsFirst(haystack, needle, FindBytes(haystack, needle))
    decreases |haystack|
  {
    if |needle| <= |haystack| && haystack[..|needle|] != needle {
      FoundIsFirst(haystack[1..], needle);
      forall j: nat | 0 < j
        ensures OccursAt(haystack, needle, j) == OccursAt(haystack[1..], needle, j - 1)
      {
      }
      var r := FindBytes(haystack, needle);
      forall j: nat | r.Some? ==> j < r.value
        ensures !OccursAt(haystack, needle, j)
      {
        if 0 < j {
          assert OccursAt(haystack, needle, j) == OccursAt(haystack[1..], needle, j - 1);
        }
      }
    }
  }

  /** The bytes from `i` on start with this pair. */
  predicate PairAt(v: Bytes, i: nat, first: byte, second: byte) {
    i + 2 <= |v| && v[i] == first && v[i + 1] == second
  }

  // ----- one pass of the loop

  /**
   * A parser's fixed part. The loop works on any reader of header blocks; the program's
   * is `parse_content_length`.
   */
  datatype Settings = Settings(delimiter: Bytes, maximum: nat, lengthOf: Bytes -> Result<nat, MultipartError>)
  {
    /** The delimiter is two dashes and an alphanumeric boundary; the maximum is in range. */
    ghost predicate Valid() {
      && |delimiter| > 2 && PairAt(delimiter, 0, DASH, DASH)
      && (forall i :: 2 <= i < |delimiter| ==> IsAlphanumeric(delimiter[i]))
      && 0 < maximum <= MAX_ACCESS_UNIT_BYTES
    }

    ghost predicate ReadsContentLength() {
      forall headers {:trigger ParseContentLength(headers)} :: lengthOf(headers) == ParseContentLength(headers)
    }
  }

  datatype Step =
    | NeedMore(buffer: Bytes)
    | Close
    | Unit(body: Bytes, rest: Bytes)
    | Fail(error: MultipartError, failed: Bytes)

  /** `retain_boundary_suffix`: all that could still be the start of a delimiter. */
  function RetainSuffix(s: Settings, buffer: Bytes): Bytes
    requires s.Valid()
  {
    var keep := |s.delimiter| - 1;
    if |buffer| > keep then buffer[|buffer| - keep..] else buffer
  }

  function SkipCrLf(buffer: Bytes): Bytes {
    if PairAt(buffer, 0, CR, LF) then buffer[2..] else buffer
  }

  /** The bytes after a header block's terminator, once the length the block states is known. */
  function AtBody(s: Settings, buffer: Bytes, area: Bytes, length: Result<nat, MultipartError>): Step {
    if length.Err? then Fail(length.error, buffer)
    else if length.value == 0 then Fail(EmptyAccessUnit, buffer)
    else if length.value > s.maximum then Fail(AccessUnitTooLarge(length.value, s.maximum), buffer)
    else if |area| < length.value then NeedMore(buffer)
    else Unit(area[..length.value], SkipCrLf(area[length.value..]))
  }

  /** The bytes after the delimiter's line. */
  function AtHeaders(s: Settings, buffer: Bytes, block: Bytes): Step {
    match FindBytes(block, TERMINATOR)
    case None => if |buffer| > MAX_MULTIPART_HEADERS then Fail(HeadersTooLarge, buffer) else NeedMore(buffer)
    case Some(k) => AtBody(s, buffer, block[k + 4..], s.lengthOf(block[..k]))
  }

  /** The bytes after a delimiter; `buffer` is the same bytes with the delimiter. */
  function AtDelimiter(s: Settings, buffer: Bytes, tail: Bytes): Step {
    if |tail| < 2 then NeedMore(buffer)
    else if PairAt(tail, 0, DASH, DASH) then Close
    else if !PairAt(tail, 0, CR, LF) then Fail(MalformedBoundary, buffer)
    else AtHeaders(s, buffer, tail[2..])
  }

  function Next(s: Settings, buffer: Bytes): (r: Step)
    requires s.Valid()
    ensures r.Unit? ==> |r.rest| < |buffer|
  {
    match FindBytes(buffer, s.delimiter)
    case None => NeedMore(RetainSuffix(s, buffer))
    case Some(i) => AtDelimiter(s, buffer[i..], buffer[i..][|s.delimiter|..])
  }

  // ----- the loop

  datatype Status = Pending(buffer: Bytes) | Closed | Failed(error: MultipartError, failed: Bytes)

  datatype Drained = Drained(units: seq<Bytes>, status: Status)

  /** Everything the loop takes out of a buffer, and how it stops. */
  function Drain(s: Settings, buffer: Bytes): Drained
    requires s.Valid()
    decreases |buffer|
  {
    match Next(s, buffer)
    case NeedMore(rest) => Drained([], Pending(rest))
    case Close => Drained([], Closed)
    case Fail(e, rest) => Drained([], Failed(e, rest))
    case Unit(body, rest) =>
      var d := Drain(s, rest);
      Drained([body] + d.units, d.status)
  }

  /** The buffer a stop leaves behind. */
  function Left(status: Status): Bytes {
    match status
    case Pending(b) => b
    case Closed => []
    case Failed(_, b) => b
  }

  /** The limit a push puts on its input; an empty input is always taken. */
  predicate TooMuch(s: Settings, buffer: Bytes, input: Bytes) {
    |buffer| + |input| > s.maximum + MAX_BUFFER_OVERHEAD && |input| > 0
  }

  /** One `push`: the limit on the buffer, then the loop. */
  function PushStep(s: Settings, buffer: Bytes, input: Bytes): (Bytes, Result<seq<Bytes>, MultipartError>)
    requires s.Valid()
  {
    if TooMuch(s, buffer, input) then (buffer, Err(BufferTooLarge))
    else
      var d := Drain(s, buffer + input);
      (Left(d.status), Taken(d))
  }

  class MultipartAccessUnitParser {
    const settings: Settings
    var buffer: Bytes

    constructor (settings: Settings)
      ensures this.settings == settings && buffer == []
    {
      this.settings := settings;
      buffer := [];
    }

    /** One pass of the loop, draining the buffer in place. */
    method OnePass() returns (r: Step)
      requires settings.Valid() && settings.ReadsContentLength()
      modifies this
      ensures r == Next(settings, old(buffer))
      ensures buffer == BufferAfter(r)
    {
      var found := FindBytes(buffer, settings.delimiter);
      if found.None? {
        buffer := RetainSuffix(settings, buffer);
        return NeedMore(buffer);
      }
      if found.value > 0 {
        buffer := buffer[found.value..];
      }
      r := PassAtDelimiter();
    }

    method PassAtDelimiter() returns (r: Step)
      requires settings.Valid() && settings.ReadsContentLength() && |settings.delimiter| <= |buffer|
      modifies this
      ensures r == AtDelimiter(settings, old(buffer), old(buffer)[|settings.delimiter|..])
      ensures buffer == BufferAfter(r)
    {
      var end := |settings.delimiter|;
      ghost var tail := buffer[end..];
      if |buffer| < end + 2 {
        return NeedMore(buffer);
      }
      if PairAt(buffer, end, DASH, DASH) {
        buffer := [];
        return Close;
      }
      if !PairAt(buffer, end, CR, LF) {
        return Fail(MalformedBoundary, buffer);
      }
      DropTwice(buffer, end, 2);
      r := PassAtHeaders(end + 2);
    }

    method ReadLength(headers: Bytes) returns (r: Result<nat, MultipartError>)
      requires settings.ReadsContentLength()
      ensures r == settings.lengthOf(headers)
    {
      r := ReadContentLength(headers);
    }

    method PassAtHeaders(headersStart: nat) returns (r: Step)
      requires settings.ReadsContentLength() && headersStart <= |buffer|
      modifies this
      ensures r == AtHeaders(settings, old(buffer), old(buffer)[headersStart..])
      ensures buffer == BufferAfter(r)
    {
      var terminator := FindBytes(buffer[headersStart..], TERMINATOR);
      if terminator.None? {
        if |buffer| > MAX_MULTIPART_HEADERS {
          return Fail(HeadersTooLarge, buffer);
        }
        return NeedMore(buffer);
      }
      var headersEnd := headersStart + terminator.value;
      var contentLength := ReadLength(buffer[headersStart..headersEnd]);
      ghost var block := buffer[headersStart..];
      assert buffer[headersStart..headersEnd] == block[..terminator.value];
      DropTwice(buffer, headersStart, terminator.value + 4);
      r := TakeBody(headersEnd + 4, contentLength);
    }

    method TakeBody(bodyStart: nat, contentLength: Result<nat, MultipartError>) returns (r: Step)
      requires bodyStart <= |buffer|
      modifies this
      ensures r == AtBody(settings, old(buffer), old(buffer)[bodyStart..], contentLength)
      ensures buffer == BufferAfter(r)
    {
      if contentLength.Err? {
        return Fail(contentLength.error, buffer);
      }
      if contentLength.value == 0 {
        return Fail(EmptyAccessUnit, buffer);
      }
      if contentLength.value > settings.maximum {
        return Fail(AccessUnitTooLarge(contentLength.value, settings.maximum), buffer);
      }
      var bodyEnd := bodyStart + contentLength.value;
      if |buffer| < bodyEnd {
        return NeedMore(buffer);
      }
      var body := buffer[bodyStart..bodyEnd];
      assert body == buffer[bodyStart..][..contentLength.value];
      DropTwice(buffer, bodyStart, contentLength.value);
      buffer := buffer[bodyEnd..];
      if PairAt(buffer, 0, CR, LF) {
        buffer := buffer[2..];
      }
      return Unit(body, buffer);
    }

    method Push(input: Bytes) returns (r: Result<seq<Bytes>, MultipartError>)
      requires settings.Valid() && settings.ReadsContentLength()
      modifies this
      ensures (buffer, r) == PushStep(settings, old(buffer), input)
    {
      var maxBuffer := settings.maximum + MAX_BUFFER_OVERHEAD;
      var room := if maxBuffer > |buffer| then maxBuffer - |buffer| else 0;
      if |input| > room {
        return Err(BufferTooLarge);
      }
      buffer := buffer + input;
      r := DrainBuffer();
    }

    /** The loop: whole access units leave the buffer one by one. */
    method DrainBuffer() returns (r: Result<seq<Bytes>, MultipartError>)
      requires settings.Valid() && settings.ReadsContentLength()
      modifies this
      ensures buffer == Left(Drain(settings, old(buffer)).status)
      ensures r == Taken(Drain(settings, old(buffer)))
    {
      var units: seq<Bytes> := [];
      assert units + Drain(settings, buffer).units == Drain(settings, buffer).units;
      while true
        invariant Drain(settings, old(buffer)) == After(units, Drain(settings, buffer))
        decreases |buffer|
      {
        ghost var before := buffer;
        var step := OnePass();
        DrainOnce(settings, units, before);
        if step.Fail? {
          return Err(step.error);
        }
        if !step.Unit? {
          return Ok(units);
        }
        units := units + [step.body];
      }
    }
  }

  /** What a drain returns to the caller. */
  function Taken(d: Drained): Result<seq<Bytes>, MultipartError> {
    if d.status.Failed? then Err(d.status.error) else Ok(d.units)
  }

  function After(units: seq<Bytes>, d: Drained): Drained {
    Drained(units + d.units, d.status)
  }

  lemma DrainOnce(s: Settings, units: seq<Bytes>, buffer: Bytes)
    requires s.Valid()
    ensures
      var step := Next(s, buffer);
      var d := After(units, Drain(s, buffer));
      match step
      case NeedMore(b) => d == Drained(units, Pending(b))
      case Close => d == Drained(units, Closed)
      case Fail(e, b) => d == Drained(units, Failed(e, b))
      case Unit(body, rest) => d == After(units + [body], Drain(s, rest))
  {
    assert units + [] == units;
    var step := Next(s, buffer);
    if step.Unit? {
      Assoc(units, [step.body], Drain(s, step.rest).units);
    }
  }

  /** The buffer after a pass. */
  function BufferAfter(step: Step): Bytes {
    match step
    case NeedMore(b) => b
    case Close => []
    case Unit(_, rest) => rest
    case Fail(_, b) => b
  }

  /** `MultipartAccessUnitParser::new`: the boundary must be alphanumeric and the maximum in range. */
  method NewParser(boundary: Bytes, maximum: nat) returns (r: Result<MultipartAccessUnitParser, MultipartError>)
    ensures boundary == [] || (exists i :: 0 <= i < |boundary| && !IsAlphanumeric(boundary[i])) ==>
      r == Err(InvalidBoundary)
    ensures r.Ok? ==>
      && r.value.settings == Settings([DASH, DASH] + boundary, maximum, ParseContentLength)
      && r.value.settings.Valid() && r.value.settings.ReadsContentLength() && fresh(r.value) && r.value.buffer == []
    ensures r.Ok? <==>
      && boundary != [] && (forall i :: 0 <= i < |boundary| ==> IsAlphanumeric(boundary[i]))
      && 1 <= maximum <= 33_554_432
    ensures boundary != [] && (forall i :: 0 <= i < |boundary| ==> IsAlphanumeric(boundary[i])) && r.Err? ==>
      r == Err(InvalidMaximum)
  {
    if boundary == [] || exists i :: 0 <= i < |boundary| && !IsAlphanumeric(boundary[i]) {
      return Err(InvalidBoundary);
    }
    if maximum == 0 || maximum > MAX_ACCESS_UNIT_BYTES {
      return Err(InvalidMaximum);
    }
    var delimiter := [DASH, DASH];
    delimiter := delimiter + boundary;
    assert forall i :: 2 <= i < |delimiter| ==> delimiter[i] == boundary[i - 2];
    var parser := new MultipartAccessUnitParser(Settings(delimiter, maximum, ParseContentLength));
    return Ok(parser);
  }

  // ----- what one pass makes of a buffer, piece by piece

  /** Without a delimiter, all but the last bytes that could begin one are dropped. */
  lemma PassWithoutDelimiter(s: Settings, buffer: Bytes)
    requires s.Valid() && IsFirst(buffer, s.delimiter, None)
    ensures
      var kept := Next(s, buffer);
      && kept.NeedMore?
      && (|buffer| < |s.delimiter| ==> kept.buffer == buffer)
      && (|buffer| >= |s.delimiter| ==> kept.buffer == buffer[|buffer| + 1 - |s.delimiter|..])
  {
    FindIsFirst(buffer, s.delimiter, None);
  }

  /** At the first delimiter: wait for two bytes, close on two dashes, and refuse all but a line break. */
  lemma PassAtDelimiter(s: Settings, before: Bytes, tail: Bytes)
    requires s.Valid() && IsFirst(before + s.delimiter + tail, s.delimiter, Some(|before|))
    ensures
      var step, held := Next(s, before + s.delimiter + tail), s.delimiter + tail;
      && (|tail| < 2 ==> step == NeedMore(held))
      && ([0x2d, 0x2d] <= tail ==> step == Close)
      && (|tail| >= 2 && !([0x2d, 0x2d] <= tail) && !([13, 10] <= tail) ==> step == Fail(MalformedBoundary, held))
      && ([13, 10] <= tail ==> step == AtHeaders(s, held, tail[2..]))
  {
    var buffer := before + s.delimiter + tail;
    FindIsFirst(buffer, s.delimiter, Some(|before|));
    assert buffer[|before|..] == s.delimiter + tail;
    assert (s.delimiter + tail)[|s.delimiter|..] == tail;
  }

  /** After the line break: wait for the blank line, with at most 16384 bytes held. */
  lemma PassWithoutHeaders(s: Settings, before: Bytes, block: Bytes)
    requires s.Valid() && IsFirst(before + s.delimiter + ([13, 10] + block), s.delimiter, Some(|before|))
    requires IsFirst(block, [13, 10, 13, 10], None)
    ensures
      var held := s.delimiter + ([13, 10] + block);
      Next(s, before + held) == if |held| > 16384 then Fail(HeadersTooLarge, held) else NeedMore(held)
  {
    var tail := [13, 10] + block;
    PassAtDelimiter(s, before, tail);
    FindIsFirst(block, TERMINATOR, None);
    Assoc(before, s.delimiter, tail);
    assert tail[2..] == block;
  }

  lemma HeadersThenBody(s: Settings, held: Bytes, headers: Bytes, area: Bytes)
    requires IsFirst(headers + [13, 10, 13, 10] + area, [13, 10, 13, 10], Some(|headers|))
    ensures AtHeaders(s, held, headers + [13, 10, 13, 10] + area) == AtBody(s, held, area, s.lengthOf(headers))
  {
    var block := headers + [13, 10, 13, 10] + area;
    FindIsFirst(block, TERMINATOR, Some(|headers|));
    assert block[..|headers|] == headers && block[|headers| + 4..] == area;
  }

  lemma BodyAfterHeaders(s: Settings, held: Bytes, area: Bytes, length: Result<nat, MultipartError>)
    ensures AtBody(s, held, area, length)
         == match length
            case Err(e) => Fail(e, held)
            case Ok(n) =>
              if n == 0 then Fail(EmptyAccessUnit, held)
              else if n > s.maximum then Fail(AccessUnitTooLarge(n, s.maximum), held)
              else if |area| < n then NeedMore(held)
              else Unit(area[..n], if [13, 10] <= area[n..] then area[n + 2..] else area[n..])
  {
    if length.Ok? && length.value + 2 <= |area| {
      DropTwice(area, length.value, 2);
    }
  }

  /**
   * After the blank line: the header block's error, or a length that must be positive and at most the
   * maximum; then the body once it is there, without the line break that may follow it.
   */
  lemma PassWithHeaders(s: Settings, before: Bytes, headers: Bytes, area: Bytes)
    requires s.Valid()
    requires var block := headers + [13, 10, 13, 10] + area;
             && IsFirst(before + s.delimiter + ([13, 10] + block), s.delimiter, Some(|before|))
             && IsFirst(block, [13, 10, 13, 10], Some(|headers|))
    ensures
      var held := s.delimiter + ([13, 10] + (headers + [13, 10, 13, 10] + area));
      Next(s, before + held)
      == match s.lengthOf(headers)
         case Err(e) => Fail(e, held)
         case Ok(n) =>
           if n == 0 then Fail(EmptyAccessUnit, held)
           else if n > s.maximum then Fail(AccessUnitTooLarge(n, s.maximum), held)
           else if |area| < n then NeedMore(held)
           else Unit(area[..n], if [13, 10] <= area[n..] then area[n + 2..] else area[n..])
  {
    var block := headers + [13, 10, 13, 10] + area;
    var tail := [13, 10] + block;
    var held := s.delimiter + tail;
    assert Next(s, before + held) == AtHeaders(s, held, block) by {
      PassAtDelimiter(s, before, tail);
      Assoc(before, s.delimiter, tail);
      assert tail[2..] == block;
    }
    HeadersThenBody(s, held, headers, area);
    BodyAfterHeaders(s, held, area, s.lengthOf(headers));
  }

  /**
   * A push is refused, with the buffer as it was, exactly when a non-empty input would grow the buffer past
   * the maximum and 65536 bytes; otherwise it returns the units of the drain, or its error.
   */
  lemma PushIff(s: Settings, buffer: Bytes, input: Bytes)
    requires s.Valid()
    ensures
      var push := PushStep(s, buffer, input);
      if input != [] && |buffer| + |input| > s.maximum + 65536 then push == (buffer, Err(BufferTooLarge))
      else
        match Drain(s, buffer + input)
        case Drained(units, Pending(rest)) => push == (rest, Ok(units))
        case Drained(units, Closed) => push == ([], Ok(units))
        case Drained(_, Failed(e, rest)) => push == (rest, Err(e))
  {
  }
}
