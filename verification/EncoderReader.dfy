/** The encoder's reader thread: bounded reads pushed into the parser. */
module EncoderReader {
  import opened Bytes
  import opened ContentLength
  import opened Multipart
  import opened MultipartStreams
  import opened MultipartRuns
  import opened MultipartPrinter

  const READ_SIZE := 8192

  /** "--rctl" */
  const RCTL_DELIMITER: Bytes := [0x2d, 0x2d, 0x72, 0x63, 0x74, 0x6c]

  function ReaderSettings(maximum: nat): Settings { Settings(RCTL_DELIMITER, maximum, ParseContentLength) }

  lemma ReaderSettingsValid(maximum: nat)
    requires 0 < maximum <= MAX_ACCESS_UNIT_BYTES
    ensures ReaderSettings(maximum).Valid() && ReaderSettings(maximum).ReadsContentLength()
  {
  }

  // ----- what a waiting buffer can be

  /** A buffer that waits for a body: `k` is the length of its header block, `length` the length it states. */
  ghost predicate Located(s: Settings, b: Bytes, k: nat, length: nat) {
    && |s.delimiter| + 2 <= |b| && s.delimiter != [] && FindBytes(b, s.delimiter) == Some(0)
    && PairAt(b[|s.delimiter|..], 0, CR, LF)
    && WaitsForBody(s, b[|s.delimiter|..][2..], k, length)
  }

  ghost predicate WaitsForBody(s: Settings, block: Bytes, k: nat, length: nat) {
    && FindBytes(block, TERMINATOR) == Some(k) && s.lengthOf(block[..k]) == Ok(length)
    && 0 < length <= s.maximum && |block| - (k + 4) < length
  }

  /** Short, or waiting for a body behind a head no longer than a short buffer and one read. */
  ghost predicate Bounded(s: Settings, b: Bytes) {
    || |b| <= MAX_MULTIPART_HEADERS
    || exists k, length :: Located(s, b, k, length)
         && |s.delimiter| + 2 + k + 4 <= MAX_MULTIPART_HEADERS + READ_SIZE
  }

  /** Between pushes the buffer stays below the maximum and 24576 bytes. */
  lemma BoundedIsSmall(s: Settings, b: Bytes)
    requires s.Valid() && Bounded(s, b)
    ensures |b| < s.maximum + 24576
  {
  }

  lemma FoundIsAtFront(s: Settings, b: Bytes, i: nat)
    requires s.Valid() && FindBytes(b, s.delimiter) == Some(i)
    ensures FindBytes(b[i..], s.delimiter) == Some(0)
  {
    FoundIsFirst(b, s.delimiter);
    assert b[i..][..|s.delimiter|] == b[i..i + |s.delimiter|];
  }

  lemma LongWaitIsLocated(s: Settings, r: Bytes)
    requires s.Valid() && |s.delimiter| + 2 <= MAX_MULTIPART_HEADERS < |r| <= MAX_MULTIPART_HEADERS + READ_SIZE
    requires FindBytes(r, s.delimiter) == Some(0) && AtDelimiter(s, r, r[|s.delimiter|..]).NeedMore?
    ensures Bounded(s, r)
  {
    var tail := r[|s.delimiter|..];
    var block := tail[2..];
    assert PairAt(tail, 0, CR, LF);
    var k, length := LongBlockWaits(s, r, block);
    assert Located(s, r, k, length);
  }

  lemma LongBlockWaits(s: Settings, r: Bytes, block: Bytes) returns (k: nat, length: nat)
    requires |r| > MAX_MULTIPART_HEADERS && AtHeaders(s, r, block).NeedMore?
    ensures WaitsForBody(s, block, k, length) && k + 4 <= |block|
  {
    k := FindBytes(block, TERMINATOR).value;
    length := s.lengthOf(block[..k]).value;
  }

  lemma WaitKeepsBuffer(s: Settings, r: Bytes, tail: Bytes)
    requires AtDelimiter(s, r, tail).NeedMore?
    ensures AtDelimiter(s, r, tail).buffer == r
  {
  }

  lemma WaitingIsBounded(s: Settings, b: Bytes)
    requires s.Valid() && |s.delimiter| + 2 <= MAX_MULTIPART_HEADERS
    requires |b| <= MAX_MULTIPART_HEADERS + READ_SIZE && Next(s, b).NeedMore?
    ensures Bounded(s, Next(s, b).buffer)
  {
    var found := FindBytes(b, s.delimiter);
    if found.Some? {
      var r := b[found.value..];
      FoundIsAtFront(s, b, found.value);
      WaitKeepsBuffer(s, r, r[|s.delimiter|..]);
      if |r| > MAX_MULTIPART_HEADERS { LongWaitIsLocated(s, r); }
    }
  }

  lemma {:induction false} SmallStaysBounded(s: Settings, b: Bytes)
    requires s.Valid() && |s.delimiter| + 2 <= MAX_MULTIPART_HEADERS
    requires |b| <= MAX_MULTIPART_HEADERS + READ_SIZE
    ensures Drain(s, b).status.Pending? ==> Bounded(s, Drain(s, b).status.buffer)
    decreases |b|
  {
    var step := Next(s, b);
    if step.NeedMore? {
      WaitingIsBounded(s, b);
    } else if step.Unit? {
      SmallStaysBounded(s, step.rest);
    }
  }

  // ----- a read while waiting for a body

  lemma BlockAfterRead(s: Settings, buffer: Bytes, block: Bytes, chunk: Bytes, k: nat, length: nat)
    requires WaitsForBody(s, block, k, length)
    ensures
      var step := AtHeaders(s, buffer, block + chunk);
      || (step == NeedMore(buffer) && WaitsForBody(s, block + chunk, k, length))
      || (step.Unit? && |step.rest| <= |chunk|)
  {
    FindStable(block, chunk, TERMINATOR);
    TakeFromConcat(block, chunk, k);
  }

  lemma LocatedAfterRead(s: Settings, b: Bytes, chunk: Bytes, k: nat, length: nat)
    requires s.Valid() && Located(s, b, k, length)
    ensures
      var step := Next(s, b + chunk);
      || (step == NeedMore(b + chunk) && Located(s, b + chunk, k, length))
      || (step.Unit? && |step.rest| <= |chunk|)
  {
    var d := |s.delimiter|;
    FindStable(b, chunk, s.delimiter);
    DropFromConcat(b, chunk, d);
    DropFromConcat(b[d..], chunk, 2);
    assert (b + chunk)[0..] == b + chunk;
    BlockAfterRead(s, b + chunk, b[d..][2..], chunk, k, length);
  }

  lemma ReadKeepsBounded(s: Settings, b: Bytes, chunk: Bytes)
    requires s.Valid() && |s.delimiter| + 2 <= MAX_MULTIPART_HEADERS
    requires Bounded(s, b) && |chunk| <= READ_SIZE
    ensures |b + chunk| <= s.maximum + MAX_BUFFER_OVERHEAD
    ensures Drain(s, b + chunk).status.Pending? ==> Bounded(s, Drain(s, b + chunk).status.buffer)
  {
    BoundedIsSmall(s, b);
    if |b| <= MAX_MULTIPART_HEADERS {
      SmallStaysBounded(s, b + chunk);
    } else {
      var k, length :| Located(s, b, k, length) && |s.delimiter| + 2 + k + 4 <= MAX_MULTIPART_HEADERS + READ_SIZE;
      LocatedAfterRead(s, b, chunk, k, length);
      var step := Next(s, b + chunk);
      if step.Unit? { SmallStaysBounded(s, step.rest); }
    }
  }

  /** The loop itself never reports an overflowing buffer. */
  lemma {:induction false} DrainReportsNoOverflow(s: Settings, b: Bytes)
    requires s.Valid() && s.ReadsContentLength()
    ensures Drain(s, b).status.Failed? ==> Drain(s, b).status.error != BufferTooLarge
    decreases |b|
  {
    var step := Next(s, b);
    if step.Unit? {
      DrainReportsNoOverflow(s, step.rest);
    } else if step.Fail? {
      var i := FindBytes(b, s.delimiter).value;
      BlockReportsNoOverflow(s, b[i..], b[i..][|s.delimiter|..]);
    }
  }

  lemma BlockReportsNoOverflow(s: Settings, buffer: Bytes, tail: Bytes)
    requires s.ReadsContentLength() && AtDelimiter(s, buffer, tail).Fail?
    ensures AtDelimiter(s, buffer, tail).error != BufferTooLarge
  {
    if |tail| >= 2 {
      var found := FindBytes(tail[2..], TERMINATOR);
      if found.Some? { ContentLengthErrors(tail[2..][..found.value]); }
    }
  }

  /** Whatever bytes arrive, reads of at most 8192 bytes never overflow the buffer. */
  lemma {:induction false} ReaderNeverOverflows(s: Settings, b: Bytes, chunks: seq<Bytes>)
    requires s.Valid() && s.ReadsContentLength() && |s.delimiter| + 2 <= MAX_MULTIPART_HEADERS
    requires Bounded(s, b)
    requires forall i :: 0 <= i < |chunks| ==> |chunks[i]| <= READ_SIZE
    ensures PushAll(s, b, chunks).error != Some(BufferTooLarge)
    ensures PushAll(s, b, chunks).error.None? ==> Bounded(s, PushAll(s, b, chunks).buffer)
    decreases |chunks|
  {
    if chunks != [] {
      ReadKeepsBounded(s, b, chunks[0]);
      DrainReportsNoOverflow(s, b + chunks[0]);
      var d := Drain(s, b + chunks[0]);
      if !d.status.Failed? {
        ReaderNeverOverflows(s, Left(d.status), chunks[1..]);
      }
    }
  }

  /** The reader of an encoder whose part heads are of ordinary length delivers every body, in order. */
  lemma ReaderDelivers(maximum: nat, parts: seq<Part>, end: Bytes, chunks: seq<Bytes>)
    requires 0 < maximum <= MAX_ACCESS_UNIT_BYTES
    requires
      var s := ReaderSettings(maximum);
      && AllValid(s, parts) && ShortHeads(s, parts) && IsEnd(s, end)
      && Flatten(chunks) == PrintAll(s, parts) + end
    requires forall i :: 0 <= i < |chunks| ==> |chunks[i]| <= READ_SIZE
    ensures PushAll(ReaderSettings(maximum), [], chunks).error.None?
    ensures PushAll(ReaderSettings(maximum), [], chunks).units == Bodies(parts)
  {
    ReaderSettingsValid(maximum);
    CutStreamDelivers(ReaderSettings(maximum), parts, end, chunks);
    ShortHeadsFit(ReaderSettings(maximum), parts, end, chunks);
    ReaderNeverOverflows(ReaderSettings(maximum), [], chunks);
  }

  // ----- the reader thread

  /** One `read` of the encoder's output; an empty one is its end. */
  datatype Read = Data(chunk: Bytes) | Interrupted | Broken

  datatype Sent = AccessUnit(body: Bytes) | ParseFailed(error: MultipartError) | ReadFailed

  /** The chunks read before the output ends or breaks. */
  function ChunksRead(inputs: seq<Read>): seq<Bytes> {
    if inputs == [] || inputs[0].Broken? || inputs[0] == Data([]) then []
    else if inputs[0].Interrupted? then ChunksRead(inputs[1..])
    else [inputs[0].chunk] + ChunksRead(inputs[1..])
  }

  predicate Breaks(inputs: seq<Read>) {
    inputs != [] && (inputs[0].Broken? || (inputs[0] != Data([]) && Breaks(inputs[1..])))
  }

  function AccessUnits(units: seq<Bytes>): seq<Sent> {
    if units == [] then [] else [AccessUnit(units[0])] + AccessUnits(units[1..])
  }

  /** What a run sends to the receiver. */
  function Sends(run: Run, breaks: bool): seq<Sent> {
    AccessUnits(run.units)
    + (if run.error.Some? then [ParseFailed(run.error.value)] else if breaks then [ReadFailed] else [])
  }

  lemma {:induction false} AccessUnitsConcat(a: seq<Bytes>, b: seq<Bytes>)
    ensures AccessUnits(a + b) == AccessUnits(a) + AccessUnits(b)
  {
    if a == [] {
      assert a + b == b;
    } else {
      AccessUnitsConcat(a[1..], b);
      assert (a + b)[1..] == a[1..] + b;
    }
  }

  ghost function Outcome(s: Settings, buffer: Bytes, inputs: seq<Read>): seq<Sent>
    requires s.Valid()
  {
    Sends(PushAll(s, buffer, ChunksRead(inputs)), Breaks(inputs))
  }

  lemma OutcomeOfData(s: Settings, buffer: Bytes, inputs: seq<Read>)
    requires s.Valid() && inputs != [] && inputs[0].Data? && inputs[0].chunk != []
    ensures
      var (left, result) := PushStep(s, buffer, inputs[0].chunk);
      Outcome(s, buffer, inputs) ==
        if result.Err? then [ParseFailed(result.error)]
        else AccessUnits(result.value) + Outcome(s, left, inputs[1..])
  {
    var chunks := ChunksRead(inputs);
    assert chunks == [inputs[0].chunk] + ChunksRead(inputs[1..]);
    assert chunks[0] == inputs[0].chunk && chunks[1..] == ChunksRead(inputs[1..]);
    var (left, result) := PushStep(s, buffer, inputs[0].chunk);
    if result.Ok? {
      AccessUnitsConcat(result.value, PushAll(s, left, chunks[1..]).units);
    }
  }

  lemma OutcomeOfOthers(s: Settings, buffer: Bytes, inputs: seq<Read>)
    requires s.Valid()
    ensures inputs == [] || inputs[0] == Data([]) ==> Outcome(s, buffer, inputs) == []
    ensures inputs != [] && inputs[0].Broken? ==> Outcome(s, buffer, inputs) == [ReadFailed]
    ensures inputs != [] && inputs[0].Interrupted? ==> Outcome(s, buffer, inputs) == Outcome(s, buffer, inputs[1..])
  {
  }

  method PushChunk(parser: MultipartAccessUnitParser, chunk: Bytes, ghost inputs: seq<Read>)
    returns (r: Result<seq<Bytes>, MultipartError>)
    requires parser.settings.Valid() && parser.settings.ReadsContentLength()
    requires inputs != [] && inputs[0] == Data(chunk) && chunk != []
    modifies parser
    ensures r.Err? ==> Outcome(parser.settings, old(parser.buffer), inputs) == [ParseFailed(r.error)]
    ensures r.Ok? ==>
      Outcome(parser.settings, old(parser.buffer), inputs)
      == AccessUnits(r.value) + Outcome(parser.settings, parser.buffer, inputs[1..])
  {
    OutcomeOfData(parser.settings, parser.buffer, inputs);
    r := parser.Push(chunk);
  }

  /** What a receiver that hangs up after `patience` messages gets of them. */
  function Received(sent: seq<Sent>, patience: nat): seq<Sent> {
    if |sent| <= patience then sent else sent[..patience]
  }

  lemma ReceivedAppend(a: seq<Sent>, b: seq<Sent>, patience: nat)
    ensures |a| >= patience ==> Received(a + b, patience) == Received(a, patience)
    ensures |a| <= patience ==> Received(a + b, patience) == a + Received(b, patience - |a|)
  {
    if |a| >= patience {
      assert (a + b)[..patience] == a[..patience];
      assert |b| == 0 ==> a + b == a;
    } else if |a + b| > patience {
      assert (a + b)[..patience] == a + b[..patience - |a|];
    }
  }

  /** Sends the access units of one push, stopping at the first send that finds the receiver gone. */
  method SendUnits(received: seq<Sent>, units: seq<Bytes>, patience: nat) returns (after: seq<Sent>, gone: bool)
    requires |received| <= patience
    ensures after == received + Received(AccessUnits(units), patience - |received|)
    ensures gone <==> |received| + |AccessUnits(units)| > patience
  {
    after, gone := received, false;
    var i := 0;
    AccessUnitsLength(units);
    assert units[..0] == [];
    while i < |units|
      invariant 0 <= i <= |units| && |received| + i <= patience
      invariant after == received + AccessUnits(units[..i])
    {
      AccessUnitsLength(units[..i]);
      assert units[..i + 1] == units[..i] + [units[i]];
      AccessUnitsConcat(units[..i], [units[i]]);
      assert units == units[..i] + units[i..];
      AccessUnitsConcat(units[..i], units[i..]);
      if |received| + i == patience {
        ReceivedAppend(AccessUnits(units[..i]), AccessUnits(units[i..]), patience - |received|);
        return after, true;
      }
      after := after + [AccessUnit(units[i])];
      assert AccessUnits([units[i]]) == [AccessUnit(units[i])];
      i := i + 1;
    }
    assert units[..|units|] == units;
  }

  lemma {:induction false} AccessUnitsLength(units: seq<Bytes>)
    ensures |AccessUnits(units)| == |units|
  {
    if units != [] { AccessUnitsLength(units[1..]); }
  }

  /** Sends an error, to whoever is still there. */
  method SendError(received: seq<Sent>, message: Sent, patience: nat) returns (after: seq<Sent>)
    requires |received| <= patience
    ensures after == received + Received([message], patience - |received|)
  {
    after := if |received| < patience then received + [message] else received;
  }

  /** What is received of a run of which `received` has been, when the rest is still to be sent. */
  ghost predicate Receives(whole: seq<Sent>, received: seq<Sent>, rest: seq<Sent>, patience: nat) {
    |received| <= patience && Received(whole, patience) == received + Received(rest, patience - |received|)
  }

  lemma ReceivesMore(whole: seq<Sent>, received: seq<Sent>, next: seq<Sent>, rest: seq<Sent>, patience: nat)
    requires Receives(whole, received, next + rest, patience)
    ensures
      var after := received + Received(next, patience - |received|);
      if |received| + |next| > patience then Received(whole, patience) == after
      else Receives(whole, after, rest, patience)
  {
    ReceivedAppend(next, rest, patience - |received|);
    if |received| + |next| <= patience {
      Assoc(received, next, Received(rest, patience - |received| - |next|));
    }
  }

  /** `read_multipart_output`, with a receiver that may hang up. */
  method ReadMultipartOutput(maximum: nat, inputs: seq<Read>, patience: nat) returns (received: seq<Sent>)
    ensures !(0 < maximum <= MAX_ACCESS_UNIT_BYTES) ==> received == Received([ParseFailed(InvalidMaximum)], patience)
    ensures 0 < maximum <= MAX_ACCESS_UNIT_BYTES ==>
      && ReaderSettings(maximum).Valid()
      && received
         == Received(Sends(PushAll(ReaderSettings(maximum), [], ChunksRead(inputs)), Breaks(inputs)), patience)
  {
    if !(0 < maximum <= MAX_ACCESS_UNIT_BYTES) {
      received := SendError([], ParseFailed(InvalidMaximum), patience);
      return;
    }
    ReaderSettingsValid(maximum);
    var s := ReaderSettings(maximum);
    var parser := new MultipartAccessUnitParser(s);
    ghost var whole := Outcome(s, [], inputs);
    received := [];
    var i := 0;
    while i < |inputs|
      invariant 0 <= i <= |inputs| && parser.settings == s
      invariant Receives(whole, received, Outcome(s, parser.buffer, inputs[i..]), patience)
    {
      ghost var rest := inputs[i..];
      assert rest[1..] == inputs[i + 1..];
      OutcomeOfOthers(s, parser.buffer, rest);
      match inputs[i] {
        case Broken =>
          received := SendError(received, ReadFailed, patience);
          return;
        case Interrupted =>
        case Data(chunk) =>
          if chunk == [] {
            return;
          }
          var result := PushChunk(parser, chunk, rest);
          if result.Err? {
            received := SendError(received, ParseFailed(result.error), patience);
            return;
          }
          ghost var more := Outcome(s, parser.buffer, inputs[i + 1..]);
          ReceivesMore(whole, received, AccessUnits(result.value), more, patience);
          var gone;
          received, gone := SendUnits(received, result.value, patience);
          if gone {
            return;
          }
      }
      i := i + 1;
    }
    OutcomeOfOthers(s, parser.buffer, inputs[i..]);
  }

  // ----- from the encoder's output to the receiver

  /** Reads of these chunks, each after some number of interruptions. */
  function Feed(chunks: seq<Bytes>, gaps: seq<nat>): seq<Read>
    requires |gaps| == |chunks|
  {
    if chunks == [] then [] else Paused(gaps[0], [Data(chunks[0])] + Feed(chunks[1..], gaps[1..]))
  }

  function Paused(gap: nat, inputs: seq<Read>): seq<Read> {
    if gap == 0 then inputs else [Interrupted] + Paused(gap - 1, inputs)
  }

  /** The output ends here, or breaks. */
  ghost predicate Stops(tail: seq<Read>) { tail == [] || tail[0] == Data([]) || tail[0] == Broken }

  lemma {:induction false} PausedReads(gap: nat, inputs: seq<Read>, tail: seq<Read>)
    ensures ChunksRead(Paused(gap, inputs) + tail) == ChunksRead(inputs + tail)
    ensures Breaks(Paused(gap, inputs) + tail) == Breaks(inputs + tail)
  {
    if gap > 0 {
      PausedReads(gap - 1, inputs, tail);
      assert (Paused(gap, inputs) + tail)[1..] == Paused(gap - 1, inputs) + tail;
    }
  }

  /** Interruptions change nothing, and what stands behind the end is not read. */
  lemma {:induction false} FeedReads(chunks: seq<Bytes>, gaps: seq<nat>, tail: seq<Read>)
    requires |gaps| == |chunks| && Stops(tail) && forall i :: 0 <= i < |chunks| ==> chunks[i] != []
    ensures ChunksRead(Feed(chunks, gaps) + tail) == chunks
    ensures Breaks(Feed(chunks, gaps) + tail) <==> tail != [] && tail[0] == Broken
  {
    if chunks == [] {
      assert Feed(chunks, gaps) + tail == tail;
    } else {
      var rest := Feed(chunks[1..], gaps[1..]);
      FeedReads(chunks[1..], gaps[1..], tail);
      PausedReads(gaps[0], [Data(chunks[0])] + rest, tail);
      var inputs := [Data(chunks[0])] + rest + tail;
      assert inputs[0] == Data(chunks[0]) && inputs[1..] == rest + tail;
    }
  }

  lemma {:induction false} AccessUnitsAre(units: seq<Bytes>)
    ensures |AccessUnits(units)| == |units|
    ensures forall i :: 0 <= i < |units| ==> AccessUnits(units)[i] == AccessUnit(units[i])
  {
    if units != [] { AccessUnitsAre(units[1..]); }
  }

  /**
   * From end to end: whatever the cut into reads of at most 8192 bytes and wherever they are interrupted,
   * a receiver gets the bodies of the printed parts in order, and the read error if the output
   * then breaks, up to where it hangs up.
   */
  lemma ReceivedBodies(maximum: nat, parts: seq<Part>, end: Bytes, chunks: seq<Bytes>, gaps: seq<nat>,
                       tail: seq<Read>, patience: nat)
    requires 0 < maximum <= MAX_ACCESS_UNIT_BYTES
    requires
      var s := ReaderSettings(maximum);
      && AllValid(s, parts) && ShortHeads(s, parts) && IsEnd(s, end)
      && Flatten(chunks) == PrintAll(s, parts) + end
    requires |gaps| == |chunks| && Stops(tail)
    requires forall i :: 0 <= i < |chunks| ==> 0 < |chunks[i]| <= READ_SIZE
    ensures
      ReaderSettings(maximum).Valid() &&
      var inputs := Feed(chunks, gaps) + tail;
      var run := PushAll(ReaderSettings(maximum), [], ChunksRead(inputs));
      var received := Received(Sends(run, Breaks(inputs)), patience);
      var bodies, broken := Bodies(parts), tail != [] && tail[0] == Broken;
      var sent := |bodies| + if broken then 1 else 0;
      && |received| == (if sent < patience then sent else patience)
      && (forall i :: 0 <= i < |received| && i < |bodies| ==> received[i] == AccessUnit(bodies[i]))
      && (|received| > |bodies| ==> received[|bodies|] == ReadFailed)
  {
    ReaderDelivers(maximum, parts, end, chunks);
    ReaderSettingsValid(maximum);
    FeedReads(chunks, gaps, tail);
    AccessUnitsAre(Bodies(parts));
  }
}
