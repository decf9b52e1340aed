/** The multipart stream an encoder prints, and that every cut of it parses back. */
module MultipartPrinter {
  import opened Bytes
  import opened ContentLength
  import opened Multipart
  import opened MultipartStreams
  import opened MultipartRuns

  /** One part: any plain header lines, the Content-Length line, and a body of arbitrary bytes. */
  datatype Part = Part(plain: seq<Bytes>, body: Bytes)
  {
    ghost predicate Valid(s: Settings) {
      && s.ReadsContentLength()
      && (forall i :: 0 <= i < |plain| ==> PlainLine(plain[i]))
      && 0 < |body| <= s.maximum
    }

    function Headers(): Bytes { JoinLines(plain + [LengthLine(|body|)]) }
  }

  function Head(s: Settings, p: Part): Bytes { s.delimiter + CRLF + p.Headers() + TERMINATOR }

  function PrintPart(s: Settings, p: Part): Bytes { Head(s, p) + p.body + CRLF }

  function PrintAll(s: Settings, parts: seq<Part>): Bytes {
    if parts == [] then [] else PrintPart(s, parts[0]) + PrintAll(s, parts[1..])
  }

  function Bodies(parts: seq<Part>): seq<Bytes> {
    if parts == [] then [] else [parts[0].body] + Bodies(parts[1..])
  }

  ghost predicate AllValid(s: Settings, parts: seq<Part>) {
    forall i :: 0 <= i < |parts| ==> parts[i].Valid(s)
  }

  /** Heads short enough that no wait for their end exceeds the header limit. */
  ghost predicate ShortHeads(s: Settings, parts: seq<Part>) {
    forall i :: 0 <= i < |parts| ==> |Head(s, parts[i])| <= MAX_MULTIPART_HEADERS + 1
  }

  // ----- the header block ends where it was printed to end

  lemma LineHoldsNoTerminator(line: Bytes, rest: Bytes, j: nat)
    requires CR !in line && j < |line|
    ensures !OccursAt(line + rest, TERMINATOR, j)
  {
    assert (line + rest)[j] == line[j] && line[j] in line;
    assert j + 4 <= |line + rest| ==> (line + rest)[j..j + 4][0] == line[j];
  }

  lemma BreakIsNoTerminator(line: Bytes, rest: Bytes, j: nat)
    requires CR !in line && rest != [] && rest[0] != CR && |line| <= j < |line| + 2
    ensures !OccursAt(line + CRLF + rest, TERMINATOR, j)
  {
    var v := line + CRLF + rest;
    assert v[|line| + 1] == LF && v[|line| + 2] == rest[0];
    assert j + 4 <= |v| ==> v[j..j + 4][0] == v[j] && v[j..j + 4][2] == v[j + 2];
  }

  lemma {:induction false} HeadersEnd(lines: seq<Bytes>, rest: Bytes)
    requires lines != [] && AllClean(lines)
    ensures FindBytes(JoinLines(lines) + (TERMINATOR + rest), TERMINATOR) == Some(|JoinLines(lines)|)
    ensures JoinLines(lines) != [] && JoinLines(lines)[0] != CR
    decreases |lines|
  {
    var line := lines[0];
    assert line[0] in line;
    if |lines| == 1 {
      var tail := TERMINATOR + rest;
      assert tail[..4] == TERMINATOR;
      forall j: nat | j < |line|
        ensures !OccursAt(line + tail, TERMINATOR, j)
      {
        LineHoldsNoTerminator(line, tail, j);
      }
      FindShift(line, tail, TERMINATOR);
    } else {
      HeadersEnd(lines[1..], rest);
      var tail := JoinLines(lines[1..]) + (TERMINATOR + rest);
      var a := line + CRLF;
      assert JoinLines(lines) + (TERMINATOR + rest) == a + tail;
      forall j: nat | j < |a|
        ensures !OccursAt(a + tail, TERMINATOR, j)
      {
        if j < |line| {
          Assoc(line, CRLF, tail);
          LineHoldsNoTerminator(line, CRLF + tail, j);
        } else {
          BreakIsNoTerminator(line, tail, j);
        }
      }
      FindShift(a, tail, TERMINATOR);
    }
  }

  lemma PartHeaders(s: Settings, p: Part, rest: Bytes)
    requires s.Valid() && p.Valid(s)
    ensures s.lengthOf(p.Headers()) == Ok(|p.body|)
    ensures FindBytes(p.Headers() + (TERMINATOR + rest), TERMINATOR) == Some(|p.Headers()|)
  {
    PrintedLengthParses(p.plain, |p.body|);
    HeadersEnd(p.plain + [LengthLine(|p.body|)], rest);
  }

  // ----- one part

  lemma HeadParts(s: Settings, p: Part, rest: Bytes)
    ensures Head(s, p) + rest == s.delimiter + (CRLF + (p.Headers() + (TERMINATOR + rest)))
  {
    Regroup(s.delimiter + CRLF, p.Headers(), TERMINATOR, rest);
    Assoc(s.delimiter, CRLF, p.Headers() + (TERMINATOR + rest));
  }

  lemma FindAtFront(a: Bytes, b: Bytes)
    requires a != []
    ensures FindBytes(a + b, a) == Some(0) && (a + b)[0..] == a + b && (a + b)[|a|..] == b
  {
    TakeFromConcat(a, b, |a|);
  }

  lemma PastBlock(headers: Bytes, rest: Bytes)
    ensures
      var block := headers + (TERMINATOR + rest);
      |block| >= |headers| + 4 && block[..|headers|] == headers && block[|headers| + 4..] == rest
  {
    var block := headers + (TERMINATOR + rest);
    DropConcat(headers, TERMINATOR + rest, 4);
    TakeFromConcat(headers, TERMINATOR + rest, |headers|);
  }

  lemma PastBreak(block: Bytes)
    ensures PairAt(CRLF + block, 0, CR, LF) && (CRLF + block)[2..] == block
  {
  }

  /** Behind a printed head the parser is at the body, with the length the head states. */
  lemma AfterHead(s: Settings, p: Part, rest: Bytes)
    requires s.Valid() && p.Valid(s)
    ensures Next(s, Head(s, p) + rest) == AtBody(s, Head(s, p) + rest, rest, Ok(|p.body|))
  {
    HeadParts(s, p, rest);
    PartHeaders(s, p, rest);
    PassOverHead(s, p.Headers(), |p.body|, rest);
  }

  lemma PassOverHead(s: Settings, headers: Bytes, length: nat, rest: Bytes)
    requires s.Valid() && s.lengthOf(headers) == Ok(length)
    requires FindBytes(headers + (TERMINATOR + rest), TERMINATOR) == Some(|headers|)
    ensures
      var b := s.delimiter + (CRLF + (headers + (TERMINATOR + rest)));
      Next(s, b) == AtBody(s, b, rest, Ok(length))
  {
    var block := headers + (TERMINATOR + rest);
    FindAtFront(s.delimiter, CRLF + block);
    PastBreak(block);
    PastBlock(headers, rest);
  }

  lemma PartTaken(s: Settings, p: Part, rest: Bytes)
    requires s.Valid() && p.Valid(s)
    ensures Drain(s, PrintPart(s, p) + rest) == After([p.body], Drain(s, rest))
  {
    var head := Head(s, p);
    Regroup(head, p.body, CRLF, rest);
    AfterHead(s, p, p.body + (CRLF + rest));
    FindAtFront(p.body, CRLF + rest);
    TakeFromConcat(p.body, CRLF + rest, |p.body|);
    PastBreak(rest);
    assert Next(s, PrintPart(s, p) + rest) == Unit(p.body, rest);
  }

  /** Draining printed parts gives their bodies, whatever bytes the bodies hold. */
  lemma {:induction false} DrainInvertsPrint(s: Settings, parts: seq<Part>, rest: Bytes)
    requires s.Valid() && AllValid(s, parts)
    ensures Drain(s, PrintAll(s, parts) + rest) == After(Bodies(parts), Drain(s, rest))
  {
    if parts == [] {
      assert [] + rest == rest && [] + Drain(s, rest).units == Drain(s, rest).units;
    } else {
      var more := PrintAll(s, parts[1..]);
      Assoc(PrintPart(s, parts[0]), more, rest);
      PartTaken(s, parts[0], more + rest);
      DrainInvertsPrint(s, parts[1..], rest);
      AfterAfter([parts[0].body], Bodies(parts[1..]), Drain(s, rest));
    }
  }

  // ----- prefixes of a printed stream

  lemma FindNoneInPrefix(a: Bytes, b: Bytes, needle: Bytes, k: nat)
    requires needle != [] && FindBytes(a + b, needle) == Some(k) && |a| < k + |needle|
    ensures FindBytes(a, needle).None?
  {
    if FindBytes(a, needle).Some? { FindStable(a, b, needle); }
  }

  lemma UnfinishedHeadWaits(s: Settings, block: Bytes)
    requires s.Valid() && |s.delimiter| + 2 + |block| <= MAX_MULTIPART_HEADERS
    requires FindBytes(block, TERMINATOR).None?
    ensures Next(s, s.delimiter + (CRLF + block)).NeedMore?
  {
    FindAtFront(s.delimiter, CRLF + block);
    PastBreak(block);
  }

  lemma HeadPrefixWaits(s: Settings, p: Part, q: Bytes, e: Bytes)
    requires s.Valid() && p.Valid(s) && |Head(s, p)| <= MAX_MULTIPART_HEADERS + 1
    requires q + e == Head(s, p) && |q| < |Head(s, p)|
    ensures Next(s, q).NeedMore?
  {
    var start := |s.delimiter| + 2;
    if |q| < start {
      TinyWaits(s, q);
    } else {
      var block := q[start..];
      assert Head(s, p) + [] == Head(s, p) && TERMINATOR + [] == TERMINATOR;
      HeadParts(s, p, []);
      PrefixAfter(s.delimiter, CRLF, p.Headers() + TERMINATOR, q, e);
      PartHeaders(s, p, []);
      FindNoneInPrefix(block, e, TERMINATOR, |p.Headers()|);
      UnfinishedHeadWaits(s, block);
    }
  }

  lemma PrefixAfter(a: Bytes, b: Bytes, c: Bytes, q: Bytes, e: Bytes)
    requires q + e == a + (b + c) && |a| + |b| <= |q|
    ensures q == a + (b + q[|a| + |b|..]) && q[|a| + |b|..] + e == c
  {
    var n := |a| + |b|;
    Assoc(a, b, c);
    assert q + e == q[..n] + (q[n..] + e);
    SplitEqual(a + b, c, q[..n], q[n..] + e);
    Assoc(a, b, q[n..]);
  }

  lemma BodyPrefixWaits(s: Settings, p: Part, q: Bytes)
    requires s.Valid() && p.Valid(s) && |q| < |p.body|
    ensures Next(s, Head(s, p) + q).NeedMore?
  {
    AfterHead(s, p, q);
  }

  lemma TinyWaits(s: Settings, q: Bytes)
    requires s.Valid() && |q| < |s.delimiter| + 2
    ensures Next(s, q).NeedMore?
  {
  }

  lemma PartPrefix(s: Settings, p: Part, rest: Bytes, q: Bytes)
    requires q <= PrintPart(s, p) + rest
    ensures
      var head := Head(s, p);
      && (|q| < |head| ==> q + head[|q|..] == head)
      && (|head| <= |q| ==> q == head + q[|head|..])
      && (|head| + |p.body| <= |q| ==> q[|head|..|head| + |p.body|] == p.body)
      && (|PrintPart(s, p)| <= |q| ==> q == PrintPart(s, p) + q[|PrintPart(s, p)|..] && q[|PrintPart(s, p)|..] <= rest)
  {
    var head, whole := Head(s, p), PrintPart(s, p) + rest;
    assert q == whole[..|q|];
    assert forall i :: 0 <= i < |head| ==> head[i] == whole[i];
    assert forall i :: 0 <= i < |p.body| ==> p.body[i] == whole[|head| + i];
  }

  /** No prefix of a printed stream is refused or closes: the parser just waits. */
  lemma {:induction false} PrefixPending(s: Settings, parts: seq<Part>, q: Bytes)
    requires s.Valid() && AllValid(s, parts) && ShortHeads(s, parts)
    requires q <= PrintAll(s, parts)
    ensures Drain(s, q).status.Pending?
    decreases |parts|
  {
    if parts != [] {
      var p := parts[0];
      var head, rest := Head(s, p), PrintAll(s, parts[1..]);
      PartPrefix(s, p, rest, q);
      if |q| < |head| {
        HeadPrefixWaits(s, p, q, head[|q|..]);
      } else if |q| < |head| + |p.body| {
        BodyPrefixWaits(s, p, q[|head|..]);
      } else if |q| < |PrintPart(s, p)| {
        AfterHead(s, p, q[|head|..]);
        TinyWaits(s, Next(s, q).rest);
      } else {
        var more := q[|PrintPart(s, p)|..];
        PartTaken(s, p, more);
        PrefixPending(s, parts[1..], more);
      }
    }
  }

  // ----- cut streams

  /** What may follow the parts: nothing, or the closing delimiter. */
  ghost predicate IsEnd(s: Settings, end: Bytes) { end == [] || end == s.delimiter + [DASH, DASH] }

  lemma EndDrains(s: Settings, end: Bytes)
    requires s.Valid() && IsEnd(s, end)
    ensures Drain(s, end).units == [] && !Drain(s, end).status.Failed?
    ensures Drain(s, end).status.Closed? <==> end != []
  {
    if end != [] { FindAtFront(s.delimiter, [DASH, DASH]); }
  }

  lemma StreamDrains(s: Settings, parts: seq<Part>, end: Bytes)
    requires s.Valid() && AllValid(s, parts) && IsEnd(s, end)
    ensures
      var d := Drain(s, PrintAll(s, parts) + end);
      d.units == Bodies(parts) && d.status == Drain(s, end).status && !d.status.Failed?
  {
    DrainInvertsPrint(s, parts, end);
    EndDrains(s, end);
    assert Bodies(parts) + [] == Bodies(parts);
  }

  lemma StreamClosesAtEnd(s: Settings, parts: seq<Part>, end: Bytes)
    requires s.Valid() && AllValid(s, parts) && IsEnd(s, end)
    ensures ClosesOnlyAtEnd(s, PrintAll(s, parts) + end)
  {
    var printed := PrintAll(s, parts);
    forall q | q < printed + end
      ensures !Drain(s, q).status.Closed?
    {
      if |q| <= |printed| {
        assert q + printed[|q|..] == printed;
        DrainExtends(s, q, printed[|q|..]);
        StreamDrains(s, parts, []);
        EndDrains(s, []);
        assert printed + [] == printed;
      } else {
        var w := q[|printed|..];
        assert q == printed + w && |w| < |s.delimiter| + 2;
        DrainInvertsPrint(s, parts, w);
        TinyWaits(s, w);
      }
    }
  }

  lemma {:induction false} StreamPrefixHolds(s: Settings, parts: seq<Part>, end: Bytes, q: Bytes)
    requires s.Valid() && AllValid(s, parts) && ShortHeads(s, parts) && IsEnd(s, end)
    requires q <= PrintAll(s, parts) + end
    ensures !Drain(s, q).status.Failed?
  {
    var printed := PrintAll(s, parts);
    if |q| <= |printed| {
      assert q <= printed;
      PrefixPending(s, parts, q);
    } else if |q| < |printed + end| {
      var w := q[|printed|..];
      assert q == printed + w && |w| < |s.delimiter| + 2;
      DrainInvertsPrint(s, parts, w);
      TinyWaits(s, w);
    } else {
      assert q == printed + end;
      StreamDrains(s, parts, end);
    }
  }

  /**
   * Parsing inverts printing under every cut: unless a size limit is hit, the bodies come
   * back in order and unchanged, even where they contain the delimiter.
   */
  lemma CutStreamDelivers(s: Settings, parts: seq<Part>, end: Bytes, chunks: seq<Bytes>)
    requires s.Valid() && AllValid(s, parts) && IsEnd(s, end)
    requires Flatten(chunks) == PrintAll(s, parts) + end
    ensures
      var run := PushAll(s, [], chunks);
      LimitHit(run) || (run.error.None? && run.units == Bodies(parts))
  {
    StreamClosesAtEnd(s, parts, end);
    ClosingAtEndIsQuiet(s, Flatten(chunks));
    ChunkIndependence(s, chunks);
    StreamDrains(s, parts, end);
    AgreementDelivers(s, PushAll(s, [], chunks), Overflows(s, [], chunks), Flatten(chunks));
  }

  /** Heads of ordinary length never hit the header limit, whatever the cut. */
  lemma ShortHeadsFit(s: Settings, parts: seq<Part>, end: Bytes, chunks: seq<Bytes>)
    requires s.Valid() && AllValid(s, parts) && ShortHeads(s, parts) && IsEnd(s, end)
    requires Flatten(chunks) == PrintAll(s, parts) + end
    ensures PushAll(s, [], chunks).error != Some(HeadersTooLarge)
  {
    StreamClosesAtEnd(s, parts, end);
    ClosingAtEndIsQuiet(s, Flatten(chunks));
    ChunkIndependence(s, chunks);
    StreamDrains(s, parts, end);
    AgreementDelivers(s, PushAll(s, [], chunks), Overflows(s, [], chunks), Flatten(chunks));
    if PushAll(s, [], chunks).error == Some(HeadersTooLarge) {
      var q :| q <= Flatten(chunks) && HeadersOverflow(s, q);
      StreamPrefixHolds(s, parts, end, q);
    }
  }

  // ----- a head over the limit

  lemma LongHeadOverflows(s: Settings, block: Bytes)
    requires s.Valid() && |s.delimiter| + 2 + |block| > MAX_MULTIPART_HEADERS
    requires FindBytes(block, TERMINATOR).None?
    ensures HeadersOverflow(s, s.delimiter + (CRLF + block))
  {
    FindAtFront(s.delimiter, CRLF + block);
    PastBreak(block);
  }

  /** The bound on heads is exact: a longer one, cut before its last byte, is refused, although the whole is not. */
  lemma LongHeadIsUnsettled(s: Settings, p: Part)
    requires s.Valid() && p.Valid(s) && |Head(s, p)| > MAX_MULTIPART_HEADERS + 1
    ensures HeadersOverflow(s, Head(s, p)[..|Head(s, p)| - 1])
    ensures !Drain(s, PrintPart(s, p)).status.Failed? && !HeadersSettled(s, PrintPart(s, p))
  {
    var head := Head(s, p);
    var q, e := head[..|head| - 1], head[|head| - 1..];
    var start := |s.delimiter| + 2;
    assert q + e == head && head + [] == head && TERMINATOR + [] == TERMINATOR;
    HeadParts(s, p, []);
    PrefixAfter(s.delimiter, CRLF, p.Headers() + TERMINATOR, q, e);
    PartHeaders(s, p, []);
    FindNoneInPrefix(q[start..], e, TERMINATOR, |p.Headers()|);
    LongHeadOverflows(s, q[start..]);
    InnerDrains(s, p);
    assert q <= PrintPart(s, p);
  }

  // ----- a stream that goes on after its close

  /** Pushing a closed prefix and then a pending or closed stretch, when both fit, delivers both. */
  lemma PushedAfterClose(s: Settings, q: Bytes, y: Bytes)
    requires s.Valid() && Drain(s, q).status.Closed? && !Drain(s, y).status.Failed?
    requires |q| + |y| <= s.maximum + MAX_BUFFER_OVERHEAD
    ensures PushAll(s, [], [q, y]).error.None?
    ensures PushAll(s, [], [q, y]).units == Drain(s, q).units + Drain(s, y).units
  {
    assert [q, y] == [q] + [y];
    RestartsAfterClose(s, q, [y]);
    PushedAtOnce(s, y);
  }

  lemma PushedAtOnce(s: Settings, q: Bytes)
    requires s.Valid() && !Drain(s, q).status.Failed? && |q| <= s.maximum + MAX_BUFFER_OVERHEAD
    ensures PushAll(s, [], [q]).error.None? && PushAll(s, [], [q]).units == Drain(s, q).units
  {
    var left := Left(Drain(s, q).status);
    assert [] + q == q && [q][1..] == [];
    PushesOn(s, [], [q]);
    assert PushAll(s, left, []) == Run([], left, None);
    assert Drain(s, q).units + [] == Drain(s, q).units;
  }

  /** A part whose body is another part and one byte more. */
  function Wrapping(s: Settings, inner: Part): Part { Part([], PrintPart(s, inner) + [0]) }

  /** What three cuts of the same bytes deliver. */
  ghost predicate CutsDiffer(s: Settings, closed: Bytes, head: Bytes, rest: Bytes, body: Bytes)
    requires s.Valid()
  {
    && Delivers(s, [closed + (head + rest)], [])
    && Delivers(s, [closed, head + rest], [])
    && Delivers(s, [closed + head, rest], [body])
    && Flatten([closed + (head + rest)]) == Flatten([closed, head + rest]) == Flatten([closed + head, rest])
  }

  ghost predicate Delivers(s: Settings, chunks: seq<Bytes>, units: seq<Bytes>)
    requires s.Valid()
  {
    PushAll(s, [], chunks).error.None? && PushAll(s, [], chunks).units == units
  }

  lemma HiddenUnit(s: Settings, closed: Bytes, head: Bytes, rest: Bytes, body: Bytes)
    requires s.Valid() && Drain(s, closed) == Drained([], Closed) && Silent(s, head + rest)
    requires Drain(s, rest).units == [body] && !Drain(s, rest).status.Failed?
    requires |closed| + |head| + |rest| <= s.maximum + MAX_BUFFER_OVERHEAD
    ensures CutsDiffer(s, closed, head, rest, body)
  {
    DrainExtends(s, closed, head);
    DrainExtends(s, closed, head + rest);
    PushedAtOnce(s, closed + (head + rest));
    PushedAfterClose(s, closed, head + rest);
    PushedAfterClose(s, closed + head, rest);
    assert [] + [body] == [body];
    FlattenTwo([], closed + (head + rest));
    FlattenTwo(closed, head + rest);
    FlattenTwo(closed + head, rest);
    Assoc(closed, head, rest);
  }

  lemma HiddenUnitIsLoud(s: Settings, closed: Bytes, head: Bytes, rest: Bytes)
    requires s.Valid() && Drain(s, closed).status.Closed? && !Silent(s, rest)
    ensures !Quiet(s, closed + (head + rest))
  {
    DrainExtends(s, closed, head);
    Assoc(closed, head, rest);
    assert (closed + head) + rest <= closed + (head + rest);
  }

  /**
   * Why quiet speaks of every stretch behind a close: here the stretch right behind it is silent, and
   * a cut right there delivers nothing, but a cut behind the unfinished head delivers the part inside
   * the unfinished body.
   */
  lemma HiddenPartIsFound(s: Settings, inner: Part)
    returns (closed: Bytes, head: Bytes, rest: Bytes)
    requires s.Valid() && inner.Valid(s) && |PrintPart(s, inner)| < s.maximum
    requires |s.delimiter| + 2 + |Head(s, Wrapping(s, inner))| + |PrintPart(s, inner)|
          <= s.maximum + MAX_BUFFER_OVERHEAD
    ensures Drain(s, closed).status.Closed? && Silent(s, head + rest) && !Quiet(s, closed + (head + rest))
    ensures CutsDiffer(s, closed, head, rest, inner.body)
  {
    closed, head, rest := s.delimiter + [DASH, DASH], Head(s, Wrapping(s, inner)), PrintPart(s, inner);
    EndDrains(s, closed);
    BodyPrefixWaits(s, Wrapping(s, inner), rest);
    InnerDrains(s, inner);
    HiddenUnit(s, closed, head, rest, inner.body);
    HiddenUnitIsLoud(s, closed, head, rest);
  }

  lemma InnerDrains(s: Settings, inner: Part)
    requires s.Valid() && inner.Valid(s)
    ensures Drain(s, PrintPart(s, inner)).units == [inner.body] && Drain(s, PrintPart(s, inner)).status.Pending?
  {
    PartTaken(s, inner, []);
    TinyWaits(s, []);
    assert PrintPart(s, inner) + [] == PrintPart(s, inner);
  }
}
