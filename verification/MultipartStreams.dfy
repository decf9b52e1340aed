/** What the parser makes of a whole stream, however the stream is cut into pushes. */
module MultipartStreams {
  import opened Bytes
  import opened ContentLength
  import opened Multipart

  // ----- searching in an extended buffer

  lemma OccursInPart(a: Bytes, b: Bytes, needle: Bytes, j: nat)
    ensures j + |needle| <= |a| ==> OccursAt(a + b, needle, j) == OccursAt(a, needle, j)
    ensures OccursAt(a + b, needle, |a| + j) == OccursAt(b, needle, j)
  {
    if j + |needle| <= |a| {
      assert (a + b)[j..j + |needle|] == a[j..j + |needle|];
    }
    if j + |needle| <= |b| {
      assert (a + b)[|a| + j..|a| + j + |needle|] == b[j..j + |needle|];
    }
  }

  /** A found needle stays found, at the same place, when bytes arrive. */
  lemma FindStable(a: Bytes, b: Bytes, needle: Bytes)
    requires needle != [] && FindBytes(a, needle).Some?
    ensures FindBytes(a + b, needle) == FindBytes(a, needle)
  {
    var r := FindBytes(a, needle);
    FoundIsFirst(a, needle);
    forall j: nat | j <= r.value
      ensures OccursAt(a + b, needle, j) == OccursAt(a, needle, j)
    {
      OccursInPart(a, b, needle, j);
    }
    assert IsFirst(a + b, needle, r);
    FindIsFirst(a + b, needle, r);
  }

  /** Bytes at which no needle starts can be dropped. */
  lemma FindShift(a: Bytes, b: Bytes, needle: Bytes)
    requires needle != []
    requires forall j: nat | j < |a| :: !OccursAt(a + b, needle, j)
    ensures
      var r := FindBytes(b, needle);
      FindBytes(a + b, needle) == if r.None? then None else Some(|a| + r.value)
  {
    var r := FindBytes(b, needle);
    var whole := if r.None? then None else Some(|a| + r.value);
    FoundIsFirst(b, needle);
    forall j: nat
      ensures OccursAt(a + b, needle, |a| + j) == OccursAt(b, needle, j)
    {
      OccursInPart(a, b, needle, j);
    }
    forall j: nat | whole.Some? ==> j < whole.value
      ensures !OccursAt(a + b, needle, j)
    {
      if j >= |a| { assert OccursAt(a + b, needle, |a| + (j - |a|)) == OccursAt(b, needle, j - |a|); }
    }
    assert IsFirst(a + b, needle, whole);
    FindIsFirst(a + b, needle, whole);
  }

  // ----- drains that differ only in bytes the parser would skip

  /** The same access units and the same kind of stop. */
  ghost predicate Same(a: Drained, b: Drained) {
    a.units == b.units && SameStop(a.status, b.status)
  }

  ghost predicate SameStop(a: Status, b: Status) {
    || (a.Pending? && b.Pending?)
    || (a.Closed? && b.Closed?)
    || (a.Failed? && b.Failed? && a.error == b.error)
  }

  lemma AfterAfter(u: seq<Bytes>, v: seq<Bytes>, d: Drained)
    ensures After(u, After(v, d)) == After(u + v, d)
  {
    Assoc(u, v, d.units);
  }

  lemma DropConcat(a: Bytes, b: Bytes, n: nat)
    requires n <= |b|
    ensures (a + b)[|a| + n..] == b[n..]
  {
  }

  lemma JunkPrefix(s: Settings, a: Bytes, b: Bytes)
    requires s.Valid()
    requires forall j: nat | j < |a| :: !OccursAt(a + b, s.delimiter, j)
    ensures Same(Drain(s, a + b), Drain(s, b))
  {
    FindShift(a, b, s.delimiter);
    var r := FindBytes(b, s.delimiter);
    if r.Some? {
      DropConcat(a, b, r.value);
      assert Next(s, a + b) == Next(s, b);
    }
  }

  /** The line break after a body is skipped or not, to the same effect. */
  lemma SkipIsHarmless(s: Settings, b: Bytes)
    requires s.Valid()
    ensures Same(Drain(s, SkipCrLf(b)), Drain(s, b))
  {
    if PairAt(b, 0, CR, LF) {
      assert b == CRLF + b[2..];
      forall j: nat | j < 2
        ensures !OccursAt(b, s.delimiter, j)
      {
        assert b[j] == CRLF[j];
        assert j + |s.delimiter| <= |b| ==> b[j..j + |s.delimiter|][0] == b[j];
      }
      JunkPrefix(s, CRLF, b[2..]);
    }
  }

  lemma SkipExtended(s: Settings, b: Bytes, e: Bytes)
    requires s.Valid()
    ensures Same(Drain(s, SkipCrLf(b + e)), Drain(s, SkipCrLf(b) + e))
  {
    if PairAt(b, 0, CR, LF) {
      assert (b + e)[2..] == b[2..] + e;
    } else {
      SkipIsHarmless(s, b + e);
    }
  }

  // ----- one pass over an extended buffer

  /** A pass that waits keeps everything from some point on, and nothing before it starts a delimiter. */
  lemma WaitingKeepsEnough(s: Settings, b: Bytes, e: Bytes)
    requires s.Valid() && Next(s, b).NeedMore?
    ensures Same(Drain(s, b + e), Drain(s, Next(s, b).buffer + e))
  {
    var d := s.delimiter;
    var rest := Next(s, b).buffer;
    var k := |b| - |rest|;
    FoundIsFirst(b, d);
    assert b[k..] == rest;
    assert b + e == b[..k] + (rest + e);
    forall j: nat | j < k
      ensures !OccursAt(b[..k] + (rest + e), d, j)
    {
      OccursInPart(b, e, d, j);
      assert !OccursAt(b, d, j);
    }
    JunkPrefix(s, b[..k], rest + e);
  }

  /** What a pass has decided, more bytes do not change. */
  ghost predicate Decided(now: Step, later: Step, e: Bytes) {
    && (now.Close? ==> later.Close?)
    && (now.Fail? && now.error != HeadersTooLarge ==> later.Fail? && later.error == now.error)
    && (now.Unit? ==> SameUnit(now, later, e))
  }

  ghost predicate SameUnit(now: Step, later: Step, e: Bytes) {
    && now.Unit? && later.Unit? && later.body == now.body
    && exists raw: Bytes :: now.rest == SkipCrLf(raw) && later.rest == SkipCrLf(raw + e)
  }

  lemma BodyExtended(s: Settings, b: Bytes, area: Bytes, e: Bytes, length: Result<nat, MultipartError>)
    ensures Decided(AtBody(s, b, area, length), AtBody(s, b + e, area + e, length), e)
  {
    if AtBody(s, b, area, length).Unit? {
      DropFromConcat(area, e, length.value);
      TakeFromConcat(area, e, length.value);
    }
  }

  lemma TakeFromConcat(a: Bytes, b: Bytes, n: nat)
    requires n <= |a|
    ensures (a + b)[..n] == a[..n]
  {
  }

  lemma HeadersExtended(s: Settings, b: Bytes, block: Bytes, e: Bytes)
    ensures Decided(AtHeaders(s, b, block), AtHeaders(s, b + e, block + e), e)
  {
    var found := FindBytes(block, TERMINATOR);
    if found.Some? {
      FindStable(block, e, TERMINATOR);
      DropFromConcat(block, e, found.value + 4);
      TakeFromConcat(block, e, found.value);
      BodyExtended(s, b, block[found.value + 4..], e, s.lengthOf(block[..found.value]));
    }
  }

  lemma DelimiterExtended(s: Settings, b: Bytes, tail: Bytes, e: Bytes)
    ensures Decided(AtDelimiter(s, b, tail), AtDelimiter(s, b + e, tail + e), e)
  {
    if |tail| >= 2 {
      DropFromConcat(tail, e, 2);
      HeadersExtended(s, b, tail[2..], e);
    }
  }

  lemma NextExtended(s: Settings, b: Bytes, e: Bytes)
    requires s.Valid()
    ensures Decided(Next(s, b), Next(s, b + e), e)
  {
    var found := FindBytes(b, s.delimiter);
    if found.Some? {
      FindStable(b, e, s.delimiter);
      DropFromConcat(b, e, found.value);
      DropFromConcat(b[found.value..], e, |s.delimiter|);
      DelimiterExtended(s, b[found.value..], b[found.value..][|s.delimiter|..], e);
    }
  }

  // ----- the loop over an extended buffer

  ghost predicate Extends(s: Settings, b: Bytes, e: Bytes)
    requires s.Valid()
  {
    var d := Drain(s, b);
    match d.status
    case Pending(rest) => Same(Drain(s, b + e), After(d.units, Drain(s, rest + e)))
    case Closed => Same(Drain(s, b + e), d)
    case Failed(error, _) => error == HeadersTooLarge || Same(Drain(s, b + e), d)
  }

  /** Draining now and draining what is left later is draining everything at once. */
  lemma {:induction false} DrainExtends(s: Settings, b: Bytes, e: Bytes)
    requires s.Valid()
    ensures Extends(s, b, e)
    decreases |b|
  {
    var now := Next(s, b);
    NextExtended(s, b, e);
    match now {
      case NeedMore(rest) =>
        WaitingKeepsEnough(s, b, e);
        assert [] + Drain(s, rest + e).units == Drain(s, rest + e).units;
      case Close =>
      case Fail(_, _) =>
      case Unit(body, rest) =>
        DrainExtends(s, rest, e);
        var raw: Bytes :| rest == SkipCrLf(raw) && Next(s, b + e).rest == SkipCrLf(raw + e);
        SkipExtended(s, raw, e);
        UnitExtends(s, b, e, body, rest);
    }
  }

  lemma UnitExtends(s: Settings, b: Bytes, e: Bytes, body: Bytes, rest: Bytes)
    requires s.Valid() && Next(s, b) == Unit(body, rest)
    requires Next(s, b + e).Unit? && Next(s, b + e).body == body
    requires Same(Drain(s, Next(s, b + e).rest), Drain(s, rest + e))
    requires Extends(s, rest, e)
    ensures Extends(s, b, e)
  {
    var later := Drain(s, Next(s, b + e).rest);
    var d := Drain(s, rest);
    assert Drain(s, b) == After([body], d);
    assert Drain(s, b + e) == After([body], later);
    if d.status.Pending? {
      AfterAfter([body], d.units, Drain(s, d.status.buffer + e));
    }
  }
}
