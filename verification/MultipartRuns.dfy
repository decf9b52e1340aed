/** Runs of the parser over a stream cut into pushes, and when the cut makes no difference. */
module MultipartRuns {
  import opened Bytes
  import opened ContentLength
  import opened Multipart
  import opened MultipartStreams

  // ----- runs

  datatype Run = Run(units: seq<Bytes>, buffer: Bytes, error: Option<MultipartError>)

  /** Pushes chunk after chunk, stopping at the first error as the reader does. */
  function PushAll(s: Settings, buffer: Bytes, chunks: seq<Bytes>): Run
    requires s.Valid()
    decreases |chunks|
  {
    if chunks == [] then Run([], buffer, None)
    else
      var (left, result) := PushStep(s, buffer, chunks[0]);
      if result.Err? then Run([], left, Some(result.error))
      else
        var rest := PushAll(s, left, chunks[1..]);
        Run(result.value + rest.units, rest.buffer, rest.error)
  }

  function Flatten(chunks: seq<Bytes>): Bytes {
    if chunks == [] then [] else chunks[0] + Flatten(chunks[1..])
  }

  /** Some push finds more bytes than the buffer may hold. */
  predicate Overflows(s: Settings, buffer: Bytes, chunks: seq<Bytes>)
    requires s.Valid()
    decreases |chunks|
  {
    && chunks != []
    && (TooMuch(s, buffer, chunks[0])
        || (!Drain(s, buffer + chunks[0]).status.Failed?
            && Overflows(s, Left(Drain(s, buffer + chunks[0]).status), chunks[1..])))
  }

  /**
   * Whatever stretch of the stream follows a prefix that has closed, it holds no access unit and is
   * not refused. A stream that closes nowhere, or only at its end, is quiet.
   */
  ghost predicate Quiet(s: Settings, stream: Bytes)
    requires s.Valid()
  {
    forall q, y | q + y <= stream && Drain(s, q).status.Closed? :: Silent(s, y)
  }

  ghost predicate Silent(s: Settings, y: Bytes)
    requires s.Valid()
  {
    Drain(s, y).units == [] && !Drain(s, y).status.Failed?
  }

  /** Having pushed `past`, delivered `units` and kept `buffer` is as good as having the whole past in the buffer. */
  ghost predicate Follows(s: Settings, past: Bytes, units: seq<Bytes>, buffer: Bytes)
    requires s.Valid()
  {
    && Drain(s, buffer).units == [] && Drain(s, buffer).status.Pending?
    && forall e :: Same(Drain(s, past + e), After(units, Drain(s, buffer + e)))
  }

  lemma LeftoverWaits(s: Settings, b: Bytes)
    requires s.Valid() && Drain(s, b).status.Pending?
    ensures
      var left := Drain(s, Drain(s, b).status.buffer);
      left.units == [] && left.status.Pending?
  {
    var d := Drain(s, b);
    DrainExtends(s, b, []);
    assert b + [] == b && d.status.buffer + [] == d.status.buffer;
    assert |d.units| == |d.units + Drain(s, d.status.buffer).units|;
  }

  lemma FollowsPending(s: Settings, past: Bytes, units: seq<Bytes>, buffer: Bytes, chunk: Bytes)
    requires s.Valid() && Follows(s, past, units, buffer)
    requires Drain(s, buffer + chunk).status.Pending?
    ensures
      var d := Drain(s, buffer + chunk);
      Follows(s, past + chunk, units + d.units, d.status.buffer)
  {
    var d := Drain(s, buffer + chunk);
    var rest := d.status.buffer;
    LeftoverWaits(s, buffer + chunk);
    forall e
      ensures Same(Drain(s, past + chunk + e), After(units + d.units, Drain(s, rest + e)))
    {
      Assoc(past, chunk, e);
      Assoc(buffer, chunk, e);
      assert Same(Drain(s, past + (chunk + e)), After(units, Drain(s, buffer + (chunk + e))));
      DrainExtends(s, buffer + chunk, e);
      AfterAfter(units, d.units, Drain(s, rest + e));
    }
  }

  /** A push that closes or fails decides what the whole stream does. */
  lemma FollowsDecided(s: Settings, past: Bytes, units: seq<Bytes>, buffer: Bytes, chunk: Bytes, e: Bytes)
    requires s.Valid() && Follows(s, past, units, buffer)
    requires !Drain(s, buffer + chunk).status.Pending?
    ensures Same(Drain(s, past + chunk), After(units, Drain(s, buffer + chunk)))
    ensures units <= Drain(s, past + (chunk + e)).units
    ensures
      var d := Drain(s, buffer + chunk);
      d.status.Closed? || d.status.error != HeadersTooLarge ==> Same(Drain(s, past + (chunk + e)), After(units, d))
  {
    DrainExtends(s, buffer + chunk, e);
    Assoc(buffer, chunk, e);
    assert Same(Drain(s, past + (chunk + e)), After(units, Drain(s, buffer + (chunk + e))));
  }

  lemma EmptyFollows(s: Settings)
    requires s.Valid()
    ensures Follows(s, [], [], [])
  {
    forall e: Bytes
      ensures Same(Drain(s, [] + e), After([], Drain(s, [] + e)))
    {
      assert [] + Drain(s, [] + e).units == Drain(s, [] + e).units;
    }
  }

  // ----- what a run delivers, compared with draining the whole stream at once

  /** The same error, or the same units and none. */
  ghost predicate SameOutcome(s: Settings, units: seq<Bytes>, run: Run, stream: Bytes)
    requires s.Valid()
  {
    var whole := Drain(s, stream);
    match run.error
    case None => units + run.units == whole.units && !whole.status.Failed?
    case Some(e) => whole.status.Failed? && whole.status.error == e && units + run.units <= whole.units
  }

  ghost predicate HeadersOverflow(s: Settings, q: Bytes)
    requires s.Valid()
  {
    Drain(s, q).status.Failed? && Drain(s, q).status.error == HeadersTooLarge
  }

  /** The same outcome, unless a size limit cuts the run short. */
  ghost predicate AgreesWith(s: Settings, units: seq<Bytes>, run: Run, overflow: bool, stream: Bytes)
    requires s.Valid()
  {
    || SameOutcome(s, units, run, stream)
    || (run.error == Some(BufferTooLarge) && overflow)
    || (run.error == Some(HeadersTooLarge) && units + run.units <= Drain(s, stream).units
        && exists q | q <= stream :: HeadersOverflow(s, q))
  }

  lemma PrefixOf(a: Bytes, b: Bytes, c: Bytes)
    ensures a + b <= a + (b + c) && (a + b) + c == a + (b + c)
  {
  }

  /** After a close, a run over the rest of a quiet stream delivers nothing and is refused only for its size. */
  ghost predicate DeliversNothing(run: Run, overflow: bool) {
    run.units == [] && (run.error.None? || (run.error == Some(BufferTooLarge) && overflow))
  }

  /** One more push of a quiet stream that has closed: `q` is what came up to the close, `y` what came since. */
  lemma SilentPush(s: Settings, q: Bytes, y: Bytes, buffer: Bytes, chunk: Bytes, rest: Bytes)
    requires s.Valid() && Drain(s, q).status.Closed? && Follows(s, y, [], buffer)
    requires Quiet(s, q + (y + (chunk + rest)))
    ensures Silent(s, buffer + chunk) && Same(Drain(s, y + chunk), Drain(s, buffer + chunk))
    ensures Drain(s, q + (y + chunk)).status.Closed?
    ensures Quiet(s, q + ((y + chunk) + rest)) && Quiet(s, (q + (y + chunk)) + ([] + rest))
  {
    PrefixOf(y, chunk, rest);
    PrefixOf(q, y + chunk, rest);
    assert [] + rest == rest;
    assert Silent(s, y + chunk);
    assert Same(Drain(s, y + chunk), After([], Drain(s, buffer + chunk)));
    assert [] + Drain(s, buffer + chunk).units == Drain(s, buffer + chunk).units;
    DrainExtends(s, q, y + chunk);
  }

  lemma {:induction false} ClosedTail(s: Settings, q: Bytes, y: Bytes, buffer: Bytes, chunks: seq<Bytes>)
    requires s.Valid() && Drain(s, q).status.Closed? && Follows(s, y, [], buffer)
    requires Quiet(s, q + (y + Flatten(chunks)))
    ensures DeliversNothing(PushAll(s, buffer, chunks), Overflows(s, buffer, chunks))
    decreases |chunks|
  {
    if chunks != [] && !TooMuch(s, buffer, chunks[0]) {
      var chunk, rest := chunks[0], Flatten(chunks[1..]);
      SilentPush(s, q, y, buffer, chunk, rest);
      var d := Drain(s, buffer + chunk);
      if d.status.Pending? {
        FollowsPending(s, y, [], buffer, chunk);
        assert [] + d.units == [];
        ClosedTail(s, q, y + chunk, d.status.buffer, chunks[1..]);
      } else {
        EmptyFollows(s);
        ClosedTail(s, q + (y + chunk), [], [], chunks[1..]);
      }
      PushesOn(s, buffer, chunks);
    }
  }

  /** A push that is not refused hands its units on. */
  lemma PushesOn(s: Settings, buffer: Bytes, chunks: seq<Bytes>)
    requires s.Valid() && chunks != [] && !TooMuch(s, buffer, chunks[0])
    ensures
      var d := Drain(s, buffer + chunks[0]);
      var run, rest := PushAll(s, buffer, chunks), PushAll(s, Left(d.status), chunks[1..]);
      if d.status.Failed? then run.units == [] && run.error == Some(d.status.error)
      else && run.units == d.units + rest.units && run.error == rest.error
           && Overflows(s, buffer, chunks) == Overflows(s, Left(d.status), chunks[1..])
  {
  }

  lemma {:induction false} RunAgrees(s: Settings, past: Bytes, units: seq<Bytes>, buffer: Bytes, chunks: seq<Bytes>)
    requires s.Valid() && Follows(s, past, units, buffer) && Quiet(s, past + Flatten(chunks))
    ensures
      AgreesWith(s, units, PushAll(s, buffer, chunks), Overflows(s, buffer, chunks), past + Flatten(chunks))
    decreases |chunks|
  {
    if chunks == [] {
      assert past + [] == past && buffer + [] == buffer;
      assert Same(Drain(s, past + []), After(units, Drain(s, buffer + [])));
    } else if !TooMuch(s, buffer, chunks[0]) {
      var chunk, rest := chunks[0], Flatten(chunks[1..]);
      var d := Drain(s, buffer + chunk);
      PrefixOf(past, chunk, rest);
      PushesOn(s, buffer, chunks);
      if d.status.Pending? {
        FollowsPending(s, past, units, buffer, chunk);
        RunAgrees(s, past + chunk, units + d.units, d.status.buffer, chunks[1..]);
        Assoc(units, d.units, PushAll(s, d.status.buffer, chunks[1..]).units);
      } else {
        FollowsDecided(s, past, units, buffer, chunk, rest);
        if d.status.Closed? {
          ClosingPushAgrees(s, past, units, buffer, chunks);
        } else {
          assert units + [] == units;
          if d.status.error == HeadersTooLarge { assert HeadersOverflow(s, past + chunk); }
        }
      }
    }
  }

  lemma ClosingPushAgrees(s: Settings, past: Bytes, units: seq<Bytes>, buffer: Bytes, chunks: seq<Bytes>)
    requires s.Valid() && Follows(s, past, units, buffer) && Quiet(s, past + Flatten(chunks))
    requires chunks != [] && !TooMuch(s, buffer, chunks[0]) && Drain(s, buffer + chunks[0]).status.Closed?
    ensures
      AgreesWith(s, units, PushAll(s, buffer, chunks), Overflows(s, buffer, chunks), past + Flatten(chunks))
  {
    var chunk, rest := chunks[0], Flatten(chunks[1..]);
    FollowsDecided(s, past, units, buffer, chunk, rest);
    PrefixOf(past, chunk, rest);
    EmptyFollows(s);
    assert [] + rest == rest;
    ClosedTail(s, past + chunk, [], [], chunks[1..]);
    PushesOn(s, buffer, chunks);
    assert Drain(s, buffer + chunk).units + [] == Drain(s, buffer + chunk).units;
  }

  /** Any cut of a quiet stream, of any length, has the outcome of the whole, unless a size limit ends it. */
  lemma ChunkIndependence(s: Settings, chunks: seq<Bytes>)
    requires s.Valid() && Quiet(s, Flatten(chunks))
    ensures AgreesWith(s, [], PushAll(s, [], chunks), Overflows(s, [], chunks), Flatten(chunks))
  {
    EmptyFollows(s);
    assert [] + Flatten(chunks) == Flatten(chunks);
    RunAgrees(s, [], [], [], chunks);
  }

  /** No proper prefix of the stream reaches a closing delimiter. */
  ghost predicate ClosesOnlyAtEnd(s: Settings, stream: Bytes)
    requires s.Valid()
  {
    forall q | q < stream :: !Drain(s, q).status.Closed?
  }

  lemma ClosingAtEndIsQuiet(s: Settings, stream: Bytes)
    requires s.Valid() && ClosesOnlyAtEnd(s, stream)
    ensures Quiet(s, stream)
  {
    forall q, y | q + y <= stream && Drain(s, q).status.Closed?
      ensures Silent(s, y)
    {
      assert q <= stream && y == [];
    }
  }

  predicate LimitHit(run: Run) {
    run.error == Some(BufferTooLarge) || run.error == Some(HeadersTooLarge)
  }

  /** A run that agrees with a stream that is not refused delivers all of it, or hits a limit. */
  lemma AgreementDelivers(s: Settings, run: Run, overflow: bool, stream: Bytes)
    requires s.Valid() && AgreesWith(s, [], run, overflow, stream) && !Drain(s, stream).status.Failed?
    ensures LimitHit(run) || (run.error.None? && run.units == Drain(s, stream).units)
    ensures run.error == Some(HeadersTooLarge) ==> exists q | q <= stream :: HeadersOverflow(s, q)
  {
    assert [] + run.units == run.units;
  }

  /** Two cuts of a quiet stream that hit no size limit agree on the error and, without one, on the units. */
  lemma CutsAgree(s: Settings, one: seq<Bytes>, two: seq<Bytes>)
    requires s.Valid() && Flatten(one) == Flatten(two) && Quiet(s, Flatten(one))
    requires !LimitHit(PushAll(s, [], one)) && !LimitHit(PushAll(s, [], two))
    ensures PushAll(s, [], one).error == PushAll(s, [], two).error
    ensures PushAll(s, [], one).error.None? ==> PushAll(s, [], one).units == PushAll(s, [], two).units
  {
    ChunkIndependence(s, one);
    ChunkIndependence(s, two);
    var a, b := PushAll(s, [], one), PushAll(s, [], two);
    assert [] + a.units == a.units && [] + b.units == b.units;
  }

  // ----- exactly when the cut makes no difference

  lemma LeftIsShorter(s: Settings, b: Bytes)
    requires s.Valid()
    ensures |Left(Drain(s, b).status)| <= |b|
    decreases |b|
  {
    var step := Next(s, b);
    if step.Unit? { LeftIsShorter(s, step.rest); }
  }

  /** A stream that fits into the buffer whole overflows it under no cut. */
  lemma {:induction false} FittingStreamsFit(s: Settings, buffer: Bytes, chunks: seq<Bytes>)
    requires s.Valid() && |buffer| + |Flatten(chunks)| <= s.maximum + MAX_BUFFER_OVERHEAD
    ensures !Overflows(s, buffer, chunks)
    decreases |chunks|
  {
    if chunks != [] {
      LeftIsShorter(s, buffer + chunks[0]);
      FittingStreamsFit(s, Left(Drain(s, buffer + chunks[0]).status), chunks[1..]);
    }
  }

  /** A push that closes starts the rest of the run afresh. */
  lemma RestartsAfterClose(s: Settings, q: Bytes, chunks: seq<Bytes>)
    requires s.Valid() && Drain(s, q).status.Closed? && !TooMuch(s, [], q)
    ensures PushAll(s, [], [q] + chunks).units == Drain(s, q).units + PushAll(s, [], chunks).units
    ensures PushAll(s, [], [q] + chunks).error == PushAll(s, [], chunks).error
  {
    assert [] + q == q && ([q] + chunks)[1..] == chunks;
    PushesOn(s, [], [q] + chunks);
  }

  lemma LoudRun(s: Settings, y: Bytes, z: Bytes)
    requires s.Valid() && !Silent(s, y) && !TooMuch(s, [], y)
    ensures PushAll(s, [], [y, z]).error.Some? || PushAll(s, [], [y, z]).units != []
  {
    assert [] + y == y;
    PushesOn(s, [], [y, z]);
  }

  /** The cut that shows a stream is not quiet: up to the close, the stretch that is not silent, the rest. */
  lemma LoudCutDiffers(s: Settings, q: Bytes, y: Bytes, z: Bytes)
    requires s.Valid() && Drain(s, q).status.Closed? && !Silent(s, y)
    requires |q + y + z| <= s.maximum + MAX_BUFFER_OVERHEAD
    ensures !SameOutcome(s, [], PushAll(s, [], [q, y, z]), q + y + z)
  {
    Assoc(q, y, z);
    DrainExtends(s, q, y + z);
    assert [q, y, z] == [q] + [y, z];
    RestartsAfterClose(s, q, [y, z]);
    LoudRun(s, y, z);
    var run := PushAll(s, [], [q, y, z]);
    assert |[] + run.units| == |Drain(s, q).units| + |PushAll(s, [], [y, z]).units|;
  }

  lemma FlattenTwo(y: Bytes, z: Bytes)
    ensures Flatten([z]) == z && Flatten([y, z]) == y + z
  {
    assert [y, z][1..] == [z] && [z][1..] == [] && z + [] == z;
  }

  lemma FlattenThree(q: Bytes, y: Bytes, z: Bytes)
    ensures Flatten([q, y, z]) == q + y + z
  {
    FlattenTwo(y, z);
    assert [q, y, z][1..] == [y, z];
    Assoc(q, y, z);
  }

  /** Every way of cutting the stream has the outcome of the whole. */
  ghost predicate CutFree(s: Settings, stream: Bytes)
    requires s.Valid()
  {
    forall chunks | Flatten(chunks) == stream :: SameOutcome(s, [], PushAll(s, [], chunks), stream)
  }

  /** A prefix that overflows the header limit does so only where the whole stream does. */
  ghost predicate HeadersSettled(s: Settings, stream: Bytes)
    requires s.Valid()
  {
    forall q | q <= stream && HeadersOverflow(s, q) :: HeadersOverflow(s, stream)
  }

  lemma UnsettledCutDiffers(s: Settings, q: Bytes, z: Bytes)
    requires s.Valid() && HeadersOverflow(s, q) && !HeadersOverflow(s, q + z)
    requires |q + z| <= s.maximum + MAX_BUFFER_OVERHEAD
    ensures !SameOutcome(s, [], PushAll(s, [], [q, z]), q + z)
  {
    assert [] + q == q;
    PushesOn(s, [], [q, z]);
  }

  lemma QuietSettledIsCutFree(s: Settings, stream: Bytes)
    requires s.Valid() && |stream| <= s.maximum + MAX_BUFFER_OVERHEAD
    requires Quiet(s, stream) && HeadersSettled(s, stream)
    ensures CutFree(s, stream)
  {
    forall chunks | Flatten(chunks) == stream
      ensures SameOutcome(s, [], PushAll(s, [], chunks), stream)
    {
      ChunkIndependence(s, chunks);
      FittingStreamsFit(s, [], chunks);
    }
  }

  lemma CutFreeIsQuiet(s: Settings, stream: Bytes)
    requires s.Valid() && |stream| <= s.maximum + MAX_BUFFER_OVERHEAD && CutFree(s, stream)
    ensures Quiet(s, stream)
  {
    forall q, y | q + y <= stream && Drain(s, q).status.Closed?
      ensures Silent(s, y)
    {
      var z := stream[|q + y|..];
      assert stream == q + y + z;
      FlattenThree(q, y, z);
      if !Silent(s, y) { LoudCutDiffers(s, q, y, z); }
    }
  }

  lemma CutFreeIsSettled(s: Settings, stream: Bytes)
    requires s.Valid() && |stream| <= s.maximum + MAX_BUFFER_OVERHEAD && CutFree(s, stream)
    ensures HeadersSettled(s, stream)
  {
    forall q | q <= stream && HeadersOverflow(s, q)
      ensures HeadersOverflow(s, stream)
    {
      var z := stream[|q|..];
      assert stream == q + z;
      FlattenTwo(q, z);
      if !HeadersOverflow(s, stream) { UnsettledCutDiffers(s, q, z); }
    }
  }

  /**
   * For every stream that one push can take, the cut makes no difference exactly when the stream is
   * quiet and its headers are settled.
   */
  lemma CutFreeIff(s: Settings, stream: Bytes)
    requires s.Valid() && |stream| <= s.maximum + MAX_BUFFER_OVERHEAD
    ensures CutFree(s, stream) <==> Quiet(s, stream) && HeadersSettled(s, stream)
  {
    if CutFree(s, stream) {
      CutFreeIsQuiet(s, stream);
      CutFreeIsSettled(s, stream);
    } else if Quiet(s, stream) && HeadersSettled(s, stream) {
      QuietSettledIsCutFree(s, stream);
    }
  }
}
