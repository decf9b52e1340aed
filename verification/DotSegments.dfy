/** Dot-segment removal (section 5.2.4 of RFC 3986): the string rewriting loop of the code against
    a stack of segments. */
module DotSegments {
  import opened Bytes
  import opened PercentEncoding

  const DOT: Bytes := [0x2e]
  const DOTDOT: Bytes := [0x2e, 0x2e]

  // ----- segments

  /** Every segment with its leading slash. */
  function Rooted(segments: seq<Bytes>): Bytes {
    if segments == [] then [] else [SLASH] + segments[0] + Rooted(segments[1..])
  }

  predicate IsRooted(path: Bytes) { path == [] || path[0] == SLASH }

  /** The segments of a path that is empty or starts with a slash. */
  function Segments(path: Bytes): seq<Bytes>
    requires IsRooted(path)
  {
    if path == [] then []
    else
      var end := 1 + IndexOf(path[1..], SLASH);
      [path[1..end]] + Segments(path[end..])
  }

  lemma RootedCons(s: Bytes, rest: seq<Bytes>)
    ensures Rooted([s] + rest) == [SLASH] + s + Rooted(rest)
  {
    assert ([s] + rest)[1..] == rest;
  }

  lemma CutPath(path: Bytes, end: nat)
    requires path != [] && path[0] == SLASH && 1 <= end <= |path|
    ensures path == [SLASH] + path[1..end] + path[end..]
  {
  }

  lemma {:induction false} RootedInvertsSegments(path: Bytes)
    requires IsRooted(path)
    ensures Rooted(Segments(path)) == path && AllFree(Segments(path), SLASH)
    decreases |path|
  {
    if path != [] {
      var end := 1 + IndexOf(path[1..], SLASH);
      RootedInvertsSegments(path[end..]);
      RootedCons(path[1..end], Segments(path[end..]));
      CutPath(path, end);
      assert Free(path[1..end], SLASH);
    }
  }

  /** Where the first segment of a rooted path ends. */
  lemma RootedHead(segments: seq<Bytes>)
    requires segments != [] && AllFree(segments, SLASH)
    ensures var v, s := Rooted(segments), segments[0];
            && v != [] && v[0] == SLASH && 1 + |s| <= |v|
            && v[1..1 + |s|] == s
            && v[1 + |s|..] == Rooted(segments[1..])
            && IndexOf(v[1..], SLASH) == |s|
  {
    var v, s := Rooted(segments), segments[0];
    assert v[1..1 + |s|] == s && v[1 + |s|..] == Rooted(segments[1..]);
    assert |segments| > 1 ==> Rooted(segments[1..])[0] == SLASH;
    assert forall j :: 0 <= j < |s| ==> v[1..][j] == s[j] && s[j] != SLASH;
    assert |s| < |v[1..]| ==> v[1..][|s|] == Rooted(segments[1..])[0];
    IndexOfUnique(v[1..], SLASH, |s|);
  }

  lemma {:induction false} SegmentsInvertsRooted(segments: seq<Bytes>)
    requires AllFree(segments, SLASH)
    ensures IsRooted(Rooted(segments)) && Segments(Rooted(segments)) == segments
  {
    if segments != [] {
      RootedHead(segments);
      SegmentsInvertsRooted(segments[1..]);
      assert segments == [segments[0]] + segments[1..];
    }
  }

  lemma {:induction false} RootedConcat(a: seq<Bytes>, b: seq<Bytes>)
    ensures Rooted(a + b) == Rooted(a) + Rooted(b)
  {
    if a == [] {
      assert a + b == b;
    } else {
      assert (a + b)[1..] == a[1..] + b;
      RootedConcat(a[1..], b);
    }
  }

  // ----- the meaning: a stack of segments

  function Pop(stack: seq<Bytes>): seq<Bytes> {
    if stack == [] then [] else stack[..|stack| - 1]
  }

  predicate IsDots(s: Bytes) { s == DOT || s == DOTDOT }

  /** `.` stays, `..` pops, and either of them at the end leaves an empty last segment. */
  function Resolve(stack: seq<Bytes>, segments: seq<Bytes>): (r: seq<Bytes>)
    ensures segments != [] ==> r != []
    decreases |segments|
  {
    if segments == [] then stack
    else if IsDots(segments[0]) then
      var kept := if segments[0] == DOTDOT then Pop(stack) else stack;
      if |segments| == 1 then kept + [[]] else Resolve(kept, segments[1..])
    else Resolve(stack + [segments[0]], segments[1..])
  }

  ghost predicate NoDots(segments: seq<Bytes>) {
    forall i :: 0 <= i < |segments| ==> !IsDots(segments[i])
  }

  lemma {:induction false} ResolveHasNoDots(stack: seq<Bytes>, segments: seq<Bytes>)
    requires NoDots(stack)
    ensures NoDots(Resolve(stack, segments))
    decreases |segments|
  {
    if segments != [] {
      if IsDots(segments[0]) {
        if |segments| > 1 {
          ResolveHasNoDots(if segments[0] == DOTDOT then Pop(stack) else stack, segments[1..]);
        }
      } else {
        ResolveHasNoDots(stack + [segments[0]], segments[1..]);
      }
    }
  }

  lemma {:induction false} ResolveKeepsNoDots(stack: seq<Bytes>, segments: seq<Bytes>)
    requires NoDots(segments)
    ensures Resolve(stack, segments) == stack + segments
    decreases |segments|
  {
    if segments != [] {
      ResolveKeepsNoDots(stack + [segments[0]], segments[1..]);
      assert stack + [segments[0]] + segments[1..] == stack + segments;
    }
  }

  /** Resolution invents nothing but the empty last segment. */
  lemma {:induction false} ResolveFrom(stack: seq<Bytes>, segments: seq<Bytes>, ok: Bytes -> bool)
    requires ok([])
    requires forall i :: 0 <= i < |stack| ==> ok(stack[i])
    requires forall i :: 0 <= i < |segments| ==> ok(segments[i])
    ensures forall i :: 0 <= i < |Resolve(stack, segments)| ==> ok(Resolve(stack, segments)[i])
    decreases |segments|
  {
    if segments != [] {
      if IsDots(segments[0]) {
        if |segments| > 1 {
          ResolveFrom(if segments[0] == DOTDOT then Pop(stack) else stack, segments[1..], ok);
        }
      } else {
        ResolveFrom(stack + [segments[0]], segments[1..], ok);
      }
    }
  }

  /** The rewriting rules behind the stack: a dot vanishes, two dots take the segment before them along. */
  lemma {:induction false} DotsCancel(stack: seq<Bytes>, a: seq<Bytes>, s: Bytes, b: seq<Bytes>)
    requires NoDots(a) && !IsDots(s) && b != []
    ensures Resolve(stack, a + [[0x2e]] + b) == Resolve(stack, a + b)
    ensures Resolve(stack, a + [s, [0x2e, 0x2e]] + b) == Resolve(stack, a + b)
    ensures Resolve(stack, a + [[0x2e]]) == stack + a + [[]]
    ensures Resolve(stack, a + [s, [0x2e, 0x2e]]) == stack + a + [[]]
    ensures Resolve([], [[0x2e, 0x2e]] + b) == Resolve([], b) && Resolve([], [[0x2e, 0x2e]]) == [[]]
  {
    ResolveThrough(stack, a, b);
    ResolveThrough(stack, a, [[0x2e]] + b);
    ResolveThrough(stack, a, [s, [0x2e, 0x2e]] + b);
    ResolveThrough(stack, a, [[0x2e]]);
    ResolveThrough(stack, a, [s, [0x2e, 0x2e]]);
    Assoc(a, [[0x2e]], b);
    Assoc(a, [s, [0x2e, 0x2e]], b);
    var stack' := stack + a;
    assert Pop(stack' + [s]) == stack';
    assert ([[0x2e]] + b)[1..] == b && ([[0x2e, 0x2e]] + b)[1..] == b;
    assert ([s, [0x2e, 0x2e]] + b)[1..] == [[0x2e, 0x2e]] + b;
    assert [s, [0x2e, 0x2e]][1..] == [[0x2e, 0x2e]];
  }

  lemma {:induction false} ResolveThrough(stack: seq<Bytes>, a: seq<Bytes>, b: seq<Bytes>)
    requires NoDots(a)
    ensures Resolve(stack, a + b) == Resolve(stack + a, b)
    decreases |a|
  {
    if a == [] {
      assert a + b == b && stack + a == stack;
    } else {
      ResolveThrough(stack + [a[0]], a[1..], b);
      assert (a + b)[1..] == a[1..] + b && stack + [a[0]] + a[1..] == stack + a;
    }
  }

  // ----- the loop

  predicate StartsWith(v: Bytes, prefix: Bytes) {
    |prefix| <= |v| && v[..|prefix|] == prefix
  }

  /** `output.truncate(output.rfind('/').unwrap_or(0))` */
  function RemoveLastSegment(output: Bytes): Bytes {
    if output == [] then []
    else if output[|output| - 1] == SLASH then output[..|output| - 1]
    else RemoveLastSegment(output[..|output| - 1])
  }

  lemma {:induction false} RemoveLastStops(a: Bytes, s: Bytes)
    requires Free(s, SLASH)
    ensures RemoveLastSegment(a + [SLASH] + s) == a
  {
    var v := a + [SLASH] + s;
    if s == [] {
      assert v[..|v| - 1] == a;
    } else {
      assert v[..|v| - 1] == a + [SLASH] + s[..|s| - 1];
      assert v[|v| - 1] == s[|s| - 1];
      RemoveLastStops(a, s[..|s| - 1]);
    }
  }

  lemma RemoveLastPops(stack: seq<Bytes>)
    requires AllFree(stack, SLASH)
    ensures RemoveLastSegment(Rooted(stack)) == Rooted(Pop(stack))
  {
    if stack != [] {
      var last := stack[|stack| - 1];
      RootedConcat(Pop(stack), [last]);
      assert stack == Pop(stack) + [last];
      assert Rooted([last]) == [SLASH] + last + Rooted([]) == [SLASH] + last;
      assert Rooted(stack) == Rooted(Pop(stack)) + [SLASH] + last;
      RemoveLastStops(Rooted(Pop(stack)), last);
    }
  }

  /** The two string tests for a segment `w` at the front are tests on the first segment. */
  lemma FrontSegment(segments: seq<Bytes>, w: Bytes)
    requires segments != [] && AllFree(segments, SLASH) && Free(w, SLASH)
    ensures StartsWith(Rooted(segments), [SLASH] + w + [SLASH]) <==> |segments| > 1 && segments[0] == w
    ensures Rooted(segments) == [SLASH] + w <==> segments == [w]
  {
    RootedHead(segments);
    var v, s, tail := Rooted(segments), segments[0], Rooted(segments[1..]);
    assert v == [SLASH] + s + tail;
    if |segments| > 1 {
      assert tail[0] == SLASH;
    }
    if StartsWith(v, [SLASH] + w + [SLASH]) {
      IndexOfAfter(v, w);
    }
    if v == [SLASH] + w {
      IndexOfUnique(w, SLASH, |w|);
      assert v[1..] == w;
      assert s == w && tail == [];
    }
    if |segments| == 1 {
      assert tail == [] && segments == [s];
    }
  }

  lemma IndexOfAfter(v: Bytes, w: Bytes)
    requires StartsWith(v, [SLASH] + w + [SLASH]) && Free(w, SLASH)
    ensures v[1..1 + |w|] == w && IndexOf(v[1..], SLASH) == |w|
  {
    var p := [SLASH] + w + [SLASH];
    assert forall j :: 0 <= j < |p| ==> v[j] == v[..|p|][j] == p[j];
    assert forall j :: 0 <= j < |w| ==> v[1..][j] == p[1 + j] == w[j];
    assert v[1..][|w|] == p[1 + |w|] == SLASH;
    IndexOfUnique(v[1..], SLASH, |w|);
    assert v[1..1 + |w|] == w;
  }

  /** One pass of the loop body over what is left of the input and the output so far. */
  function Rewrite(input: Bytes, output: Bytes): (r: (Bytes, Bytes))
    requires input != []
    ensures |r.0| < |input|
  {
    if StartsWith(input, DOTDOT + [SLASH]) then (input[3..], output)
    else if StartsWith(input, DOT + [SLASH]) then (input[2..], output)
    else if StartsWith(input, [SLASH] + DOT + [SLASH]) then ([SLASH] + input[3..], output)
    else if input == [SLASH] + DOT then ([SLASH], output)
    else if StartsWith(input, [SLASH] + DOTDOT + [SLASH]) then ([SLASH] + input[4..], RemoveLastSegment(output))
    else if input == [SLASH] + DOTDOT then ([SLASH], RemoveLastSegment(output))
    else if input == DOT || input == DOTDOT then ([], output)
    else
      var end := if input[0] == SLASH then 1 + IndexOf(input[1..], SLASH) else IndexOf(input, SLASH);
      (input[end..], output + input[..end])
  }

  /** The loop run to its end. */
  function Removed(input: Bytes, output: Bytes): Bytes
    decreases |input|
  {
    if input == [] then output
    else Removed(Rewrite(input, output).0, Rewrite(input, output).1)
  }

  method RemoveDotSegments(value: Bytes) returns (output: Bytes)
    ensures output == Removed(value, [])
  {
    var input := value;
    output := [];
    while input != []
      invariant Removed(input, output) == Removed(value, [])
      decreases |input|
    {
      ghost var before := (input, output);
      if StartsWith(input, DOTDOT + [SLASH]) {
        input := input[3..];
      } else if StartsWith(input, DOT + [SLASH]) {
        input := input[2..];
      } else if StartsWith(input, [SLASH] + DOT + [SLASH]) {
        input := [SLASH] + input[3..];
      } else if input == [SLASH] + DOT {
        input := [SLASH];
      } else if StartsWith(input, [SLASH] + DOTDOT + [SLASH]) {
        input := [SLASH] + input[4..];
        output := RemoveLastSegment(output);
      } else if input == [SLASH] + DOTDOT {
        input := [SLASH];
        output := RemoveLastSegment(output);
      } else if input == DOT || input == DOTDOT {
        input := [];
      } else {
        var end := if input[0] == SLASH then 1 + IndexOf(input[1..], SLASH) else IndexOf(input, SLASH);
        output := output + input[..end];
        input := input[end..];
      }
      assert (input, output) == Rewrite(before.0, before.1);
    }
  }

  // ----- the loop computes the stack

  lemma RewriteDots(stack: seq<Bytes>, segments: seq<Bytes>)
    requires segments != [] && AllFree(segments, SLASH) && AllFree(stack, SLASH) && IsDots(segments[0])
    ensures var kept := if segments[0] == DOTDOT then Pop(stack) else stack;
            Rewrite(Rooted(segments), Rooted(stack))
            == (if |segments| == 1 then [SLASH] else Rooted(segments[1..]), Rooted(kept))
  {
    FrontSegment(segments, DOT);
    FrontSegment(segments, DOTDOT);
    RemoveLastPops(stack);
    RootedHead(segments);
    if |segments| > 1 {
      DropFront(segments, segments[0]);
    }
  }

  lemma RewriteOther(stack: seq<Bytes>, segments: seq<Bytes>)
    requires segments != [] && AllFree(segments, SLASH) && AllFree(stack, SLASH) && !IsDots(segments[0])
    ensures Rewrite(Rooted(segments), Rooted(stack)) == (Rooted(segments[1..]), Rooted(stack + [segments[0]]))
  {
    FrontSegment(segments, DOT);
    FrontSegment(segments, DOTDOT);
    MoveFront(stack, segments);
    RootedHead(segments);
  }

  lemma {:induction false} RemovedIsResolved(stack: seq<Bytes>, segments: seq<Bytes>)
    requires AllFree(segments, SLASH) && AllFree(stack, SLASH)
    ensures Removed(Rooted(segments), Rooted(stack)) == Rooted(Resolve(stack, segments))
    decreases |segments|, segments != [] && IsDots(segments[0])
  {
    if segments != [] {
      RootedHead(segments);
      if IsDots(segments[0]) {
        var kept := if segments[0] == DOTDOT then Pop(stack) else stack;
        RewriteDots(stack, segments);
        if |segments| == 1 {
          assert Rooted([[]]) == [SLASH];
          RemovedIsResolved(kept, [[]]);
          ResolveKeepsNoDots(kept, [[]]);
        } else {
          RemovedIsResolved(kept, segments[1..]);
        }
      } else {
        RewriteOther(stack, segments);
        RemovedIsResolved(stack + [segments[0]], segments[1..]);
      }
    }
  }

  /** On a path that starts with a slash, the rewriting loop is the fold over segments. */
  lemma RemovedOnRooted(path: Bytes)
    requires path != [] && path[0] == SLASH
    ensures Removed(path, []) == Rooted(Resolve([], Segments(path)))
  {
    RootedInvertsSegments(path);
    RemovedIsResolved([], Segments(path));
  }

  lemma DropFront(segments: seq<Bytes>, w: Bytes)
    requires |segments| > 1 && AllFree(segments, SLASH) && segments[0] == w
    ensures 2 + |w| <= |Rooted(segments)|
    ensures [SLASH] + Rooted(segments)[2 + |w|..] == Rooted(segments[1..])
  {
    RootedHead(segments);
    var v, tail := Rooted(segments), Rooted(segments[1..]);
    assert tail == [SLASH] + tail[1..];
    assert v[2 + |w|..] == v[1 + |w|..][1..];
  }

  lemma MoveFront(stack: seq<Bytes>, segments: seq<Bytes>)
    requires segments != [] && AllFree(segments, SLASH) && AllFree(stack, SLASH)
    ensures 1 + |segments[0]| <= |Rooted(segments)|
    ensures Rooted(stack) + Rooted(segments)[..1 + |segments[0]|] == Rooted(stack + [segments[0]])
    ensures AllFree(stack + [segments[0]], SLASH) && AllFree(segments[1..], SLASH)
  {
    RootedHead(segments);
    var s := segments[0];
    RootedConcat(stack, [s]);
    assert Rooted([s]) == [SLASH] + s + Rooted([]) == [SLASH] + s;
    assert Rooted(segments)[..1 + |s|] == [SLASH] + s;
  }

  // ----- the result is a fixed point

  /** Dot removal on a rooted path: non-empty, rooted, free of dot segments, and changed by no
      further removal. */
  lemma DotFreeIsFixed(path: Bytes)
    requires path != [] && path[0] == SLASH
    ensures var segments := Resolve([], Segments(path));
            && segments != [] && NoDots(segments) && AllFree(segments, SLASH)
            && Rooted(segments)[0] == SLASH
            && Segments(Rooted(segments)) == segments
            && Resolve([], segments) == segments
  {
    RootedInvertsSegments(path);
    var segments := Resolve([], Segments(path));
    ResolveHasNoDots([], Segments(path));
    ResolveFrom([], Segments(path), s => SLASH !in s);
    SegmentsInvertsRooted(segments);
    ResolveKeepsNoDots([], segments);
    assert [] + segments == segments;
  }

  /** Dot removal keeps a path percent-normalised. */
  lemma DotRemovalKeepsNormal(path: Bytes)
    requires path != [] && path[0] == SLASH && Normal(Path, path)
    ensures Normal(Path, Rooted(Resolve([], Segments(path))))
  {
    RootedInvertsSegments(path);
    PartsNormal(Segments(path));
    SlashNormal();
    ResolveFrom([], Segments(path), s => Normal(Path, s));
    RootedNormal(Resolve([], Segments(path)));
  }

  ghost predicate AllNormal(segments: seq<Bytes>) {
    forall i :: 0 <= i < |segments| ==> Normal(Path, segments[i])
  }

  lemma SlashNormal()
    ensures Normal(Path, [SLASH]) && Normal(Path, [])
  {
    TokensInvertsPrint([Raw(SLASH)]);
    assert Print([Raw(SLASH)]) == [SLASH] + Print([]) == [SLASH];
  }

  lemma {:induction false} PartsNormal(segments: seq<Bytes>)
    requires Normal(Path, Rooted(segments))
    ensures AllNormal(segments)
  {
    if segments != [] {
      var s, tail := segments[0], Rooted(segments[1..]);
      assert Rooted(segments) == [] + [SLASH] + (s + tail);
      NormalAtSlash(Path, [], s + tail);
      if |segments| == 1 {
        assert s + tail == s;
      } else {
        NormalCut(s, tail);
        PartsNormal(segments[1..]);
      }
    }
  }

  lemma NormalCut(s: Bytes, tail: Bytes)
    requires tail != [] && tail[0] == SLASH && Normal(Path, s + tail)
    ensures Normal(Path, s) && Normal(Path, tail)
  {
    assert s + tail == s + [SLASH] + tail[1..];
    NormalAtSlash(Path, s, tail[1..]);
    SlashNormal();
    NormalConcat(Path, [SLASH], tail[1..]);
    assert tail == [SLASH] + tail[1..];
  }

  lemma {:induction false} RootedNormal(segments: seq<Bytes>)
    requires AllNormal(segments)
    ensures Normal(Path, Rooted(segments))
  {
    SlashNormal();
    if segments != [] {
      RootedNormal(segments[1..]);
      NormalConcat(Path, [SLASH], segments[0]);
      NormalConcat(Path, [SLASH] + segments[0], Rooted(segments[1..]));
    }
  }
}
