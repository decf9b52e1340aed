/** The header block of one multipart part: `parse_content_length` on bytes. */
module ContentLength {
  import opened Bytes

  const CR: byte := 13
  const LF: byte := 10
  const COLON: byte := 0x3a
  const CRLF: Bytes := [13, 10]

  datatype MultipartError =
    | InvalidBoundary
    | InvalidMaximum
    | BufferTooLarge
    | HeadersTooLarge
    | MalformedBoundary
    | MissingContentLength
    | DuplicateContentLength
    | InvalidContentLength
    | EmptyAccessUnit
    | AccessUnitTooLarge(length: nat, maximum: nat)

  // ----- UTF-8 and white space, as `str` sees them

  predicate Continuation(b: byte) { 0x80 <= b < 0xc0 }

  /** Length of the well-formed UTF-8 sequence at the front, or 0. */
  function Utf8Width(v: Bytes): (r: nat)
    ensures r <= |v|
  {
    if v == [] then 0
    else if v[0] < 0x80 then 1
    else if |v| >= 2 && 0xc2 <= v[0] <= 0xdf && Continuation(v[1]) then 2
    else if |v| >= 3 && 0xe0 <= v[0] <= 0xef && Continuation(v[1]) && Continuation(v[2])
            && (v[0] == 0xe0 ==> v[1] >= 0xa0) && (v[0] == 0xed ==> v[1] < 0xa0) then 3
    else if |v| >= 4 && 0xf0 <= v[0] <= 0xf4 && Continuation(v[1]) && Continuation(v[2]) && Continuation(v[3])
            && (v[0] == 0xf0 ==> v[1] >= 0x90) && (v[0] == 0xf4 ==> v[1] < 0x90) then 4
    else 0
  }

  predicate ValidUtf8(v: Bytes) {
    v == [] || (Utf8Width(v) > 0 && ValidUtf8(v[Utf8Width(v)..]))
  }

  /** Length of the Unicode white-space character at the front, or 0. */
  function SpaceWidth(v: Bytes): (r: nat)
    ensures r <= |v|
  {
    if v == [] then 0
    else if 9 <= v[0] <= 13 || v[0] == 0x20 then 1
    else if |v| >= 2 && v[0] == 0xc2 && (v[1] == 0x85 || v[1] == 0xa0) then 2
    else if |v| >= 3 && IsWideSpace(v[0], v[1], v[2]) then 3
    else 0
  }

  predicate IsWideSpace(a: byte, b: byte, c: byte) {
    || (a == 0xe1 && b == 0x9a && c == 0x80)
    || (a == 0xe2 && b == 0x80 && (0x80 <= c <= 0x8a || c == 0xa8 || c == 0xa9 || c == 0xaf))
    || (a == 0xe2 && b == 0x81 && c == 0x9f)
    || (a == 0xe3 && b == 0x80 && c == 0x80)
  }

  function TrimStart(v: Bytes): Bytes {
    if SpaceWidth(v) == 0 then v else TrimStart(v[SpaceWidth(v)..])
  }

  /** Length of the Unicode white-space character at the end, or 0. */
  function EndWidth(v: Bytes): (r: nat)
    ensures r <= |v| && (r > 0 ==> SpaceWidth(v[|v| - r..]) == r)
  {
    var n := |v|;
    if n >= 1 && SpaceWidth(v[n - 1..]) == 1 then 1
    else if n >= 2 && SpaceWidth(v[n - 2..]) == 2 then 2
    else if n >= 3 && SpaceWidth(v[n - 3..]) == 3 then 3
    else 0
  }

  function TrimEnd(v: Bytes): Bytes {
    if EndWidth(v) == 0 then v else TrimEnd(v[..|v| - EndWidth(v)])
  }

  function Trim(v: Bytes): Bytes { TrimEnd(TrimStart(v)) }

  // ----- lines

  /** The first index of CR LF, or the length. */
  function LineEnd(v: Bytes): (r: nat)
    ensures r <= |v| && (r < |v| ==> r + 2 <= |v| && v[r] == CR && v[r + 1] == LF)
  {
    if |v| < 2 then |v| else if v[0] == CR && v[1] == LF then 0 else 1 + LineEnd(v[1..])
  }

  /** `split("\r\n")` */
  function Lines(v: Bytes): (r: seq<Bytes>)
    ensures r != []
  {
    var i := LineEnd(v);
    if i == |v| then [v] else [v[..i]] + Lines(v[i + 2..])
  }

  function Lower(b: byte): byte { if 0x41 <= b <= 0x5a then b + 32 else b }

  function LowerAll(v: Bytes): (r: Bytes)
    ensures |r| == |v|
  {
    seq(|v|, i requires 0 <= i < |v| => Lower(v[i]))
  }

  predicate NamesLength(name: Bytes) {
    LowerAll(name) == Ascii("content-length")
  }

  predicate IsDigit(b: byte) { 0x30 <= b <= 0x39 }

  predicate AllDigits(v: Bytes) {
    forall i :: 0 <= i < |v| ==> IsDigit(v[i])
  }

  function DigitsValue(v: Bytes): nat
    requires AllDigits(v)
  {
    if v == [] then 0 else DigitsValue(v[..|v| - 1]) * 10 + (v[|v| - 1] - 0x30)
  }

  /** The value of a Content-Length line: digits, inside a 64-bit `usize`. */
  function ParseLength(value: Bytes): Result<nat, MultipartError> {
    var t := Trim(value);
    if t == [] || !AllDigits(t) || DigitsValue(t) >= 0x1_0000_0000_0000_0000 then Err(InvalidContentLength)
    else Ok(DigitsValue(t))
  }

  function ParseLines(lines: seq<Bytes>, found: Option<nat>): Result<nat, MultipartError> {
    if lines == [] then if found.Some? then Ok(found.value) else Err(MissingContentLength)
    else
      match ParseLine(lines[0], found)
      case Err(e) => Err(e)
      case Ok(next) => ParseLines(lines[1..], next)
  }

  function ParseLine(line: Bytes, found: Option<nat>): Result<Option<nat>, MultipartError> {
    var i := IndexOf(line, COLON);
    if i == |line| then Err(InvalidContentLength)
    else if !NamesLength(line[..i]) then Ok(found)
    else if found.Some? then Err(DuplicateContentLength)
    else
      match ParseLength(line[i + 1..])
      case Err(e) => Err(e)
      case Ok(n) => Ok(Some(n))
  }

  function ParseContentLength(headers: Bytes): Result<nat, MultipartError> {
    if !ValidUtf8(headers) then Err(InvalidContentLength) else ParseLines(Lines(headers), None)
  }

  method ReadContentLength(headers: Bytes) returns (r: Result<nat, MultipartError>)
    ensures r == ParseContentLength(headers)
  {
    if !ValidUtf8(headers) {
      return Err(InvalidContentLength);
    }
    var contentLength: Option<nat> := None;
    var lines := Lines(headers);
    for k := 0 to |lines|
      invariant ParseContentLength(headers) == ParseLines(lines[k..], contentLength)
    {
      assert lines[k..][1..] == lines[k + 1..];
      var line := lines[k];
      var i := IndexOf(line, COLON);
      if i == |line| {
        return Err(InvalidContentLength);
      }
      if NamesLength(line[..i]) {
        if contentLength.Some? {
          return Err(DuplicateContentLength);
        }
        var length := ParseLength(line[i + 1..]);
        if length.Err? {
          return Err(length.error);
        }
        contentLength := Some(length.value);
      }
    }
    if contentLength.None? {
      return Err(MissingContentLength);
    }
    return Ok(contentLength.value);
  }

  // ----- printing: what a muxer writes

  function Decimal(n: nat): (r: Bytes)
    ensures r != [] && AllDigits(r)
  {
    if n < 10 then [0x30 + n] else Decimal(n / 10) + [0x30 + n % 10]
  }

  lemma {:induction false} DecimalValue(n: nat)
    ensures DigitsValue(Decimal(n)) == n
  {
    if n < 10 {
      assert Decimal(n)[..0] == [];
    } else {
      DecimalValue(n / 10);
      assert Decimal(n)[..|Decimal(n)| - 1] == Decimal(n / 10);
    }
  }

  lemma TrimDecimal(n: nat)
    ensures Trim([0x20] + Decimal(n)) == Decimal(n)
  {
    var d := Decimal(n);
    assert ([0x20] + d)[1..] == d;
    assert SpaceWidth([0x20] + d) == 1;
    DigitsHaveNoSpace(d);
  }

  lemma NoSpaceFront(v: Bytes)
    requires v != [] && IsDigit(v[0])
    ensures SpaceWidth(v) == 0
  {
  }

  lemma DigitsHaveNoSpace(d: Bytes)
    requires d != [] && AllDigits(d)
    ensures TrimStart(d) == d && TrimEnd(d) == d
  {
    var n := |d|;
    NoSpaceFront(d);
    NoSpaceFront(d[n - 1..]);
    if n >= 2 { NoSpaceFront(d[n - 2..]); }
    if n >= 3 { NoSpaceFront(d[n - 3..]); }
  }

  function LengthLine(n: nat): Bytes { Ascii("Content-Length") + [COLON, 0x20] + Decimal(n) }

  ghost predicate IsAscii(v: Bytes) { forall b :: b in v ==> b < 0x80 }

  /** A header line that says nothing about the length. */
  ghost predicate PlainLine(line: Bytes) {
    && line != [] && IsAscii(line) && CR !in line
    && COLON in line && !NamesLength(line[..IndexOf(line, COLON)])
  }

  lemma NameBytes()
    ensures Ascii("Content-Length") == [67, 111, 110, 116, 101, 110, 116, 45, 76, 101, 110, 103, 116, 104]
  {
  }

  lemma LowerNameBytes()
    ensures Ascii("content-length") == [99, 111, 110, 116, 101, 110, 116, 45, 108, 101, 110, 103, 116, 104]
  {
  }

  lemma LengthName()
    ensures var name := Ascii("Content-Length");
            NamesLength(name) && COLON !in name && CR !in name && IsAscii(name)
  {
    NameBytes();
    LowerNameBytes();
  }

  lemma LengthLineParses(n: nat)
    requires n < 0x1_0000_0000_0000_0000
    ensures ParseLine(LengthLine(n), None) == Ok(Some(n))
  {
    var name, value := Ascii("Content-Length"), [0x20] + Decimal(n);
    LengthName();
    assert LengthLine(n) == name + [COLON] + value;
    CutAt(name, COLON, value);
    TrimDecimal(n);
    DecimalValue(n);
  }

  lemma LengthLineBytes(n: nat)
    ensures IsAscii(LengthLine(n)) && CR !in LengthLine(n) && LengthLine(n) != []
  {
    LengthName();
    assert forall i :: 0 <= i < |Decimal(n)| ==> IsDigit(Decimal(n)[i]);
  }

  /** Lines with CR LF between them. */
  function JoinLines(lines: seq<Bytes>): Bytes
    requires lines != []
  {
    if |lines| == 1 then lines[0] else lines[0] + CRLF + JoinLines(lines[1..])
  }

  ghost predicate CleanLine(line: Bytes) { line != [] && IsAscii(line) && CR !in line }

  ghost predicate AllClean(lines: seq<Bytes>) {
    forall i :: 0 <= i < |lines| ==> CleanLine(lines[i])
  }

  lemma {:induction false} LineEndAfter(line: Bytes, rest: Bytes)
    requires CR !in line
    ensures LineEnd(line) == |line| && LineEnd(line + CRLF + rest) == |line|
  {
    if line != [] {
      assert (line + CRLF + rest)[1..] == line[1..] + CRLF + rest;
      assert line[0] in line;
      LineEndAfter(line[1..], rest);
    }
  }

  lemma LinesAfter(line: Bytes, rest: Bytes)
    requires CR !in line
    ensures Lines(line + CRLF + rest) == [line] + Lines(rest)
  {
    LineEndAfter(line, rest);
    var v := line + CRLF + rest;
    assert v[..|line|] == line && v[|line| + 2..] == rest;
  }

  lemma {:induction false} LinesInvertsJoin(lines: seq<Bytes>)
    requires lines != [] && AllClean(lines)
    ensures Lines(JoinLines(lines)) == lines
  {
    if |lines| == 1 {
      LineEndAfter(lines[0], []);
      assert lines == [lines[0]];
    } else {
      LinesAfter(lines[0], JoinLines(lines[1..]));
      LinesInvertsJoin(lines[1..]);
      assert lines == [lines[0]] + lines[1..];
    }
  }

  lemma {:induction false} AsciiIsUtf8(v: Bytes)
    requires IsAscii(v)
    ensures ValidUtf8(v)
  {
    if v != [] {
      assert v[0] in v && forall b :: b in v[1..] ==> b in v;
      AsciiIsUtf8(v[1..]);
    }
  }

  lemma {:induction false} JoinIsAscii(lines: seq<Bytes>)
    requires lines != [] && AllClean(lines)
    ensures IsAscii(JoinLines(lines))
  {
    if |lines| > 1 { JoinIsAscii(lines[1..]); }
  }

  lemma {:induction false} PlainLinesSkipped(plain: seq<Bytes>, last: Bytes)
    requires forall i :: 0 <= i < |plain| ==> PlainLine(plain[i])
    ensures ParseLines(plain + [last], None) == ParseLines([last], None)
  {
    if plain == [] {
      assert plain + [last] == [last];
    } else {
      PlainLinesSkipped(plain[1..], last);
      assert (plain + [last])[1..] == plain[1..] + [last];
      assert IndexOf(plain[0], COLON) < |plain[0]| by {
        var k :| 0 <= k < |plain[0]| && plain[0][k] == COLON;
      }
    }
  }

  /** Any plain header lines followed by the Content-Length line read back as that length. */
  lemma PrintedLengthParses(plain: seq<Bytes>, n: nat)
    requires forall i :: 0 <= i < |plain| ==> PlainLine(plain[i])
    requires n < 0x1_0000_0000_0000_0000
    ensures ParseContentLength(JoinLines(plain + [LengthLine(n)])) == Ok(n)
    ensures AllClean(plain + [LengthLine(n)])
  {
    var lines := plain + [LengthLine(n)];
    LengthLineBytes(n);
    LinesInvertsJoin(lines);
    JoinIsAscii(lines);
    AsciiIsUtf8(JoinLines(lines));
    PlainLinesSkipped(plain, LengthLine(n));
    LengthLineParses(n);
    assert [LengthLine(n)][1..] == [];
  }

  predicate HeaderError(e: MultipartError) {
    e == MissingContentLength || e == DuplicateContentLength || e == InvalidContentLength
  }

  lemma {:induction false} LineErrors(lines: seq<Bytes>, found: Option<nat>)
    ensures ParseLines(lines, found).Err? ==> HeaderError(ParseLines(lines, found).error)
  {
    if lines != [] {
      var next := ParseLine(lines[0], found);
      if next.Ok? { LineErrors(lines[1..], next.value); }
    }
  }

  /** A header block is refused only for its own content, never for a size. */
  lemma ContentLengthErrors(headers: Bytes)
    ensures ParseContentLength(headers).Err? ==> HeaderError(ParseContentLength(headers).error)
  {
    LineErrors(Lines(headers), None);
  }

  // ----- UTF-8 and white space, from the characters

  /** A Unicode scalar value. */
  predicate IsScalar(c: nat) { c < 0xd800 || 0xe000 <= c < 0x11_0000 }

  function Utf8(c: nat): (r: Bytes)
    requires IsScalar(c)
    ensures r != []
  {
    if c < 0x80 then [c]
    else if c < 0x800 then [0xc0 + c / 64, 0x80 + c % 64]
    else if c < 0x1_0000 then [0xe0 + c / 4096, 0x80 + c / 64 % 64, 0x80 + c % 64]
    else [0xf0 + c / 262144, 0x80 + c / 4096 % 64, 0x80 + c / 64 % 64, 0x80 + c % 64]
  }

  ghost predicate AllScalars(cs: seq<nat>) { forall i :: 0 <= i < |cs| ==> IsScalar(cs[i]) }

  function Utf8All(cs: seq<nat>): Bytes
    requires AllScalars(cs)
  {
    if cs == [] then [] else Utf8(cs[0]) + Utf8All(cs[1..])
  }

  lemma FrontScalar(c: nat, rest: Bytes)
    requires IsScalar(c)
    ensures Utf8Width(Utf8(c) + rest) == |Utf8(c)| && (Utf8(c) + rest)[|Utf8(c)|..] == rest
  {
    ScalarWidth(c);
    WidthOfFront(Utf8(c), rest);
  }

  lemma ScalarWidth(c: nat)
    requires IsScalar(c)
    ensures Utf8Width(Utf8(c)) == |Utf8(c)|
  {
  }

  lemma WidthOfFront(w: Bytes, rest: Bytes)
    requires w != [] && Utf8Width(w) == |w|
    ensures Utf8Width(w + rest) == |w|
  {
    assert forall i :: 0 <= i < |w| ==> (w + rest)[i] == w[i];
  }

  /** What a byte carries beyond its marker. */
  function Bits(b: byte, marker: byte): nat
    requires marker <= b
  {
    b as int - marker as int
  }

  function Decoded(v: Bytes): (c: nat)
    requires Utf8Width(v) > 0
    ensures IsScalar(c)
  {
    if Utf8Width(v) == 1 then v[0]
    else if Utf8Width(v) == 2 then Bits(v[0], 0xc0) * 64 + Bits(v[1], 0x80)
    else if Utf8Width(v) == 3 then Bits(v[0], 0xe0) * 4096 + Bits(v[1], 0x80) * 64 + Bits(v[2], 0x80)
    else Bits(v[0], 0xf0) * 262144 + Bits(v[1], 0x80) * 4096 + Bits(v[2], 0x80) * 64 + Bits(v[3], 0x80)
  }

  lemma SplitBits(a: nat, b: nat, c: nat, d: nat)
    requires a < 64 && b < 64 && c < 64 && d < 64
    ensures var x := a * 262144 + b * 4096 + c * 64 + d;
            x / 262144 == a && x / 4096 % 64 == b && x / 64 % 64 == c && x % 64 == d
  {
    var x := a * 262144 + b * 4096 + c * 64 + d;
    assert x / 64 == a * 4096 + b * 64 + c;
    assert x / 4096 == a * 64 + b;
  }

  lemma DecodedFront(v: Bytes)
    requires Utf8Width(v) > 0
    ensures v[..Utf8Width(v)] == Utf8(Decoded(v)) && v == Utf8(Decoded(v)) + v[Utf8Width(v)..]
  {
    if Utf8Width(v) == 2 {
      SplitBits(0, 0, Bits(v[0], 0xc0), Bits(v[1], 0x80));
    } else if Utf8Width(v) == 3 {
      SplitBits(0, Bits(v[0], 0xe0), Bits(v[1], 0x80), Bits(v[2], 0x80));
    } else if Utf8Width(v) == 4 {
      SplitBits(Bits(v[0], 0xf0), Bits(v[1], 0x80), Bits(v[2], 0x80), Bits(v[3], 0x80));
    }
    assert v[..Utf8Width(v)] == Utf8(Decoded(v));
  }

  /** A byte string is valid UTF-8 exactly when it spells some scalar values. */
  lemma {:induction false} ValidUtf8Iff(v: Bytes)
    ensures ValidUtf8(v) <==> exists cs: seq<nat> :: AllScalars(cs) && Utf8All(cs) == v
  {
    if ValidUtf8(v) {
      var cs := ScalarsOf(v);
      assert AllScalars(cs) && Utf8All(cs) == v;
    }
    if exists cs: seq<nat> :: AllScalars(cs) && Utf8All(cs) == v {
      var cs: seq<nat> :| AllScalars(cs) && Utf8All(cs) == v;
      SpelledIsValid(cs);
    }
  }

  lemma {:induction false} ScalarsOf(v: Bytes) returns (cs: seq<nat>)
    requires ValidUtf8(v)
    ensures AllScalars(cs) && Utf8All(cs) == v
  {
    if v == [] {
      cs := [];
    } else {
      var rest := ScalarsOf(v[Utf8Width(v)..]);
      DecodedFront(v);
      cs := [Decoded(v)] + rest;
      assert cs[1..] == rest;
    }
  }

  lemma {:induction false} SpelledIsValid(cs: seq<nat>)
    requires AllScalars(cs)
    ensures ValidUtf8(Utf8All(cs))
  {
    if cs != [] {
      SpelledIsValid(cs[1..]);
      FrontScalar(cs[0], Utf8All(cs[1..]));
    }
  }

  /** The characters of the Unicode property White_Space. */
  predicate IsSpace(c: nat) {
    || 9 <= c <= 13 || c == 0x20 || c == 0x85 || c == 0xa0 || c == 0x1680 || 0x2000 <= c <= 0x200a
    || c == 0x2028 || c == 0x2029 || c == 0x202f || c == 0x205f || c == 0x3000
  }

  ghost predicate AllSpaces(cs: seq<nat>) { forall i :: 0 <= i < |cs| ==> IsSpace(cs[i]) }

  lemma SpaceFront(c: nat, rest: Bytes)
    requires IsScalar(c)
    ensures SpaceWidth(Utf8(c) + rest) == if IsSpace(c) then |Utf8(c)| else 0
  {
    var v, w := Utf8(c) + rest, Utf8(c);
    assert forall i :: 0 <= i < |w| ==> v[i] == w[i];
  }

  lemma SpaceAtFront(v: Bytes)
    requires SpaceWidth(v) > 0
    ensures Utf8Width(v) == SpaceWidth(v) && IsSpace(Decoded(v))
  {
  }

  lemma {:induction false} Utf8Snoc(cs: seq<nat>, c: nat)
    requires AllScalars(cs) && IsScalar(c)
    ensures AllScalars(cs + [c]) && Utf8All(cs + [c]) == Utf8All(cs) + Utf8(c)
  {
    if cs == [] {
      assert cs + [c] == [c] && Utf8All([c]) == Utf8(c) + Utf8All([]) == Utf8(c);
    } else {
      Utf8Snoc(cs[1..], c);
      assert (cs + [c])[1..] == cs[1..] + [c];
    }
  }

  lemma SpaceSplit(v: Bytes) returns (c: nat)
    requires SpaceWidth(v) > 0
    ensures IsSpace(c) && SpaceWidth(v) == |Utf8(c)| && v == Utf8(c) + v[SpaceWidth(v)..]
  {
    SpaceAtFront(v);
    DecodedFront(v);
    c := Decoded(v);
  }

  lemma {:induction false} StartSpaces(v: Bytes) returns (cs: seq<nat>)
    ensures AllSpaces(cs) && AllScalars(cs) && v == Utf8All(cs) + TrimStart(v)
  {
    if SpaceWidth(v) == 0 {
      cs := [];
    } else {
      var c := SpaceSplit(v);
      var tail := v[SpaceWidth(v)..];
      var rest := StartSpaces(tail);
      cs := [c] + rest;
      assert cs[1..] == rest;
      Assoc(Utf8(c), Utf8All(rest), TrimStart(tail));
    }
  }

  lemma EndSplit(v: Bytes) returns (c: nat)
    requires EndWidth(v) > 0
    ensures IsSpace(c) && v == v[..|v| - EndWidth(v)] + Utf8(c)
  {
    var last := v[|v| - EndWidth(v)..];
    c := SpaceSplit(last);
    assert last[|last|..] == [] && Utf8(c) + [] == Utf8(c);
  }

  lemma SpaceBehind(v: Bytes, cs: seq<nat>, c: nat)
    requires AllSpaces(cs) && AllScalars(cs) && IsSpace(c)
    ensures AllSpaces(cs + [c]) && AllScalars(cs + [c])
    ensures v + Utf8All(cs) + Utf8(c) == v + Utf8All(cs + [c])
  {
    Utf8Snoc(cs, c);
    Assoc(v, Utf8All(cs), Utf8(c));
  }

  lemma {:induction false} EndSpaces(v: Bytes) returns (cs: seq<nat>)
    ensures AllSpaces(cs) && AllScalars(cs) && v == TrimEnd(v) + Utf8All(cs)
    decreases |v|
  {
    if EndWidth(v) == 0 {
      cs := [];
    } else {
      var c := EndSplit(v);
      var front := v[..|v| - EndWidth(v)];
      var rest := EndSpaces(front);
      cs := rest + [c];
      SpaceBehind(TrimEnd(front), rest, c);
    }
  }

  lemma {:induction false} TrimsStart(cs: seq<nat>, v: Bytes)
    requires AllSpaces(cs) && AllScalars(cs) && SpaceWidth(v) == 0
    ensures TrimStart(Utf8All(cs) + v) == v
  {
    if cs == [] {
      assert [] + v == v;
    } else {
      var rest := Utf8All(cs[1..]) + v;
      TrimsStart(cs[1..], v);
      SpaceFront(cs[0], rest);
      Assoc(Utf8(cs[0]), Utf8All(cs[1..]), v);
      assert (Utf8(cs[0]) + rest)[|Utf8(cs[0])|..] == rest;
    }
  }

  lemma SpaceBytes(c: nat)
    requires IsSpace(c)
    ensures |Utf8(c)| <= 3 && SpaceWidth(Utf8(c)) == |Utf8(c)|
    ensures |Utf8(c)| >= 2 ==> SpaceWidth([Utf8(c)[|Utf8(c)| - 1]]) == 0
    ensures |Utf8(c)| == 3 ==> SpaceWidth(Utf8(c)[1..]) == 0
  {
    SpaceFront(c, []);
    assert Utf8(c) + [] == Utf8(c);
  }

  lemma EndsInSpace(v: Bytes, c: nat)
    requires IsSpace(c)
    ensures EndWidth(v + Utf8(c)) == |Utf8(c)|
  {
    var w := Utf8(c);
    var u := v + w;
    SpaceBytes(c);
    assert u[|u| - |w|..] == w;
    if |w| >= 2 { assert u[|u| - 1..] == [w[|w| - 1]]; }
    if |w| == 3 { assert u[|u| - 2..] == w[1..]; }
  }

  lemma TrimsLast(v: Bytes, c: nat)
    requires IsSpace(c)
    ensures TrimEnd(v + Utf8(c)) == TrimEnd(v)
  {
    EndsInSpace(v, c);
    assert (v + Utf8(c))[..|v|] == v;
  }

  lemma {:induction false} TrimsEnd(v: Bytes, cs: seq<nat>)
    requires AllSpaces(cs) && AllScalars(cs)
    ensures TrimEnd(v + Utf8All(cs)) == TrimEnd(v)
    decreases |cs|
  {
    if cs == [] {
      assert v + [] == v;
    } else {
      var front, c := cs[..|cs| - 1], cs[|cs| - 1];
      assert cs == front + [c];
      Utf8Snoc(front, c);
      Assoc(v, Utf8All(front), Utf8(c));
      TrimsLast(v + Utf8All(front), c);
      TrimsEnd(v, front);
    }
  }

  /** Digits with white space around them. */
  ghost predicate Padded(value: Bytes, before: seq<nat>, digits: Bytes, after: seq<nat>) {
    && AllSpaces(before) && AllScalars(before) && AllSpaces(after) && AllScalars(after)
    && digits != [] && AllDigits(digits) && value == Utf8All(before) + digits + Utf8All(after)
  }

  /** A length is read exactly from digits, with any white space around them, whose number fits 64 bits. */
  lemma ParsesLengthIff(value: Bytes, n: nat)
    ensures ParseLength(value) == Ok(n) <==>
      n < 0x1_0000_0000_0000_0000 && exists before, digits, after ::
        Padded(value, before, digits, after) && DigitsValue(digits) == n
  {
    if ParseLength(value) == Ok(n) {
      var before := StartSpaces(value);
      var after := EndSpaces(TrimStart(value));
      Assoc(Utf8All(before), Trim(value), Utf8All(after));
      assert Padded(value, before, Trim(value), after);
    }
    if exists before, digits, after :: Padded(value, before, digits, after) && DigitsValue(digits) == n {
      var before, digits, after :| Padded(value, before, digits, after) && DigitsValue(digits) == n;
      PaddedTrims(value, before, digits, after);
    }
  }

  lemma PaddedTrims(value: Bytes, before: seq<nat>, digits: Bytes, after: seq<nat>)
    requires Padded(value, before, digits, after)
    ensures Trim(value) == digits
  {
    var rest := digits + Utf8All(after);
    Assoc(Utf8All(before), digits, Utf8All(after));
    NoSpaceFront(rest);
    TrimsStart(before, rest);
    TrimsEnd(digits, after);
    DigitsHaveNoSpace(digits);
  }

  // ----- which header blocks state a length

  /** The header name, in either case of each letter. */
  lemma NamesLengthIff(name: Bytes)
    ensures NamesLength(name) <==>
      |name| == 14 && forall i :: 0 <= i < 14 ==>
        name[i] as char == "content-length"[i] || name[i] as char == "CONTENT-LENGTH"[i]
  {
    var lower := Ascii("content-length");
    assert |lower| == 14;
    if |name| == 14 {
      forall i | 0 <= i < 14
        ensures Lower(name[i]) == lower[i] <==>
          name[i] as char == "content-length"[i] || name[i] as char == "CONTENT-LENGTH"[i]
      {
        assert lower[i] as char == "content-length"[i];
      }
    }
  }

  ghost predicate HasColon(line: Bytes) { 0x3a in line }

  ghost predicate IsLengthLine(line: Bytes) {
    HasColon(line) && NamesLength(line[..IndexOf(line, COLON)])
  }

  ghost predicate SaysLength(line: Bytes, n: nat) {
    IsLengthLine(line) && ParseLength(line[IndexOf(line, COLON) + 1..]) == Ok(n)
  }

  lemma ColonIndex(line: Bytes)
    ensures HasColon(line) <==> IndexOf(line, COLON) < |line|
  {
  }

  ghost predicate AllColons(lines: seq<Bytes>) {
    forall i :: 0 <= i < |lines| ==> HasColon(lines[i])
  }

  ghost predicate NoLength(lines: seq<Bytes>) {
    forall i :: 0 <= i < |lines| ==> !IsLengthLine(lines[i])
  }

  /** Exactly one element has the property, and it is a good one. */
  ghost predicate Only<T(!new)>(s: seq<T>, has: T -> bool, good: T -> bool) {
    exists k :: 0 <= k < |s| && has(s[k]) && good(s[k]) && forall j :: 0 <= j < |s| && j != k ==> !has(s[j])
  }

  lemma OnlyCons<T(!new)>(s: seq<T>, has: T -> bool, good: T -> bool)
    requires s != []
    ensures Only(s, has, good) <==>
      || (has(s[0]) && good(s[0]) && forall j :: 0 <= j < |s[1..]| ==> !has(s[1..][j]))
      || (!has(s[0]) && Only(s[1..], has, good))
  {
    var rest := s[1..];
    if Only(s, has, good) {
      var k :| 0 <= k < |s| && has(s[k]) && good(s[k]) && forall j :: 0 <= j < |s| && j != k ==> !has(s[j]);
      if k > 0 { assert rest[k - 1] == s[k]; }
    }
    if !has(s[0]) && Only(rest, has, good) {
      var k :| 0 <= k < |rest| && has(rest[k]) && good(rest[k])
               && forall j :: 0 <= j < |rest| && j != k ==> !has(rest[j]);
      forall j | 0 <= j < |s| && j != k + 1 ensures !has(s[j]) {
        if j > 0 { assert rest[j - 1] == s[j]; }
      }
      assert has(s[k + 1]) && good(s[k + 1]);
    }
    if has(s[0]) && good(s[0]) && forall j :: 0 <= j < |rest| ==> !has(rest[j]) {
      forall j | 0 <= j < |s| && j != 0 ensures !has(s[j]) {
        assert rest[j - 1] == s[j];
      }
    }
  }

  /** Exactly one line states the length, and it is `n`. */
  ghost predicate OneLength(lines: seq<Bytes>, n: nat) {
    Only(lines, IsLengthLine, line => SaysLength(line, n))
  }

  lemma {:induction false} AfterLength(lines: seq<Bytes>, found: nat)
    ensures ParseLines(lines, Some(found)).Ok? <==> AllColons(lines) && NoLength(lines)
    ensures ParseLines(lines, Some(found)).Ok? ==> ParseLines(lines, Some(found)) == Ok(found)
    ensures ParseLines(lines, Some(found)) != Err(MissingContentLength)
    ensures AllColons(lines) && !NoLength(lines) ==> ParseLines(lines, Some(found)) == Err(DuplicateContentLength)
  {
    if lines != [] {
      ColonIndex(lines[0]);
      AfterLength(lines[1..], found);
      assert lines == [lines[0]] + lines[1..];
    }
  }

  /** What a line before the first length does. */
  lemma LineStep(line: Bytes, rest: seq<Bytes>)
    ensures
      var r := ParseLines([line] + rest, None);
      if !HasColon(line) then r == Err(InvalidContentLength)
      else if !IsLengthLine(line) then r == ParseLines(rest, None)
      else
        var length := ParseLength(line[IndexOf(line, COLON) + 1..]);
        r == if length.Err? then Err(InvalidContentLength) else ParseLines(rest, Some(length.value))
  {
    ColonIndex(line);
    assert ([line] + rest)[1..] == rest;
  }

  lemma {:induction false} LacksLengthIff(lines: seq<Bytes>)
    ensures ParseLines(lines, None) == Err(MissingContentLength) <==> AllColons(lines) && NoLength(lines)
  {
    if lines != [] {
      var first, rest := lines[0], lines[1..];
      assert lines == [first] + rest;
      LineStep(first, rest);
      LacksLengthIff(rest);
      if IsLengthLine(first) {
        var length := ParseLength(first[IndexOf(first, COLON) + 1..]);
        if length.Ok? { AfterLength(rest, length.value); }
      }
    }
  }

  lemma {:induction false} ParsesLinesIff(lines: seq<Bytes>, n: nat)
    ensures ParseLines(lines, None) == Ok(n) <==> AllColons(lines) && OneLength(lines, n)
  {
    if lines != [] {
      var first, rest := lines[0], lines[1..];
      assert lines == [first] + rest;
      LineStep(first, rest);
      OnlyCons(lines, IsLengthLine, line => SaysLength(line, n));
      ParsesLinesIff(rest, n);
      if IsLengthLine(first) {
        var length := ParseLength(first[IndexOf(first, COLON) + 1..]);
        if length.Ok? { AfterLength(rest, length.value); }
      }
    }
  }

  /**
   * A header block states the length `n` exactly when it is UTF-8, every line has a colon, and exactly one
   * line is a Content-Length, with that value; it lacks one exactly when none is.
   */
  lemma StatesLengthIff(headers: Bytes, n: nat)
    ensures ParseContentLength(headers) == Ok(n) <==>
      ValidUtf8(headers) && AllColons(Lines(headers)) && OneLength(Lines(headers), n)
    ensures ParseContentLength(headers) == Err(MissingContentLength) <==>
      ValidUtf8(headers) && AllColons(Lines(headers)) && NoLength(Lines(headers))
  {
    ParsesLinesIff(Lines(headers), n);
    LacksLengthIff(Lines(headers));
  }

  /** A second Content-Length line is refused as such. */
  lemma {:induction false} DuplicateIsRefused(before: seq<Bytes>, line: Bytes, n: nat, after: seq<Bytes>)
    requires AllColons(before) && NoLength(before) && SaysLength(line, n) && AllColons(after) && !NoLength(after)
    ensures ParseLines(before + [line] + after, None) == Err(DuplicateContentLength)
  {
    if before == [] {
      assert before + [line] + after == [line] + after;
      LineStep(line, after);
      AfterLength(after, n);
    } else {
      var rest := before[1..] + [line] + after;
      assert before + [line] + after == [before[0]] + rest;
      LineStep(before[0], rest);
      DuplicateIsRefused(before[1..], line, n, after);
    }
  }
}
