/** Percent-encoding normalisation (sections 6.2.2.1 and 6.2.2.2 of RFC 3986). */
module PercentEncoding {
  import opened Bytes
  import opened Canonical

  const PERCENT: byte := 0x25
  const SLASH: byte := 0x2f

  /** Letters, digits and `-._~`. */
  predicate IsUnreserved(b: byte) {
    IsAlphanumeric(b) || b == 0x2d || b == 0x2e || b == 0x5f || b == 0x7e
  }

  datatype Component = Path | Query

  /** Bytes that may stand for themselves: in a path also `/:@!$&'()*+,;=`. */
  predicate AllowedRaw(c: Component, b: byte) {
    IsUnreserved(b)
    || (c == Path && (b == SLASH || b == 0x3a || b == 0x40 || b == 0x21 || b == 0x24 || 0x26 <= b <= 0x2c
                      || b == 0x3b || b == 0x3d))
  }

  function HexNibble(b: byte): (r: Option<nat>)
    ensures r.Some? ==> r.value < 16
  {
    if 0x30 <= b <= 0x39 then Some(b - 0x30)
    else if 0x61 <= b <= 0x66 then Some(b - 0x61 + 10)
    else if 0x41 <= b <= 0x46 then Some(b - 0x41 + 10)
    else None
  }

  function HexDigit(n: nat): (r: byte)
    requires n < 16
    ensures HexNibble(r) == Some(n) && IsAlphanumeric(r)
  {
    if n < 10 then 0x30 + n else 0x41 + n - 10
  }

  function PercentEncode(b: byte): (r: Bytes)
    ensures |r| == 3
  {
    [PERCENT, HexDigit(b / 16), HexDigit(b % 16)]
  }

  // ----- what a spelling means: raw bytes and escapes

  datatype Token = Raw(raw: byte) | Escaped(escaped: byte)
  {
    function Decoded(): byte {
      match this
      case Raw(b) => b
      case Escaped(b) => b
    }

    function Print(): Bytes {
      match this
      case Raw(b) => [b]
      case Escaped(b) => PercentEncode(b)
    }
  }

  /** The first token of a non-empty spelling and its length; `None` for a broken escape. */
  function FirstToken(v: Bytes): (r: Option<(Token, nat)>)
    requires v != []
    ensures r.Some? ==> 0 < r.value.1 <= |v| && r.value.1 == |r.value.0.Print()| && r.value.0 != Raw(PERCENT)
  {
    if v[0] != PERCENT then Some((Raw(v[0]), 1))
    else if |v| < 3 then None
    else
      match (HexNibble(v[1]), HexNibble(v[2]))
      case (Some(high), Some(low)) => Some((Escaped(high * 16 + low), 3))
      case _ => None
  }

  function Tokens(v: Bytes): Option<seq<Token>> {
    if v == [] then Some([])
    else
      match FirstToken(v)
      case None => None
      case Some((t, n)) =>
        match Tokens(v[n..])
        case None => None
        case Some(ts) => Some([t] + ts)
  }

  function Print(ts: seq<Token>): Bytes {
    if ts == [] then [] else ts[0].Print() + Print(ts[1..])
  }

  /** Unreserved bytes are written raw, the others are escaped unless the component allows them. */
  function Canon(c: Component, t: Token): Token {
    match t
    case Escaped(b) => if IsUnreserved(b) then Raw(b) else t
    case Raw(b) => if AllowedRaw(c, b) then t else Escaped(b)
  }

  function CanonAll(c: Component, ts: seq<Token>): (r: seq<Token>)
    ensures |r| == |ts|
    ensures forall i :: 0 <= i < |r| ==> r[i] == Canon(c, ts[i])
  {
    seq(|ts|, i requires 0 <= i < |ts| => Canon(c, ts[i]))
  }

  function Normalize(c: Component, v: Bytes): Option<Bytes> {
    match Tokens(v)
    case None => None
    case Some(ts) => Some(Print(CanonAll(c, ts)))
  }

  function Prepend(head: Bytes, tail: Option<Bytes>): Option<Bytes> {
    if tail.None? then None else Some(head + tail.value)
  }

  lemma PrependTwice(a: Bytes, b: Bytes, tail: Option<Bytes>)
    ensures Prepend([], tail) == tail
    ensures Prepend(a, Prepend(b, tail)) == Prepend(a + b, tail)
  {
    if tail.Some? {
      assert [] + tail.value == tail.value;
      assert a + (b + tail.value) == a + b + tail.value;
    }
  }

  lemma NormalizeStep(c: Component, v: Bytes)
    requires v != []
    ensures FirstToken(v).None? ==> Normalize(c, v) == None
    ensures FirstToken(v).Some? ==>
      var (t, n) := FirstToken(v).value;
      Normalize(c, v) == Prepend(Canon(c, t).Print(), Normalize(c, v[n..]))
  {
    if FirstToken(v).Some? {
      var (t, n) := FirstToken(v).value;
      if Tokens(v[n..]).Some? {
        var ts := Tokens(v[n..]).value;
        PrintCanonCons(c, t, ts);
      }
    }
  }

  lemma PrintCanonCons(c: Component, t: Token, ts: seq<Token>)
    ensures Print(CanonAll(c, [t] + ts)) == Canon(c, t).Print() + Print(CanonAll(c, ts))
  {
    assert CanonAll(c, [t] + ts)[1..] == CanonAll(c, ts);
  }

  /** The output for the byte or escape at `index`, and how many bytes it takes. */
  method NextPiece(value: Bytes, index: nat, c: Component) returns (r: Option<(Bytes, nat)>)
    requires index < |value|
    ensures match FirstToken(value[index..])
            case None => r == None
            case Some((t, n)) => r == Some((Canon(c, t).Print(), n))
  {
    var byte := value[index];
    if byte == PERCENT {
      if index + 2 >= |value| {
        return None;
      }
      var high := HexNibble(value[index + 1]);
      var low := HexNibble(value[index + 2]);
      if high.None? || low.None? {
        return None;
      }
      var decoded := high.value * 16 + low.value;
      return Some((if IsUnreserved(decoded) then [decoded] else PercentEncode(decoded), 3));
    }
    return Some((if AllowedRaw(c, byte) then [byte] else PercentEncode(byte), 1));
  }

  method NormalizePercentEncoding(value: Bytes, c: Component) returns (r: Result<Bytes, CanonicalError>)
    ensures match Normalize(c, value)
            case None => r == Err(InvalidRequestTarget)
            case Some(normal) => r == Ok(normal)
  {
    var output: Bytes := [];
    var index := 0;
    assert value[0..] == value;
    PrependTwice([], [], Normalize(c, value));
    while index < |value|
      invariant 0 <= index <= |value|
      invariant Normalize(c, value) == Prepend(output, Normalize(c, value[index..]))
    {
      NormalizeStep(c, value[index..]);
      var next := NextPiece(value, index, c);
      if next.None? {
        return Err(InvalidRequestTarget);
      }
      var (piece, width) := next.value;
      assert value[index..][width..] == value[index + width..];
      PrependTwice(output, piece, Normalize(c, value[index + width..]));
      output := output + piece;
      index := index + width;
    }
    assert output + [] == output;
    return Ok(output);
  }

  // ----- printing and reading tokens are inverse

  ghost predicate Printable(ts: seq<Token>) {
    forall i :: 0 <= i < |ts| ==> ts[i] != Raw(PERCENT)
  }

  lemma FirstTokenOfPrint(t: Token, rest: Bytes)
    requires t != Raw(PERCENT)
    ensures t.Print() + rest != []
    ensures FirstToken(t.Print() + rest) == Some((t, |t.Print()|))
    ensures (t.Print() + rest)[|t.Print()|..] == rest
  {
    if t.Escaped? {
      var v := t.Print() + rest;
      assert v[0] == PERCENT && v[1] == HexDigit(t.escaped / 16) && v[2] == HexDigit(t.escaped % 16);
    }
  }

  lemma {:induction false} TokensInvertsPrint(ts: seq<Token>)
    requires Printable(ts)
    ensures Tokens(Print(ts)) == Some(ts)
  {
    if ts != [] {
      FirstTokenOfPrint(ts[0], Print(ts[1..]));
      TokensInvertsPrint(ts[1..]);
      assert ts == [ts[0]] + ts[1..];
    }
  }

  lemma {:induction false} PrintOfTokens(v: Bytes)
    requires Tokens(v).Some?
    ensures |Print(Tokens(v).value)| == |v| && Printable(Tokens(v).value)
  {
    if v != [] {
      var (t, n) := FirstToken(v).value;
      PrintOfTokens(v[n..]);
      assert Tokens(v).value[1..] == Tokens(v[n..]).value;
    }
  }

  lemma {:induction false} PrintConcat(ts: seq<Token>, us: seq<Token>)
    ensures Print(ts + us) == Print(ts) + Print(us)
  {
    if ts == [] {
      assert ts + us == us;
    } else {
      assert (ts + us)[1..] == ts[1..] + us;
      PrintConcat(ts[1..], us);
    }
  }

  lemma CanonPrintable(c: Component, ts: seq<Token>)
    ensures Printable(CanonAll(c, ts))
    ensures CanonAll(c, CanonAll(c, ts)) == CanonAll(c, ts)
  {
  }

  // ----- normal forms

  /** Spelled canonically already. */
  ghost predicate Normal(c: Component, v: Bytes) {
    Tokens(v).Some? && CanonAll(c, Tokens(v).value) == Tokens(v).value && Print(Tokens(v).value) == v
  }

  lemma NormalizeIsNormal(c: Component, v: Bytes)
    requires Normalize(c, v).Some?
    ensures Normal(c, Normalize(c, v).value)
    ensures Tokens(Normalize(c, v).value) == Some(CanonAll(c, Tokens(v).value))
  {
    CanonPrintable(c, Tokens(v).value);
    TokensInvertsPrint(CanonAll(c, Tokens(v).value));
  }

  /** Normalising twice is normalising once, and the normal spellings are the fixed points. */
  lemma NormalIffFixed(c: Component, v: Bytes)
    ensures Normal(c, v) <==> Normalize(c, v) == Some(v)
  {
    if Normalize(c, v) == Some(v) {
      NormalizeIsNormal(c, v);
    }
  }

  /** Two spellings normalise alike exactly when their canonical tokens are the same. */
  lemma NormalizeEqualIff(c: Component, v: Bytes, w: Bytes)
    requires Tokens(v).Some? && Tokens(w).Some?
    ensures Normalize(c, v) == Normalize(c, w) <==> CanonAll(c, Tokens(v).value) == CanonAll(c, Tokens(w).value)
  {
    NormalizeIsNormal(c, v);
    NormalizeIsNormal(c, w);
  }

  ghost predicate Spellable(c: Component, v: Bytes) {
    forall b :: b in v ==> AllowedRaw(c, b) || b == PERCENT
  }

  lemma {:induction false} PrintSpellable(c: Component, ts: seq<Token>)
    requires CanonAll(c, ts) == ts
    ensures Spellable(c, Print(ts))
  {
    if ts != [] {
      assert CanonAll(c, ts)[0] == Canon(c, ts[0]);
      assert CanonAll(c, ts[1..]) == CanonAll(c, ts)[1..];
      PrintSpellable(c, ts[1..]);
    }
  }

  /** A normal spelling uses only bytes that may stand raw, and the percent sign. */
  lemma NormalSpellable(c: Component, v: Bytes)
    requires Normal(c, v)
    ensures Spellable(c, v)
  {
    PrintSpellable(c, Tokens(v).value);
  }

  lemma FirstTokenStable(a: Bytes, b: Bytes)
    requires a != [] && FirstToken(a).Some?
    ensures FirstToken(a + b) == FirstToken(a)
  {
  }

  lemma {:induction false} TokensConcat(a: Bytes, b: Bytes)
    requires Tokens(a).Some?
    ensures Tokens(a + b).Some? <==> Tokens(b).Some?
    ensures Tokens(b).Some? ==> Tokens(a + b).value == Tokens(a).value + Tokens(b).value
  {
    if a == [] {
      assert a + b == b;
    } else {
      var (t, n) := FirstToken(a).value;
      FirstTokenStable(a, b);
      DropFromConcat(a, b, n);
      TokensConcat(a[n..], b);
      if Tokens(b).Some? {
        Assoc([t], Tokens(a[n..]).value, Tokens(b).value);
      }
    }
  }

  lemma NormalConcat(c: Component, a: Bytes, b: Bytes)
    requires Normal(c, a) && Normal(c, b)
    ensures Normal(c, a + b)
  {
    TokensConcat(a, b);
    PrintConcat(Tokens(a).value, Tokens(b).value);
    var ta, tb := Tokens(a).value, Tokens(b).value;
    assert CanonAll(c, ta + tb) == CanonAll(c, ta) + CanonAll(c, tb);
  }

  /** No escape straddles a slash, so a normal path is normal on both sides of each. */
  lemma {:induction false} TokensAtSlash(a: Bytes, b: Bytes)
    requires Tokens(a + [SLASH] + b).Some?
    ensures Tokens(a).Some? && Tokens(b).Some?
    ensures Tokens(a + [SLASH] + b).value == Tokens(a).value + [Raw(SLASH)] + Tokens(b).value
  {
    var v := a + [SLASH] + b;
    if a == [] {
      assert v == [SLASH] + b;
      assert v[1..] == b;
    } else {
      var (t, n) := FirstToken(v).value;
      assert n <= |a|;
      assert FirstToken(a) == Some((t, n));
      assert v[n..] == a[n..] + [SLASH] + b;
      TokensAtSlash(a[n..], b);
    }
  }

  lemma NormalAtSlash(c: Component, a: Bytes, b: Bytes)
    requires Normal(c, a + [SLASH] + b)
    ensures Normal(c, a) && Normal(c, b)
  {
    TokensAtSlash(a, b);
    var ta, tb := Tokens(a).value, Tokens(b).value;
    var ts := ta + [Raw(SLASH)] + tb;
    PrintOfTokens(a);
    PrintOfTokens(b);
    PrintConcat(ta + [Raw(SLASH)], tb);
    PrintConcat(ta, [Raw(SLASH)]);
    assert Print([Raw(SLASH)]) == [SLASH] + Print([]) == [SLASH];
    SplitEqual(Print(ta) + [SLASH], Print(tb), a + [SLASH], b);
    SplitEqual(Print(ta), [SLASH], a, [SLASH]);
    assert CanonAll(c, ta) == CanonAll(c, ts)[..|ta|] && ta == ts[..|ta|];
    assert CanonAll(c, tb) == CanonAll(c, ts)[|ta| + 1..] && tb == ts[|ta| + 1..];
  }

  // ----- query components: the normal form is the decoded bytes

  function DecodedAll(ts: seq<Token>): (r: Bytes)
    ensures |r| == |ts|
    ensures forall i :: 0 <= i < |r| ==> r[i] == ts[i].Decoded()
  {
    seq(|ts|, i requires 0 <= i < |ts| => ts[i].Decoded())
  }

  function Decode(v: Bytes): Option<Bytes> {
    match Tokens(v)
    case None => None
    case Some(ts) => Some(DecodedAll(ts))
  }

  /** Query components normalise alike exactly when they decode alike. */
  lemma QueryNormalIsDecoded(v: Bytes, w: Bytes)
    requires Tokens(v).Some? && Tokens(w).Some?
    ensures Normalize(Query, v) == Normalize(Query, w) <==> Decode(v) == Decode(w)
  {
    NormalizeEqualIff(Query, v, w);
    var ts, us := Tokens(v).value, Tokens(w).value;
    var cs, ds := CanonAll(Query, ts), CanonAll(Query, us);
    if cs == ds {
      forall i | 0 <= i < |ts| ensures ts[i].Decoded() == us[i].Decoded() {
        assert cs[i].Decoded() == ts[i].Decoded() && ds[i].Decoded() == us[i].Decoded();
      }
      assert DecodedAll(ts) == DecodedAll(us);
    }
    if DecodedAll(ts) == DecodedAll(us) {
      forall i | 0 <= i < |cs| ensures cs[i] == ds[i] {
        assert DecodedAll(ts)[i] == DecodedAll(us)[i];
      }
    }
  }

  // ----- the tables, spelled out

  const UPPER_DIGITS := "0123456789ABCDEF"
  const LOWER_DIGITS := "0123456789abcdef"

  ghost predicate Unreserved(c: char) {
    'A' <= c <= 'Z' || 'a' <= c <= 'z' || '0' <= c <= '9' || c == '-' || c == '.' || c == '_' || c == '~'
  }

  ghost predicate PathPunctuation(c: char) {
    || c == '/' || c == ':' || c == '@' || c == '!' || c == '$' || c == '&' || c == '\''
    || c == '(' || c == ')' || c == '*' || c == '+' || c == ',' || c == ';' || c == '='
  }

  lemma RawTables(b: byte)
    ensures IsUnreserved(b) <==> Unreserved(b as char)
    ensures AllowedRaw(Query, b) <==> Unreserved(b as char)
    ensures AllowedRaw(Path, b) <==> Unreserved(b as char) || PathPunctuation(b as char)
  {
  }

  /** Both cases of a hexadecimal digit are read, the upper case is written. */
  lemma DigitTables(n: nat, b: byte)
    requires n < 16
    ensures HexDigit(n) as char == UPPER_DIGITS[n]
    ensures HexNibble(b) == Some(n) <==> b as char == UPPER_DIGITS[n] || b as char == LOWER_DIGITS[n]
  {
  }

  ghost predicate IsHexDigit(b: byte) {
    '0' <= b as char <= '9' || 'A' <= b as char <= 'F' || 'a' <= b as char <= 'f'
  }

  lemma HexDigitRead(b: byte)
    ensures HexNibble(b).Some? <==> IsHexDigit(b)
  {
  }

  ghost predicate EscapeAt(v: Bytes, i: nat)
    requires i < |v|
  {
    v[i] as char == '%' ==> i + 2 < |v| && IsHexDigit(v[i + 1]) && IsHexDigit(v[i + 2])
  }

  /** Every percent sign is followed by two hexadecimal digits. */
  ghost predicate WellEscaped(v: Bytes) {
    forall i :: 0 <= i < |v| ==> EscapeAt(v, i)
  }

  /** Exactly the well escaped spellings are read. */
  lemma {:induction false} TokensIff(v: Bytes)
    ensures Tokens(v).Some? <==> WellEscaped(v)
  {
    if v != [] {
      if |v| >= 3 {
        HexDigitRead(v[1]);
        HexDigitRead(v[2]);
      }
      assert FirstToken(v).Some? <==> EscapeAt(v, 0);
      if FirstToken(v).Some? {
        var n := FirstToken(v).value.1;
        TokensIff(v[n..]);
        WellEscapedAfter(v, n);
      }
    }
  }

  lemma WellEscapedAfter(v: Bytes, n: nat)
    requires n <= |v| && forall i :: 0 <= i < n ==> EscapeAt(v, i)
    ensures WellEscaped(v) <==> WellEscaped(v[n..])
  {
    assert forall i :: 0 <= i < |v[n..]| ==> (EscapeAt(v[n..], i) <==> EscapeAt(v, n + i));
    if WellEscaped(v[n..]) {
      forall i | 0 <= i < |v| ensures EscapeAt(v, i) {
        if i >= n { assert EscapeAt(v[n..], i - n); }
      }
    }
  }

  /** A byte that is not a percent sign is read as itself. */
  lemma RawRead(b: byte, rest: Bytes)
    requires b as char != '%' && Tokens(rest).Some?
    ensures Tokens([b] + rest) == Some([Raw(b)] + Tokens(rest).value)
  {
    assert ([b] + rest)[1..] == rest;
  }

  /** A percent sign and two digits are read as the byte they spell. */
  lemma EscapeRead(h: byte, l: byte, high: nat, low: nat, rest: Bytes)
    requires HexNibble(h) == Some(high) && HexNibble(l) == Some(low) && Tokens(rest).Some?
    ensures Tokens([0x25, h, l] + rest) == Some([Escaped(16 * high + low)] + Tokens(rest).value)
  {
    var v := [0x25, h, l] + rest;
    assert v[0] == 0x25 && v[1] == h && v[2] == l && v[3..] == rest;
  }

  /** How a byte is written: raw if it is unreserved, or was raw and the path allows it, and else escaped. */
  lemma CanonIff(c: Component, t: Token)
    ensures Canon(c, t).Decoded() == t.Decoded()
    ensures Canon(c, t).Raw? <==>
      Unreserved(t.Decoded() as char) || (t.Raw? && c == Path && PathPunctuation(t.Decoded() as char))
  {
    RawTables(t.Decoded());
  }

  /** Normalisation succeeds on the well escaped spellings, and rewrites each token on its own. */
  lemma NormalizesIff(c: Component, v: Bytes)
    ensures Normalize(c, v).Some? <==> WellEscaped(v)
    ensures Normalize(c, v).Some? ==>
      && Tokens(v).Some? && Decode(Normalize(c, v).value) == Decode(v)
      && Tokens(Normalize(c, v).value) == Some(CanonAll(c, Tokens(v).value))
      && Normalize(c, v).value == Print(CanonAll(c, Tokens(v).value))
  {
    TokensIff(v);
    if Normalize(c, v).Some? {
      NormalizeIsNormal(c, v);
      var ts := Tokens(v).value;
      assert DecodedAll(CanonAll(c, ts)) == DecodedAll(ts);
    }
  }

  lemma PrintedToken(high: nat, low: nat, b: byte)
    requires high < 16 && low < 16
    ensures Raw(b).Print() == [b]
    ensures Escaped(16 * high + low).Print() == [0x25, UPPER_DIGITS[high] as byte, UPPER_DIGITS[low] as byte]
  {
    DigitTables(high, b);
    DigitTables(low, b);
    assert (16 * high + low) / 16 == high && (16 * high + low) % 16 == low;
  }
}
