/** Bytes, fixed-width unsigned integers and big-endian encodings shared by every component.

    A Rust `str` is modelled by its UTF-8 bytes: the modelled code only ever compares strings and
    copies their bytes, and equal bytes mean equal strings. */
module Bytes {

  type byte = b: int | 0 <= b < 256
  type Bytes = seq<byte>

  type u16 = v: int | 0 <= v < 0x1_0000
  type u32 = v: int | 0 <= v < 0x1_0000_0000
  type u64 = v: int | 0 <= v < 0x1_0000_0000_0000_0000
  type u128 = v: int | 0 <= v < 0x1_0000_0000_0000_0000_0000_0000_0000_0000

  const U32_MAX := 0xffff_ffff

  type Bytes4 = b: Bytes | |b| == 4 witness [0, 0, 0, 0]
  type Bytes32 = b: Bytes | |b| == 32 witness seq(32, i => 0)

  function Zero32(): Bytes32 { seq(32, i => 0) }

  datatype Option<+T> = None | Some(value: T)

  datatype Result<+T, +E> = Ok(value: T) | Err(error: E)

  /** The bytes of an ASCII literal. */
  function Ascii(s: string): (r: Bytes)
    ensures |r| == |s|
  {
    seq(|s|, i requires 0 <= i < |s| => (s[i] as int) % 256)
  }

  function Pow256(n: nat): (r: nat)
    ensures r > 0
  {
    if n == 0 then 1 else 256 * Pow256(n - 1)
  }

  function Pow2(k: nat): (r: nat)
    ensures r > 0
  {
    if k == 0 then 1 else 2 * Pow2(k - 1)
  }

  /** `value.to_be_bytes()` for an `n`-byte integer. */
  function BigEndian(value: nat, n: nat): (r: Bytes)
    ensures |r| == n
  {
    if n == 0 then [] else BigEndian(value / 256, n - 1) + [value % 256]
  }

  function FromBigEndian(b: Bytes): nat {
    if b == [] then 0 else FromBigEndian(b[..|b| - 1]) * 256 + b[|b| - 1]
  }

  lemma {:induction false} BigEndianRoundTrip(value: nat, n: nat)
    requires value < Pow256(n)
    ensures FromBigEndian(BigEndian(value, n)) == value
  {
    if n > 0 {
      BigEndianRoundTrip(value / 256, n - 1);
      assert BigEndian(value, n)[..n - 1] == BigEndian(value / 256, n - 1);
    }
  }

  lemma {:induction false} FromBigEndianRoundTrip(b: Bytes)
    ensures FromBigEndian(b) < Pow256(|b|)
    ensures BigEndian(FromBigEndian(b), |b|) == b
  {
    if b != [] {
      FromBigEndianRoundTrip(b[..|b| - 1]);
    }
  }

  /** The most significant byte comes first. */
  lemma {:induction false} MostSignificantFirst(b: Bytes)
    requires b != []
    ensures FromBigEndian(b) == b[0] * Pow256(|b| - 1) + FromBigEndian(b[1..])
  {
    if |b| > 1 {
      var front, last := b[..|b| - 1], b[|b| - 1];
      MostSignificantFirst(front);
      assert front[1..] == b[1..][..|b| - 2] && b[1..][|b| - 2] == last;
      assert b[0] * Pow256(|b| - 2) * 256 == b[0] * Pow256(|b| - 1) by {
        assert Pow256(|b| - 1) == 256 * Pow256(|b| - 2);
      }
    }
  }

  lemma BigEndianInjective(v: nat, w: nat, n: nat)
    requires v < Pow256(n) && w < Pow256(n)
    requires BigEndian(v, n) == BigEndian(w, n)
    ensures v == w
  {
    BigEndianRoundTrip(v, n);
    BigEndianRoundTrip(w, n);
  }

  lemma PowersOf256()
    ensures Pow256(1) == 0x100
    ensures Pow256(2) == 0x1_0000
    ensures Pow256(4) == 0x1_0000_0000
    ensures Pow256(6) == 0x1_0000_0000_0000
    ensures Pow256(8) == 0x1_0000_0000_0000_0000
    ensures Pow256(16) == 0x1_0000_0000_0000_0000_0000_0000_0000_0000
  {
  }

  /** Two concatenations with equally long heads are equal only piecewise. */
  lemma SplitEqual<T>(a: seq<T>, b: seq<T>, c: seq<T>, d: seq<T>)
    requires a + b == c + d && |a| == |c|
    ensures a == c && b == d
  {
    assert a == (a + b)[..|a|] && c == (c + d)[..|c|];
    assert b == (a + b)[|a|..] && d == (c + d)[|c|..];
  }

  lemma Regroup<T>(a: seq<T>, b: seq<T>, c: seq<T>, d: seq<T>)
    ensures a + b + c + d == a + (b + (c + d))
  {
    assert a + b + c + d == (a + b) + (c + d) == a + (b + (c + d));
  }

  lemma Assoc<T>(a: seq<T>, b: seq<T>, c: seq<T>)
    ensures a + (b + c) == (a + b) + c
  {
  }

  lemma DropFromConcat<T>(a: seq<T>, b: seq<T>, n: nat)
    requires n <= |a|
    ensures (a + b)[n..] == a[n..] + b
  {
  }

  lemma DropTwice<T>(a: seq<T>, m: nat, n: nat)
    requires m + n <= |a|
    ensures a[m..][n..] == a[m + n..]
  {
  }

  // ----- text

  predicate IsAlphanumeric(b: byte) {
    0x30 <= b <= 0x39 || 0x41 <= b <= 0x5a || 0x61 <= b <= 0x7a
  }

  // ----- splitting

  /** The first index of `sep`, or the length. */
  function IndexOf(v: Bytes, sep: byte): (r: nat)
    ensures r <= |v| && (r < |v| ==> v[r] == sep)
    ensures forall i :: 0 <= i < r ==> v[i] != sep
  {
    if v == [] || v[0] == sep then 0 else 1 + IndexOf(v[1..], sep)
  }

  lemma IndexOfUnique(v: Bytes, sep: byte, i: nat)
    requires i <= |v| && (i < |v| ==> v[i] == sep) && forall j :: 0 <= j < i ==> v[j] != sep
    ensures IndexOf(v, sep) == i
  {
  }

  ghost predicate Free(v: Bytes, sep: byte) { sep !in v }

  ghost predicate AllFree(parts: seq<Bytes>, sep: byte) {
    forall i :: 0 <= i < |parts| ==> Free(parts[i], sep)
  }

  /** The first separator after a part that has none. */
  lemma CutAt(a: Bytes, sep: byte, rest: Bytes)
    requires Free(a, sep)
    ensures IndexOf(a, sep) == |a|
    ensures var v := a + [sep] + rest;
            IndexOf(v, sep) == |a| && v[..|a|] == a && v[|a| + 1..] == rest
  {
    var v := a + [sep] + rest;
    assert forall i :: 0 <= i < |a| ==> a[i] in a;
    assert forall i :: 0 <= i < |a| ==> v[i] == a[i];
    assert v[|a|] == sep;
    IndexOfUnique(v, sep, |a|);
    IndexOfUnique(a, sep, |a|);
    assert v[..|a|] == a && v[|a| + 1..] == rest;
  }
}
