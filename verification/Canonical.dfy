/** The length-prefixed field encoding of `CanonicalWriter` and its unique decodability. */
module Canonical {
  import opened Bytes

  datatype CanonicalError = NameTooLong | ValueTooLong | InvalidRequestTarget

  datatype Field = Field(name: Bytes, value: Bytes)

  /** A field whose two lengths fit the four-byte prefixes. */
  predicate Fits(f: Field) {
    |f.name| <= U32_MAX && |f.value| <= U32_MAX
  }

  predicate AllFit(fields: seq<Field>) {
    forall i :: 0 <= i < |fields| ==> Fits(fields[i])
  }

  function EncodeField(f: Field): Bytes {
    BigEndian(|f.name|, 4) + f.name + BigEndian(|f.value|, 4) + f.value
  }

  /** The bytes a writer holds after a run of `push_field` calls. */
  function EncodeFields(fields: seq<Field>): Bytes {
    if fields == [] then [] else EncodeField(fields[0]) + EncodeFields(fields[1..])
  }

  /** A run of `push_field` calls on an empty writer, stopping at the first failure. */
  function Encode(fields: seq<Field>): (r: Result<Bytes, CanonicalError>)
    ensures r.Ok? <==> AllFit(fields)
    ensures r.Ok? ==> r.value == EncodeFields(fields)
  {
    if fields == [] then Ok([])
    else if |fields[0].name| > U32_MAX then Err(NameTooLong)
    else if |fields[0].value| > U32_MAX then Err(ValueTooLong)
    else
      assert fields == [fields[0]] + fields[1..];
      match Encode(fields[1..])
      case Err(e) => Err(e)
      case Ok(rest) => Ok(EncodeField(fields[0]) + rest)
  }

  lemma {:induction false} EncodeFieldsConcat(fs: seq<Field>, gs: seq<Field>)
    ensures EncodeFields(fs + gs) == EncodeFields(fs) + EncodeFields(gs)
  {
    if fs == [] {
      assert fs + gs == gs;
    } else {
      assert (fs + gs)[1..] == fs[1..] + gs;
      EncodeFieldsConcat(fs[1..], gs);
    }
  }

  /** The writer itself: bytes appended in place, nothing written by a failing push. */
  class CanonicalWriter {
    var bytes: Bytes

    constructor WithoutDomain()
      ensures bytes == EncodeFields([])
    {
      bytes := [];
    }

    method PushField(name: Bytes, value: Bytes) returns (r: Result<(), CanonicalError>)
      modifies this
      ensures r.Ok? <==> Fits(Field(name, value))
      ensures bytes == old(bytes) + if r.Ok? then EncodeField(Field(name, value)) else []
      ensures r.Err? ==> r.error == if |name| > U32_MAX then NameTooLong else ValueTooLong
    {
      if |name| > U32_MAX {
        return Err(NameTooLong);
      }
      if |value| > U32_MAX {
        return Err(ValueTooLong);
      }
      bytes := bytes + BigEndian(|name|, 4);
      bytes := bytes + name;
      bytes := bytes + BigEndian(|value|, 4);
      bytes := bytes + value;
      return Ok(());
    }
  }

  /** The chain of pushes every `canonical_bytes` performs, ended by `finish`. */
  method WriteFields(fields: seq<Field>) returns (r: Result<Bytes, CanonicalError>)
    ensures r == Encode(fields)
  {
    var writer := new CanonicalWriter.WithoutDomain();
    for i := 0 to |fields|
      invariant AllFit(fields[..i])
      invariant writer.bytes == EncodeFields(fields[..i])
    {
      assert fields[..i + 1] == fields[..i] + [fields[i]];
      EncodeFieldsConcat(fields[..i], [fields[i]]);
      var pushed := writer.PushField(fields[i].name, fields[i].value);
      if pushed.Err? {
        EncodeFirstFailure(fields, i);
        return Err(pushed.error);
      }
    }
    assert fields[..|fields|] == fields;
    return Ok(writer.bytes);
  }

  lemma {:induction false} EncodeFirstFailure(fields: seq<Field>, i: nat)
    requires i < |fields| && AllFit(fields[..i]) && !Fits(fields[i])
    ensures Encode(fields) == Err(if |fields[i].name| > U32_MAX then NameTooLong else ValueTooLong)
  {
    if i > 0 {
      assert Fits(fields[..i][0]);
      assert fields[1..][..i - 1] == fields[..i][1..];
      EncodeFirstFailure(fields[1..], i - 1);
    }
  }

  // ----- decoding: the partner that shows the encoding loses nothing

  /** Reads one length-prefixed string off the front. */
  function TakeString(b: Bytes): (r: Option<(Bytes, Bytes)>)
    ensures r.Some? ==> |r.value.1| < |b|
  {
    if |b| < 4 then None
    else
      var n := FromBigEndian(b[..4]);
      if |b| < 4 + n then None else Some((b[4..4 + n], b[4 + n..]))
  }

  function TakeField(b: Bytes): Option<(Field, Bytes)> {
    match TakeString(b)
    case None => None
    case Some((name, afterName)) =>
      match TakeString(afterName)
      case None => None
      case Some((value, rest)) => Some((Field(name, value), rest))
  }

  /** Reads `count` fields off the front and returns them with the rest. */
  function TakeFields(b: Bytes, count: nat): Option<(seq<Field>, Bytes)> {
    if count == 0 then Some(([], b))
    else
      match TakeField(b)
      case None => None
      case Some((f, rest)) =>
        match TakeFields(rest, count - 1)
        case None => None
        case Some((fields, end)) => Some(([f] + fields, end))
  }

  lemma TakeStringInverts(s: Bytes, rest: Bytes)
    requires |s| <= U32_MAX
    ensures TakeString(BigEndian(|s|, 4) + s + rest) == Some((s, rest))
  {
    PowersOf256();
    BigEndianRoundTrip(|s|, 4);
    var b := BigEndian(|s|, 4) + s + rest;
    assert b[..4] == BigEndian(|s|, 4);
    assert b[4..4 + |s|] == s;
    assert b[4 + |s|..] == rest;
  }

  lemma TakeFieldInverts(f: Field, rest: Bytes)
    requires Fits(f)
    ensures TakeField(EncodeField(f) + rest) == Some((f, rest))
  {
    var tail := BigEndian(|f.value|, 4) + f.value + rest;
    assert EncodeField(f) + rest == BigEndian(|f.name|, 4) + f.name + tail;
    TakeStringInverts(f.name, tail);
    TakeStringInverts(f.value, rest);
  }

  lemma {:induction false} TakeFieldsInverts(fields: seq<Field>, rest: Bytes)
    requires AllFit(fields)
    ensures TakeFields(EncodeFields(fields) + rest, |fields|) == Some((fields, rest))
  {
    if fields == [] {
      assert EncodeFields(fields) + rest == rest;
    } else {
      var tail := EncodeFields(fields[1..]) + rest;
      assert EncodeFields(fields) + rest == EncodeField(fields[0]) + tail;
      TakeFieldInverts(fields[0], tail);
      TakeFieldsInverts(fields[1..], rest);
      assert fields == [fields[0]] + fields[1..];
    }
  }

  /** Prefix-freeness: with the number of fields known, neither the fields nor whatever bytes
      follow them can be confused. */
  lemma FieldsPrefixFree(fs: seq<Field>, gs: seq<Field>, r: Bytes, s: Bytes)
    requires AllFit(fs) && AllFit(gs) && |fs| == |gs|
    requires EncodeFields(fs) + r == EncodeFields(gs) + s
    ensures fs == gs && r == s
  {
    TakeFieldsInverts(fs, r);
    TakeFieldsInverts(gs, s);
  }

  /** Unique decodability: whole encodings are equal only for equal field lists, whatever their
      lengths. */
  lemma {:induction false} FieldsUnique(fs: seq<Field>, gs: seq<Field>)
    requires AllFit(fs) && AllFit(gs)
    requires EncodeFields(fs) == EncodeFields(gs)
    ensures fs == gs
  {
    if |fs| <= |gs| {
      FieldsUniqueOrdered(fs, gs);
    } else {
      FieldsUniqueOrdered(gs, fs);
    }
  }

  lemma FieldsUniqueOrdered(fs: seq<Field>, gs: seq<Field>)
    requires AllFit(fs) && AllFit(gs) && |fs| <= |gs|
    requires EncodeFields(fs) == EncodeFields(gs)
    ensures fs == gs
  {
    var head, tail := gs[..|fs|], gs[|fs|..];
    EncodeFieldsConcat(head, tail);
    assert gs == head + tail;
    assert EncodeFields(fs) + [] == EncodeFields(head) + EncodeFields(tail);
    FieldsPrefixFree(fs, head, [], EncodeFields(tail));
  }
}
