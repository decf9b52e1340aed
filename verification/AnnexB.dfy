/** The Annex B scan of ITU-T H.264 byte streams. */
module AnnexB {
  import opened Bytes

  const IDR_SLICE: byte := 5

  predicate ZeroZeroOne(v: Bytes, i: nat) {
    i + 3 <= |v| && v[i] == 0 && v[i + 1] == 0 && v[i + 2] == 1
  }

  predicate ZeroZeroZeroOne(v: Bytes, i: nat) {
    i + 4 <= |v| && v[i] == 0 && v[i + 1] == 0 && v[i + 2] == 0 && v[i + 3] == 1
  }

  /** A start code with a byte after it: a NAL unit begins at `i + 3`. */
  predicate UnitAt(v: Bytes, i: nat) { ZeroZeroOne(v, i) && i + 3 < |v| }

  /** The low five bits. */
  function NalType(header: byte): byte { header % 32 }

  /** The places, in order, from `i` on at which a start code with a following byte begins. */
  function StartsFrom(v: Bytes, i: nat): seq<nat>
    decreases |v| - i
  {
    if i + 3 >= |v| then []
    else if UnitAt(v, i) then [i] + StartsFrom(v, i + 1)
    else StartsFrom(v, i + 1)
  }

  /** The types of the units that begin from `i` on, one byte at a time. */
  function TypesFrom(v: Bytes, i: nat): seq<byte>
    decreases |v| - i
  {
    if i + 3 >= |v| then []
    else if UnitAt(v, i) then [NalType(v[i + 3])] + TypesFrom(v, i + 1)
    else TypesFrom(v, i + 1)
  }

  /** The places are in order, and are exactly the start codes with a following byte. */
  lemma {:induction false} StartsAreAllInOrder(v: Bytes, i: nat)
    ensures forall j, k :: 0 <= j < k < |StartsFrom(v, i)| ==> StartsFrom(v, i)[j] < StartsFrom(v, i)[k]
    ensures forall p: nat :: p in StartsFrom(v, i) <==> i <= p && UnitAt(v, p)
    decreases |v| - i
  {
    if i + 3 < |v| {
      StartsAreAllInOrder(v, i + 1);
      var rest := StartsFrom(v, i + 1);
      assert forall k :: 0 <= k < |rest| ==> rest[k] in rest;
    }
  }

  /** The types are those at the places, one for one. */
  lemma {:induction false} TypesAtStarts(v: Bytes, i: nat)
    ensures |TypesFrom(v, i)| == |StartsFrom(v, i)|
    ensures forall k :: 0 <= k < |StartsFrom(v, i)| ==>
      StartsFrom(v, i)[k] + 3 < |v| && TypesFrom(v, i)[k] == NalType(v[StartsFrom(v, i)[k] + 3])
    decreases |v| - i
  {
    if i + 3 < |v| { TypesAtStarts(v, i + 1); }
  }

  /** Skipping a whole start code misses nothing: none begins inside it. */
  lemma SkipStartCode(v: Bytes, i: nat)
    requires i + 3 < |v|
    ensures ZeroZeroOne(v, i) ==> TypesFrom(v, i) == [NalType(v[i + 3])] + TypesFrom(v, i + 3)
    ensures ZeroZeroZeroOne(v, i) ==>
      TypesFrom(v, i) == (if i + 4 < |v| then [NalType(v[i + 4])] else []) + TypesFrom(v, i + 4)
  {
    if ZeroZeroOne(v, i) {
      assert !UnitAt(v, i + 1) && !UnitAt(v, i + 2);
      assert TypesFrom(v, i + 1) == TypesFrom(v, i + 2) == TypesFrom(v, i + 3);
    }
    if ZeroZeroZeroOne(v, i) {
      assert !UnitAt(v, i) && !UnitAt(v, i + 2) && !UnitAt(v, i + 3);
      assert TypesFrom(v, i) == TypesFrom(v, i + 1);
      assert TypesFrom(v, i + 2) == TypesFrom(v, i + 3) == TypesFrom(v, i + 4);
    }
  }

  /** `annex_b_nal_types`, stepping over whole start codes. */
  method AnnexBNalTypes(v: Bytes) returns (types: seq<byte>)
    ensures |types| == |StartsFrom(v, 0)|
    ensures forall k :: 0 <= k < |types| ==>
      StartsFrom(v, 0)[k] + 3 < |v| && types[k] == v[StartsFrom(v, 0)[k] + 3] % 32
    ensures types == TypesFrom(v, 0)
  {
    types := [];
    var index := 0;
    while index + 3 < |v|
      invariant TypesFrom(v, 0) == types + TypesFrom(v, index)
      decreases |v| - index
    {
      SkipStartCode(v, index);
      ghost var before := types;
      var length := if ZeroZeroZeroOne(v, index) then 4 else if ZeroZeroOne(v, index) then 3 else 0;
      if length > 0 {
        if index + length < |v| {
          types := types + [NalType(v[index + length])];
          Assoc(before, [NalType(v[index + length])], TypesFrom(v, index + length));
        }
        index := index + length;
      } else {
        index := index + 1;
      }
    }
    TypesAtStarts(v, 0);
  }

  ghost predicate HasUnit(v: Bytes, nalType: byte) {
    exists p: nat :: UnitAt(v, p) && NalType(v[p + 3]) == nalType
  }

  lemma TypesDecideUnits(v: Bytes, nalType: byte)
    ensures nalType in TypesFrom(v, 0) <==> HasUnit(v, nalType)
  {
    var places, types := StartsFrom(v, 0), TypesFrom(v, 0);
    StartsAreAllInOrder(v, 0);
    TypesAtStarts(v, 0);
    if HasUnit(v, nalType) {
      var p: nat :| UnitAt(v, p) && NalType(v[p + 3]) == nalType;
      var k :| 0 <= k < |places| && places[k] == p;
      assert types[k] == nalType;
    }
    if nalType in types {
      var k :| 0 <= k < |types| && types[k] == nalType;
      assert places[k] in places;
    }
  }

  /** `contains_nal_type`: such a unit is present. */
  method ContainsNalType(v: Bytes, nalType: byte) returns (r: bool)
    ensures r <==> HasUnit(v, nalType)
  {
    var types := AnnexBNalTypes(v);
    TypesDecideUnits(v, nalType);
    r := nalType in types;
  }

  /** `is_keyframe`: an IDR slice is present. */
  method IsKeyframe(v: Bytes) returns (r: bool)
    ensures r <==> exists p: nat :: p + 3 < |v| && [0, 0, 1] <= v[p..] && v[p..][3] % 32 == 5
  {
    r := ContainsNalType(v, IDR_SLICE);
    assert r <==> HasUnit(v, IDR_SLICE);
    assert forall p: nat :: p + 3 < |v| ==> (UnitAt(v, p) <==> [0, 0, 1] <= v[p..]);
  }
}
