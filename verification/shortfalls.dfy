/** Where the codec does less than it promises: inputs it accepts and does not give back. */
module Shortfalls {
  import opened Bits
  import opened Common
  import opened BitCopy
  import opened Encoding
  import opened Decoding
  import opened RoundTrip
  import opened IntegerRoundTrip
  import opened WholeValue

  // ---------- strings ----------

  /** Any OCTET STRING of 65536 octets is written as the empty one. */
  lemma LongStringVanishes(bytes: seq<bv8>)
    requires |bytes| == 65536
    ensures PutField([], OctetStringType, PLAIN, OctetStringValue(bytes))
         == PutField([], OctetStringType, PLAIN, OctetStringValue([]))
    ensures !Agrees(OctetStringType, PLAIN, OctetStringValue(bytes))
  {
    hide PutLength, Unpack;
  }

  /** 16385 octets under SIZE(1..MAX): written, and the decoder goes on past them for another fragment. */
  lemma WholeFragmentOverBound(s: BitSeq, bytes: seq<bv8>, d: BitSeq)
    requires |bytes| == 16385 && |d| % 8 == 0
    ensures PutOctetString(s, bytes, false, Some(1), None).Ok?
    ensures
      var r := PutOctetString(s, bytes, false, Some(1), None).value;
      r <= d ==> !Returns(GetString(d, |s|, 8, false, Some(1), None), bytes, 16385, 8, |r|)
  {
    hide PutFragments, GetFragments, PutLength, Align, Unpack, Returns;
    OneFragment(s, bytes);
    if PutOctetString(s, bytes, false, Some(1), None).value <= d {
      StringBack(s, bytes, 16385, 8, false, Some(1), None, d);
    }
  }

  lemma OneFragment(s: BitSeq, bytes: seq<bv8>)
    requires |bytes| == 16385
    ensures PutFragments(s, bytes, 0, 16384, 1, -1, 8).Ok?
    ensures PutOctetString(s, bytes, false, Some(1), None) == PutFragments(s, bytes, 0, 16384, 1, -1, 8)
  {
    hide Align, Unpack;
    assert s + [] == s;
    assert PutLength(s, -1, 16384).Ok? by { Pow2Values(); }
  }

  /** 16386 octets under SIZE(1..MAX): the second fragment adds the lower bound again and runs out of octets. */
  lemma SecondFragmentOverBound(s: BitSeq, bytes: seq<bv8>)
    requires |bytes| == 16386
    ensures PutOctetString(s, bytes, false, Some(1), None).Err?
  {
    hide PutFragments;
    assert s + [] == s;
    SecondPieceFails(s, bytes, 0, 16385, 1, -1, 8);
  }

  /** 20000 octets under SIZE(0..65535): written as two fragments, of which the decoder reads the first. */
  lemma BoundedStringCut(s: BitSeq, bytes: seq<bv8>, d: BitSeq)
    requires |bytes| == 20000 && |d| % 8 == 0
    ensures PutOctetString(s, bytes, false, Some(0), Some(65535)).Ok?
    ensures
      PutOctetString(s, bytes, false, Some(0), Some(65535)).value <= d ==>
        var c := GetString(d, |s|, 8, false, Some(0), Some(65535));
        c.Got? && c.value.n == 16384 && c.value.bytes == bytes[..16384]
  {
    hide PutLength, Align, Unpack, PutFragments, GetFragments;
    TwoFragments(s, bytes);
    if PutOctetString(s, bytes, false, Some(0), Some(65535)).value <= d {
      var piece := bytes[..16384];
      var s2 := Align(PutLength(s, 65536, 16384).value) + Unpack(piece);
      PrefixThrough(s2, PutOctetString(s, bytes, false, Some(0), Some(65535)).value, d);
      OnlyThosePieces(s, piece, 65536, d, Content([], 0));
      assert [] + piece == piece;
    }
  }

  lemma BoundedLength(s: BitSeq, n: nat)
    requires n < 65536
    ensures PutLength(s, 65536, n).Ok?
  {
    hide Align;
    Pow2Values();
  }

  lemma TwoFragments(s: BitSeq, bytes: seq<bv8>)
    requires |bytes| == 20000
    ensures PutLength(s, 65536, 16384).Ok?
    ensures
      var s2 := Align(PutLength(s, 65536, 16384).value) + Unpack(bytes[..16384]);
      var r := PutOctetString(s, bytes, false, Some(0), Some(65535));
      r.Ok? && s2 <= r.value
  {
    hide PutLength, Align, Unpack;
    BoundedLength(s, 16384);
    var s2 := Align(PutLength(s, 65536, 16384).value) + Unpack(bytes[..16384]);
    BoundedLength(s2, 3616);
    assert s + [] == s;
    assert bytes[0..16384] == bytes[..16384];
    assert PutFragments(s2, bytes, 16384, 3616, 0, 65536, 8).Ok?;
  }

  /** One octet under SIZE(2): written without an error, and not read back. */
  lemma FixedSizeIgnored(s: BitSeq, b: bv8, d: BitSeq)
    requires |d| % 8 == 0
    ensures PutOctetString(s, [b], false, Some(2), Some(2)) == Ok(s + Unpack([b]))
    ensures s + Unpack([b]) <= d ==> !Returns(GetString(d, |s|, 8, false, Some(2), Some(2)), [b], 1, 8, |s| + 8)
  {
    hide Unpack, Returns;
    assert s + [] == s && Unpack([b])[..8] == Unpack([b]);
    if s + Unpack([b]) <= d {
      StringBack(s, [b], 1, 8, false, Some(2), Some(2), d);
    }
  }

  // ---------- numbers and counts ----------

  /** A range that lib/ngap/ngapType declares for RepetitionPeriod: 0..131071. */
  lemma RepetitionPeriodWidths()
    ensures Width(PutByteLen(1, 131071)) == 1 && !WidthsMatch(131072)
  {
    hide Width, PutByteLen, WidthsMatch;
    PutByteLenIs(131071);
    OctetCountWidths(131072);
    GetByteLenIs(131071);
    SmallWidths();
  }

  lemma TwoOctetsNeeded()
    ensures RawLength(300, 131072) == 2 && RawLength(70000, 131072) == 3
  {
    assert Octets(1) == 1 + Octets(0);
    assert Octets(273) == 1 + Octets(1);
  }

  /** 300 in 0..131071 is written at any bit position, and comes back from no data that contains it. */
  lemma OctetCountDoubled(s: BitSeq, d: BitSeq)
    requires |d| % 8 == 0
    ensures PutInteger(s, 300, false, Some(0), Some(131071)).Ok?
    ensures
      var r := PutInteger(s, 300, false, Some(0), Some(131071)).value;
      r <= d ==> GetInteger(d, |s|, false, Some(0), Some(131071)) != Got(300, |r|)
  {
    hide PutInteger, GetInteger, RawLength, Width, PutByteLen, WidthsMatch;
    RepetitionPeriodWidths();
    TwoOctetsNeeded();
    Pow2Values();
    WrittenFromZero(s, 300, false, 131071);
    if PutInteger(s, 300, false, Some(0), Some(131071)).value <= d {
      IntegerBack(s, 300, false, Some(0), Some(131071), d);
    }
  }

  /** 70000 in 0..131071 takes three octets, a count its one bit cannot hold. */
  lemma OctetCountOverCapacity(s: BitSeq)
    ensures PutInteger(s, 70000, false, Some(0), Some(131071)).Err?
  {
    hide PutInteger, RawLength, Width, PutByteLen, WidthsMatch;
    RepetitionPeriodWidths();
    TwoOctetsNeeded();
    Pow2Values();
    WrittenFromZero(s, 70000, false, 131071);
  }

  /** 0 above -1000, and 0 in -100000..100000: the octets are counted for 0, and what goes into them is its
      distance from the lower bound. */
  lemma CountedForTheValue(s: BitSeq)
    ensures PutInteger(s, 0, false, Some(-1000), None).Err?
    ensures PutInteger(s, 0, false, Some(-100000), Some(100000)).Err?
  {
    IntegerWritten(s, 0, false, Some(-1000), None);
    IntegerWritten(s, 0, false, Some(-100000), Some(100000));
    assert RawLength(0, 0) == 1 && RawLength(0, 200001) == 1;
    Pow2Values();
    hide PutInteger, Width, PutByteLen;
  }

  /** 0 in -1..2^63-1: a range of more than 63 bits wraps to a negative one, the value is written without
      its lower bound, and the decoder adds the bound. */
  lemma LowerBoundAdded(s: BitSeq, d: BitSeq)
    requires |d| % 8 == 0
    ensures PutInteger(s, 0, false, Some(-1), Some(0x7fff_ffff_ffff_ffff)).Ok?
    ensures
      var r := PutInteger(s, 0, false, Some(-1), Some(0x7fff_ffff_ffff_ffff)).value;
      r <= d ==> GetInteger(d, |s|, false, Some(-1), Some(0x7fff_ffff_ffff_ffff)) != Got(0, |r|)
  {
    hide PutRawInteger, GetInteger;
    ZeroWritten(s, IntForm(-1, WrapInt64(0x8000_0000_0000_0001), []));
    assert s + [] == s;
    if PutInteger(s, 0, false, Some(-1), Some(0x7fff_ffff_ffff_ffff)).value <= d {
      IntegerBack(s, 0, false, Some(-1), Some(0x7fff_ffff_ffff_ffff), d);
    }
  }

  lemma ZeroWritten(s: BitSeq, form: IntForm)
    requires form.range < 0
    ensures PutRawInteger(s, 0, form).Ok?
  {
    hide Align, FromNat;
    Pow2Values();
    assert RawLength(0, form.range) == 1;
  }

  /** The one value of an ENUMERATED in 1..1 takes no bits and is read as 0. */
  lemma SingleEnumeratedLost(s: BitSeq, d: BitSeq)
    requires s <= d
    ensures PutEnumerated(s, 1, false, Some(1), Some(1)) == Ok(s)
    ensures GetEnumerated(d, |s|, false, Some(1), Some(1)) == Got(0, |s|)
  {}

  /** The count of 256 unbounded elements is written as that of none. */
  lemma CountWrapsToZero(s: BitSeq)
    ensures PutCount(s, 256, false, None, None) == PutCount(s, 0, false, None, None)
  {}

  // ---------- a last field of no bits ----------

  const FIXED_OCTET := Field("a", false, OctetStringType, PLAIN.(sizeLowerBound := Some(1), sizeUpperBound := Some(1)))
  const CONSTANT := Field("b", false, IntType, PLAIN.(valueLowerBound := Some(5), valueUpperBound := Some(5)))
  const FIELDS: seq<Field> := [FIXED_OCTET, CONSTANT]

  function FieldValues(b: bv8): (vs: seq<Option<Value>>)
    ensures |vs| == 2
  {
    [Some(OctetStringValue([b])), Some(IntValue(5))]
  }

  lemma NoPresenceBits(b: bv8)
    ensures OptionalCount(FIELDS) == 0 && Presence(FIELDS, FieldValues(b), 2) == []
    ensures Marked(FIELDS, [], 0) && Marked(FIELDS, [], 1)
    ensures FieldParams(FIELDS, FieldValues(b)[..0]) == Ok(FIXED_OCTET.params)
    ensures FieldParams(FIELDS, FieldValues(b)[..1]) == Ok(CONSTANT.params)
  {
    assert OptionalBefore(FIELDS, 1) == 0;
    assert Presence(FIELDS, FieldValues(b), 1) == [];
  }

  lemma OctetLeaf(b: bv8)
    ensures PutField([], OctetStringType, FIXED_OCTET.params, OctetStringValue([b])) == Ok(Unpack([b]))
    ensures Agrees(OctetStringType, FIXED_OCTET.params, OctetStringValue([b]))
  {
    hide Unpack;
    assert [] + [] + Unpack([b])[..8] == Unpack([b]);
  }

  lemma ConstantLeaf(s: BitSeq)
    ensures PutField(s, IntType, CONSTANT.params, IntValue(5)) == Ok(s)
    ensures LastStart(s, IntType, CONSTANT.params, IntValue(5)) == |s|
    ensures Agrees(IntType, CONSTANT.params, IntValue(5))
  {
    assert s + [] == s;
  }

  lemma FieldsPut(b: bv8)
    ensures PutField([], SequenceType(FIELDS), PLAIN, SequenceValue(FieldValues(b))) == Ok(Unpack([b]))
  {
    var vs, s := FieldValues(b), Unpack([b]);
    PutSequence([], FIELDS, PLAIN, vs);
    NoPresenceBits(b);
    OctetLeaf(b);
    ConstantLeaf(s);
    hide PutField, FieldParams, Marked, Presence, Unpack;
    assert [] + Extension(false) + [] == [];
    assert PutFields(s, FIELDS, vs, 2) == Ok(s);
    assert PutFields(s, FIELDS, vs, 1) == Ok(s);
  }

  lemma FieldsAgreed(b: bv8)
    ensures Agrees(SequenceType(FIELDS), PLAIN, SequenceValue(FieldValues(b)))
  {
    var vs := FieldValues(b);
    NoPresenceBits(b);
    OctetLeaf(b);
    ConstantLeaf([]);
    SequenceIsFields(vs);
    hide Agrees, AgreesAt, FieldParams, Marked, Presence;
    assert FieldsAgree(FIELDS, vs, 2);
    assert FieldsAgree(FIELDS, vs, 1);
  }

  lemma SequenceIsFields(vs: seq<Option<Value>>)
    requires |vs| == 2
    ensures Agrees(SequenceType(FIELDS), PLAIN, SequenceValue(vs)) == FieldsAgree(FIELDS, vs, 0)
    ensures LastStart([], SequenceType(FIELDS), PLAIN, SequenceValue(vs))
         == LastFieldStart([] + Extension(false) + Presence(FIELDS, vs, 2), FIELDS, vs, 0, 0)
  {
    hide FieldsAgree, LastFieldStart, Presence, Extension;
  }

  /** The second field starts after the octet, at the end of the message. */
  lemma LastStartsAtEnd(b: bv8)
    ensures LastStart([], SequenceType(FIELDS), PLAIN, SequenceValue(FieldValues(b))) == 8
  {
    var vs, s := FieldValues(b), Unpack([b]);
    NoPresenceBits(b);
    OctetLeaf(b);
    ConstantLeaf(s);
    SequenceIsFields(vs);
    hide PutField, FieldParams, Marked, Presence, LastStart, Unpack;
    assert [] + Extension(false) + [] == [];
    assert LastFieldStart(s, FIELDS, vs, 2, 8) == 8;
    forall last: nat ensures LastFieldStart(s, FIELDS, vs, 1, last) == 8 {}
  }

  /** An octet of data and an INTEGER of one possible value: the integer takes no bits, starts at the end
      of the message, and is refused. */
  lemma TrailingConstantRefused(b: bv8)
    ensures
      var t, v := SequenceType(FIELDS), SequenceValue(FieldValues(b));
      Agrees(t, PLAIN, v) && Marshalled(t, PLAIN, v) == Ok([b]) && Unmarshalled([b], t, PLAIN).Err?
  {
    var t, v, s := SequenceType(FIELDS), SequenceValue(FieldValues(b)), Unpack([b]);
    FieldsPut(b);
    FieldsAgreed(b);
    LastStartsAtEnd(b);
    PackUnpack([b]);
    hide PutField, GetField, Agrees, AgreesAt, LastStart, FieldValues, Unpack, Pack;
    assert Align(s) == s;
    AgreesHere([], t, PLAIN, v);
    FieldBack([], t, PLAIN, v, s);
  }
}
