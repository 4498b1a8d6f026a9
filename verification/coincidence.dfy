/** A value that comes back whole, and is written back whole, although its parts are misread. */
module Coincidence {
  import opened Bits
  import opened Common
  import opened BitCopy
  import opened Encoding
  import opened Decoding
  import opened RoundTrip
  import opened IntegerRoundTrip
  import opened WholeValue
  import opened CanonicalForms
  import opened CanonicalValues

  /** An integer of a range for which the decoder's octet count is a bit wider than the encoder's, some octets, and an
      integer of a range for which it is not. */
  const FIRST := Field("a", false, IntType, PLAIN.(valueLowerBound := Some(300), valueUpperBound := Some(70300)))
  const OCTETS := Field("b", false, OctetStringType, PLAIN)
  const LAST := Field("c", false, IntType, PLAIN.(valueLowerBound := Some(65536), valueUpperBound := Some(196608)))
  const FIELDS: seq<Field> := [FIRST, OCTETS, LAST]
  const VALUES: seq<Option<Value>> := [Some(IntValue(300)), Some(OctetStringValue([])), Some(IntValue(65541))]

  // ---------- the bits ----------

  /** The octets 80 00 00, 00, 80 00 00 05. */
  const FIRST_BITS: BitSeq := [true] + Zeros(23)
  const LAST_BITS: BitSeq := [true] + Zeros(28) + [true, false, true]
  const BITS: BitSeq := FIRST_BITS + Zeros(8) + LAST_BITS

  lemma Runs()
    ensures |BITS| == 64 && BITS[..24] == FIRST_BITS && BITS[..32] == FIRST_BITS + Zeros(8)
    ensures BITS[0..2] == [true, false] && BITS[2..8] == Zeros(6) && BITS[8..32] == Zeros(24)
    ensures BITS[32..40] == [true] + Zeros(7) && BITS[40..48] == Zeros(8)
    ensures BITS[48..50] == Zeros(2) && BITS[50..56] == Zeros(6) && BITS[56..64] == Zeros(5) + [true, false, true]
  {}

  lemma Five(k: nat)
    ensures ToNat(Zeros(k) + [true, false, true]) == 5
    ensures FromNat(5, k + 3) == Zeros(k) + [true, false, true]
  {
    var z := Zeros(k);
    ToNatZeros(k);
    ToNatSnoc(z, true);
    ToNatSnoc(z + [true], false);
    ToNatSnoc(z + [true, false], true);
    hide ToNat, FromNat, Zeros;
    assert z + [true] + [false] == z + [true, false] && z + [true, false] + [true] == z + [true, false, true];
    FromNatToNat(z + [true, false, true]);
  }

  lemma OneThenZeros(k: nat)
    ensures ToNat([true] + Zeros(k)) == Pow2(k)
    ensures FromNat(Pow2(k), k + 1) == [true] + Zeros(k)
  {
    ToNatZeros(k);
    ToNatSnoc([], true);
    assert [] + [true] == [true] && ToNat([]) == 0;
    hide ToNat, FromNat, Zeros, Pow2;
    ToNatAppend([true], Zeros(k));
    FromNatToNat([true] + Zeros(k));
  }

  // ---------- writing ----------

  lemma Widths()
    ensures Width(PutByteLen(1, 70000)) == 1 && Width(GetByteLen(1, 70000)) == 2
    ensures Width(PutByteLen(1, 131072)) == 2 && Width(GetByteLen(1, 131072)) == 2
    ensures !WidthsMatch(70001)
  {
    hide Width, PutByteLen, GetByteLen;
    PutByteLenIs(70000);
    GetByteLenIs(70000);
    PutByteLenIs(131072);
    GetByteLenIs(131072);
    SmallWidths();
  }

  lemma OctetCounts()
    ensures RawLength(300, 70001) == 2 && RawLength(65541, 131073) == 3
  {
    assert Octets(1) == 1 + Octets(0);
    assert Octets(256) == 1 + Octets(1);
  }

  lemma FirstOctets()
    ensures PutRawInteger([], 300, IntForm(300, 70001, [])) == Ok(FIRST_BITS)
  {
    Numbers();
    hide RawLength, Width, PutByteLen, GetByteLen, Octets, FromNat, Zeros, PutValue, Pow2, ToNat;
    Widths();
    OctetCounts();
    WrittenNumber([], [true]);
    assert [] + [true] == [true];
    WrittenNumber([true] + Zeros(7), Zeros(16));
    ZerosJoined(7, 16);
    assert [true] + Zeros(7) + Zeros(16) == [true] + (Zeros(7) + Zeros(16));
  }

  /** The numbers of the runs of bits there are. */
  lemma Numbers()
    ensures ToNat([true]) == 1 && ToNat([true] + Zeros(1)) == 2 && ToNat([true] + Zeros(7)) == 128
    ensures ToNat(Zeros(2)) == ToNat(Zeros(6)) == ToNat(Zeros(8)) == ToNat(Zeros(16)) == ToNat(Zeros(24)) == 0
    ensures ToNat(Zeros(5) + [true, false, true]) == ToNat(Zeros(21) + [true, false, true]) == 5
  {
    hide ToNat, Zeros, Pow2;
    NoZeros();
    OneThenZeros(0); OneThenZeros(1); OneThenZeros(7);
    ToNatZeros(2); ToNatZeros(6); ToNatZeros(8); ToNatZeros(16); ToNatZeros(24);
    Five(5); Five(21);
    Pow2Values();
    NoPower();
  }

  lemma NoPower()
    ensures Pow2(0) == 1
  {}

  /** An INTEGER with both bounds and nothing else in its tag. */
  lemma IntegerPut(s: BitSeq, p: Params, value: Int64, lb: Int64, ub: Int64)
    requires lb <= value <= ub && 65536 < ub - lb + 1 < 0x1_0000_0000
    requires p == PLAIN.(valueLowerBound := Some(lb), valueUpperBound := Some(ub))
    ensures PutField(s, IntType, p, IntValue(value)) == PutRawInteger(s, value, IntForm(lb, ub - lb + 1, []))
  {
    PutLeaf(s, IntType, p, IntValue(value));
    hide PutField, PutRawInteger, PutConstrained;
    assert s + [] == s;
  }

  lemma FirstPut()
    ensures PutField([], IntType, FIRST.params, IntValue(300)) == Ok(FIRST_BITS)
  {
    hide PutField, PutRawInteger;
    IntegerPut([], FIRST.params, 300, 300, 70300);
    FirstOctets();
  }

  lemma OctetsPut(s: BitSeq)
    requires |s| % 8 == 0
    ensures PutField(s, OctetStringType, PLAIN, OctetStringValue([])) == Ok(s + Zeros(8))
  {
    hide PutField, PutFragments, Zeros;
    PutLeaf(s, OctetStringType, PLAIN, OctetStringValue([]));
    NoOctets(s);
    assert s + [] == s;
  }

  lemma NoOctets(s: BitSeq)
    requires |s| % 8 == 0
    ensures PutFragments(s, [], 0, 0, 0, -1, 8) == Ok(s + Zeros(8))
  {
    hide Align, PutValue, Zeros, ToNat;
    Numbers();
    AlignedAlready(s);
    WrittenNumber(s, Zeros(8));
    assert PutLength(s, -1, 0) == Ok(s + Zeros(8));
  }

  lemma LastOctets(s: BitSeq)
    requires |s| % 8 == 0
    ensures PutRawInteger(s, 65541, IntForm(65536, 131073, [])) == Ok(s + LAST_BITS)
  {
    Numbers();
    hide RawLength, Width, PutByteLen, GetByteLen, Octets, FromNat, PutValue, Pow2, ToNat;
    Widths();
    OctetCounts();
    Pow2Values();
    WrittenNumber(s, [true] + Zeros(1));
    var s1 := s + ([true] + Zeros(1));
    assert Align(s1) == s + ([true] + Zeros(7));
    WrittenNumber(Align(s1), Zeros(21) + [true, false, true]);
    assert Align(s1) + (Zeros(21) + [true, false, true]) == s + LAST_BITS;
  }

  lemma LastPut(s: BitSeq)
    requires |s| % 8 == 0
    ensures PutField(s, IntType, LAST.params, IntValue(65541)) == Ok(s + LAST_BITS)
  {
    hide PutField, PutRawInteger;
    IntegerPut(s, LAST.params, 65541, 65536, 196608);
    LastOctets(s);
  }

  lemma NoZeros()
    ensures Zeros(0) == [] && [true] + Zeros(0) == [true]
  {}

  lemma ZerosJoined(m: nat, n: nat)
    ensures Zeros(m) + Zeros(n) == Zeros(m + n)
  {}

  // ---------- reading ----------

  lemma RunRead(d: BitSeq, pos: nat, bits: BitSeq)
    requires 0 < |bits| <= 24 && pos + |bits| <= |d| && d[pos..pos + |bits|] == bits
    ensures GetValue(d, pos, |bits|) == Got(ToNat(bits), pos + |bits|)
  {
    hide ToNat, Pow2;
    ToNatBound(bits);
    Pow2Values();
    Pow2Monotone(|bits|, 64);
    SmallMod(ToNat(bits), TWO_64);
  }

  /** An integer after an octet count, from the numbers its bits are. */
  lemma CountedRead(d: BitSeq, pos: nat, lb: Int64, range: Int64, w: nat, count: nat, p1: nat, raw: nat)
    requires pos + w <= p1 <= |d| && range > 65536 && w == Width(GetByteLen(1, range - 1))
    requires GetValue(d, pos, w) == Got(count, pos + w) && SkipAlign(d, pos + w) == Got((), p1)
    requires GetValue(d, p1, 8 * (count + 1)) == Got(raw, p1 + 8 * (count + 1)) && range > 0
    ensures GetCounted(d, pos, lb, range) == Got(WrapInt64(WrapInt64(raw) + lb), p1 + 8 * (count + 1))
  {
    hide GetValue, SkipAlign, Width, GetByteLen, WrapInt64;
  }

  /** Zero bits up to an octet boundary are skipped. */
  lemma ZerosSkipped(d: BitSeq, pos: nat)
    requires pos % 8 == 2 && pos + 6 <= |d| && d[pos..pos + 6] == Zeros(6)
    ensures SkipAlign(d, pos) == Got((), pos + 6)
  {
    hide ToNat, Zeros;
    Numbers();
    RunRead(d, pos, Zeros(6));
    hide GetValue;
  }

  lemma FirstCounted()
    ensures |BITS| == 64 && GetCounted(BITS, 0, 300, 70001) == Got(300, 32)
  {
    hide ToNat, GetValue, Width, GetByteLen, PutByteLen, GetCounted, SkipAlign;
    Numbers();
    Runs();
    Widths();
    RunRead(BITS, 0, [true] + Zeros(1));
    ZerosSkipped(BITS, 2);
    RunRead(BITS, 8, Zeros(24));
    CountedRead(BITS, 0, 300, 70001, 2, 2, 8, 0);
  }

  lemma FirstRead()
    ensures |BITS| == 64 && GetField(BITS, 0, IntType, FIRST.params) == Got(IntValue(300), 32)
  {
    FirstCounted();
    IntegerField(BITS, 0, FIRST.params, 300, 70300);
  }

  /** An INTEGER with both bounds and nothing else in its tag. */
  lemma IntegerField(d: BitSeq, pos: nat, p: Params, lb: Int64, ub: Int64)
    requires pos < |d| && 65536 < ub - lb + 1 < 0x1_0000_0000
    requires p == PLAIN.(valueLowerBound := Some(lb), valueUpperBound := Some(ub))
    requires GetCounted(d, pos, lb, ub - lb + 1).Got?
    ensures
      var r := GetCounted(d, pos, lb, ub - lb + 1);
      GetField(d, pos, IntType, p) == Got(IntValue(r.value), r.pos)
  {
    hide GetCounted, GetUnbounded, GetConstrained;
  }

  lemma OctetsRead()
    ensures |BITS| == 64 && GetField(BITS, 32, OctetStringType, PLAIN) == Got(OctetStringValue([]), 48)
  {
    hide GetFragments;
    NoneRead();
  }

  /** The octets 80 00 are a length of none in two octets. */
  lemma NoneRead()
    ensures |BITS| == 64 && GetFragments(BITS, 32, 0, -1, 8, Content([], 0)) == Got(Content([], 0), 48)
  {
    hide ToNat, GetValue, GetConstrained;
    Numbers();
    Runs();
    RunRead(BITS, 32, [true] + Zeros(7));
    RunRead(BITS, 40, Zeros(8));
    assert GetLength(BITS, 32, -1) == Got(Length(0, false), 48);
    hide GetLength;
  }

  lemma LastCounted()
    ensures |BITS| == 64 && GetCounted(BITS, 48, 65536, 131073) == Got(65541, 64)
  {
    hide ToNat, GetValue, Width, GetByteLen, PutByteLen, GetCounted, SkipAlign;
    Numbers();
    Runs();
    Widths();
    RunRead(BITS, 48, Zeros(2));
    ZerosSkipped(BITS, 50);
    RunRead(BITS, 56, Zeros(5) + [true, false, true]);
    CountedRead(BITS, 48, 65536, 131073, 2, 0, 56, 5);
  }

  lemma LastRead()
    ensures |BITS| == 64 && GetField(BITS, 48, IntType, LAST.params) == Got(IntValue(65541), 64)
  {
    LastCounted();
    IntegerField(BITS, 48, LAST.params, 65536, 196608);
  }

  // ---------- the whole ----------

  lemma NoPresenceBits()
    ensures OptionalCount(FIELDS) == 0 && Presence(FIELDS, VALUES, 3) == []
    ensures Marked(FIELDS, [], 0) && Marked(FIELDS, [], 1) && Marked(FIELDS, [], 2)
    ensures FieldParams(FIELDS, VALUES[..0]) == Ok(FIRST.params)
    ensures FieldParams(FIELDS, VALUES[..1]) == Ok(OCTETS.params)
    ensures FieldParams(FIELDS, VALUES[..2]) == Ok(LAST.params)
  {
    assert OptionalBefore(FIELDS, 1) == OptionalBefore(FIELDS, 2) == 0;
    assert Presence(FIELDS, VALUES, 1) == Presence(FIELDS, VALUES, 2) == [];
  }

  lemma WholePut()
    ensures PutField([], SequenceType(FIELDS), PLAIN, SequenceValue(VALUES)) == Ok(BITS)
  {
    hide PutField, PutFields, FieldParams, Marked, Presence, Zeros;
    PutSequence([], FIELDS, PLAIN, VALUES);
    NoPresenceBits();
    assert [] + Extension(false) + [] == [];
    PutNext([], FIELDS, VALUES, 0);
    FirstPut();
    PutNext(FIRST_BITS, FIELDS, VALUES, 1);
    OctetsPut(FIRST_BITS);
    PutNext(FIRST_BITS + Zeros(8), FIELDS, VALUES, 2);
    LastPut(FIRST_BITS + Zeros(8));
    PutNone(BITS, FIELDS, VALUES);
  }

  lemma WholeRead()
    ensures |BITS| == 64 && GetField(BITS, 0, SequenceType(FIELDS), PLAIN) == Got(SequenceValue(VALUES), 64)
  {
    NoPresenceBits();
    FirstRead();
    OctetsRead();
    LastRead();
    SequenceStarts(BITS);
    hide GetField, FieldParams, Marked, Presence, Zeros;
    assert VALUES[..0] == [] && VALUES[..1] == VALUES[..0] + [Some(IntValue(300))];
    assert VALUES[..2] == VALUES[..1] + [Some(OctetStringValue([]))] && VALUES == VALUES[..2] + [Some(IntValue(65541))];
    assert GetFields(BITS, 64, FIELDS, [], VALUES) == Got(SequenceValue(VALUES), 64);
    assert GetFields(BITS, 48, FIELDS, [], VALUES[..2]) == Got(SequenceValue(VALUES), 64);
    assert GetFields(BITS, 32, FIELDS, [], VALUES[..1]) == Got(SequenceValue(VALUES), 64);
  }

  lemma SequenceStarts(d: BitSeq)
    requires d != [] && OptionalCount(FIELDS) == 0
    ensures GetField(d, 0, SequenceType(FIELDS), PLAIN) == GetFields(d, 0, FIELDS, [], [])
    ensures GetPresence(d, 0, FIELDS) == Got([], 0)
  {
    hide GetFields, OptionalCount;
  }

  /** The octet count of the first integer is not readable where it stands. */
  lemma FirstDisagrees()
    ensures !AgreesAt([], SequenceType(FIELDS), PLAIN, SequenceValue(VALUES))
  {
    NoPresenceBits();
    Widths();
    OctetCounts();
    hide FieldParams, Marked, Presence, RawLength, Width, PutByteLen, WidthsMatch;
    assert [] + Extension(false) + [] == [];
    assert !AgreesAt([], IntType, FIRST.params, IntValue(300));
    hide PutField;
    assert !FieldsAgreeAt([], FIELDS, VALUES, 0);
  }

  /** It is read from other bits than it is written as. */
  lemma FirstElsewhere()
    ensures |BITS| == 64 && !EveryPart(BITS, 0, SequenceType(FIELDS), PLAIN, true)
  {
    NoPresenceBits();
    FirstRead();
    FirstPut();
    SequenceStarts(BITS);
    Runs();
    hide GetField, PutField, FieldParams, Marked, Zeros, GetPresence, EveryAlternative, EveryElement;
    assert BITS[..0] == [] && VALUES[..0] == [];
    assert |FIRST_BITS| == 24 && |BITS[..32]| == 32;
    assert !EveryPart(BITS, 0, IntType, FIRST.params, true);
    assert !EveryField(BITS, 0, FIELDS, [], [], true);
  }

  /** A message that is written, read back as the value it was and written again as it was, although its parts are
      misread: the whole says less than its parts. */
  lemma MisreadComesBack()
    ensures |BITS| % 8 == 0 && |BITS| > 0
    ensures PutField([], SequenceType(FIELDS), PLAIN, SequenceValue(VALUES)) == Ok(BITS)
    ensures GetField(BITS, 0, SequenceType(FIELDS), PLAIN) == Got(SequenceValue(VALUES), |BITS|)
    ensures !AgreesAt([], SequenceType(FIELDS), PLAIN, SequenceValue(VALUES))
    ensures !EveryPart(BITS, 0, SequenceType(FIELDS), PLAIN, true)
  {
    WholePut();
    WholeRead();
    FirstDisagrees();
    FirstElsewhere();
  }
}
