/** What the encoder appends, as functions from the bits written so far to the bits written after. */
module Encoding {
  import opened Bits
  import opened Common
  import opened BitCopy

  // ---------- alignment, values, lengths ----------

  function Align(s: BitSeq): (r: BitSeq)
    ensures s <= r && |r| % 8 == 0 && |r| < |s| + 8
  {
    s + Zeros((8 - |s| % 8) % 8)
  }

  function PutValue(s: BitSeq, value: nat, n: nat): (r: Result<BitSeq>)
    ensures r.Ok? ==> s <= r.value && |r.value| == |s| + n
  {
    if n == 0 then Ok(s)
    else if value < Pow2(n) then Ok(s + FromNat(value, n))
    else Err(OverCapacity)
  }

  /** The least width from `i` on whose range covers `range`. */
  function WidthFrom(i: nat, range: nat): (r: nat)
    requires 1 <= i <= 8 && range <= 256
    ensures i <= r <= 8 && range <= Pow2(r) <= 256
    ensures forall j | i <= j < r :: Pow2(j) < range
    decreases 8 - i
  {
    Pow2Values();
    Pow2Monotone(i, 8);
    if i == 8 || Pow2(i) >= range then i else WidthFrom(i + 1, range)
  }

  function Width(range: nat): (r: nat)
    requires range <= 256
    ensures 1 <= r <= 8 && range <= Pow2(r) <= 256
  {
    WidthFrom(1, range)
  }

  function PutConstrained(s: BitSeq, range: int, value: nat): (r: Result<BitSeq>)
    ensures r.Ok? ==> s <= r.value && |s| < |r.value| && value < 65536
  {
    Pow2Values();
    hide FromNat, Align, Width;
    if range < 0 then Err(RangeNegative)
    else if range <= 255 then PutValue(s, value, Width(range))
    else if range == 256 then PutValue(Align(s), value, 8)
    else if range <= 65536 then PutValue(Align(s), value, 16)
    else Err(RangeTooLarge)
  }

  predicate Bounded(sizeRange: int) { 0 < sizeRange <= 65536 }

  /** `x | 0xc0`. */
  function OrC0(x: nat): nat {
    x / 256 * 256 + 0xc0 + x % 64
  }

  function PutLength(s: BitSeq, sizeRange: int, value: nat): (r: Result<BitSeq>)
    ensures r.Ok? ==> s <= r.value && |s| < |r.value|
  {
    if Bounded(sizeRange) then PutConstrained(s, sizeRange, value)
    else if value <= 127 then PutValue(Align(s), value, 8)
    else if value <= 16383 then PutValue(Align(s), value + 0x8000, 16)
    else PutValue(Align(s), OrC0(value / 16384), 8)
  }

  // ---------- BIT STRING, OCTET STRING and open type contents ----------

  /** Contents come in units of one bit or of eight. */
  type Unit = u: nat | u == 1 || u == 8 witness 1

  function BitsOf(n: nat, unit: Unit): nat { if unit == 1 then n else 8 * n }

  function BytesOf(n: nat, unit: Unit): nat { CeilDiv8(BitsOf(n, unit)) }

  /** How much of a remaining length the next fragment carries; `& 0xc000` is exact below 65536. */
  function FragmentSize(raw: nat): (r: nat)
    ensures r <= 65536 && r <= raw
  {
    if raw > 65536 then 65536
    else if raw >= 16384 then raw / 16384 % 4 * 16384
    else raw
  }

  function PutFragments(s: BitSeq, content: seq<bv8>, offset: nat, raw: nat, lb: nat, sizeRange: int,
      unit: Unit): (r: Result<BitSeq>)
    requires offset <= |content|
    ensures r.Ok? ==> s <= r.value && |s| < |r.value|
    decreases |content| - offset
  {
    var part := FragmentSize(raw);
    var s1 :- PutLength(s, sizeRange, part);
    var n := part + lb;
    if n == 0 then Ok(s1)
    else
      var end := offset + BytesOf(n, unit);
      if end > |content| then Err(Panic)
      else
        var piece := Unpack(content[offset..end]);
        if raw > part then PutFragments(Align(s1) + piece, content, end, raw - part, lb, sizeRange, unit)
        else Ok(Align(s1) + piece[..BitsOf(n, unit)])
  }

  /** One turn of the fragment loop. */
  lemma PutFragmentsIs(s: BitSeq, content: seq<bv8>, offset: nat, raw: nat, lb: nat, sizeRange: int, unit: Unit)
    requires offset <= |content|
    ensures
      var part := FragmentSize(raw);
      var n := part + lb;
      var end := offset + BytesOf(n, unit);
      var s1 := PutLength(s, sizeRange, part);
      var r := PutFragments(s, content, offset, raw, lb, sizeRange, unit);
      && (s1.Err? || n == 0 ==> r == s1)
      && (n > 0 ==> BytesOf(n, unit) > 0)
      && (s1.Ok? && n > 0 && end > |content| ==> r == Err(Panic))
      && (s1.Ok? && n > 0 && end <= |content| && raw == part ==>
            BitsOf(n, unit) <= 8 * (end - offset) && r == Ok(Align(s1.value) + Unpack(content[offset..end])[..BitsOf(n, unit)]))
      && (s1.Ok? && n > 0 && end <= |content| && raw > part ==>
            r == PutFragments(Align(s1.value) + Unpack(content[offset..end]), content, end, raw - part, lb, sizeRange, unit))
  {
    hide PutLength, Align, Unpack, FragmentSize;
  }

  /** The size range, the lower bound and the extension bit a length is written with. */
  datatype SizeForm = SizeForm(sizeRange: int, lb: Size, extension: BitSeq)

  function StringForm(n: nat, extensible: bool, lb: Option<Size>, ub: Option<Size>): Result<SizeForm> {
    if lb.None? then Ok(SizeForm(-1, 0, []))
    else if ub.None? then Ok(SizeForm(-1, lb.value, []))
    else if n > ub.value && !extensible then Err(OverUpperBound)
    else
      var range := if n <= ub.value then ub.value - lb.value + 1 else -1;
      var form := if ub.value > 65535 then -1 else range;
      if !extensible then Ok(SizeForm(form, lb.value, []))
      else if range == -1 then Ok(SizeForm(form, 0, [true]))
      else Ok(SizeForm(form, lb.value, [false]))
  }

  /** A string whose size is fixed; `ub` is that size. */
  function PutFixed(s: BitSeq, content: seq<bv8>, n: nat, unit: Unit, ub: nat): (r: Result<BitSeq>)
    requires |content| == BytesOf(n, unit)
    ensures r.Ok? ==> s <= r.value
  {
    if |content| > 2 then
      if n != ub then Err(FixedSizeMismatch) else Ok(Align(s) + Unpack(content)[..BitsOf(n, unit)])
    else if n == 0 && |s| % 8 != 0 then Err(Panic)
    else Ok(s + Unpack(content)[..BitsOf(n, unit)])
  }

  /** `n - lb` in 64-bit unsigned arithmetic. */
  function RawCount(n: nat, lb: Size): nat {
    if n >= lb then n - lb else TWO_64 + n - lb
  }

  function PutString(s: BitSeq, content: seq<bv8>, n: nat, unit: Unit, extensible: bool, lb: Option<Size>,
      ub: Option<Size>): (r: Result<BitSeq>)
    requires |content| == BytesOf(n, unit)
    ensures r.Ok? ==> s <= r.value
  {
    var form :- StringForm(n, extensible, lb, ub);
    var s0 := s + form.extension;
    if form.sizeRange == 1 then PutFixed(s0, content, n, unit, ub.value)
    else PutFragments(s0, content, 0, RawCount(n, form.lb), form.lb, form.sizeRange, unit)
  }

  function PutBitString(s: BitSeq, bits: BitSeq, extensible: bool, lb: Option<Size>, ub: Option<Size>): (r: Result<BitSeq>)
    ensures r.Ok? ==> s <= r.value
  {
    PutString(s, Pack(Padded(bits)), |bits|, 1, extensible, lb, ub)
  }

  function PutOctetString(s: BitSeq, bytes: seq<bv8>, extensible: bool, lb: Option<Size>,
      ub: Option<Size>): (r: Result<BitSeq>)
    ensures r.Ok? ==> s <= r.value
  {
    PutString(s, bytes, |bytes|, 8, extensible, lb, ub)
  }

  // ---------- INTEGER and ENUMERATED ----------

  /** How many octets a number takes; none for zero. */
  function Octets(u: nat): nat {
    if u == 0 then 0 else 1 + Octets(u / 256)
  }

  lemma {:induction false} OctetsBound(u: nat, k: nat)
    requires u < Pow2(8 * k)
    ensures Octets(u) <= k
  {
    if u != 0 {
      assert k != 0 by { assert Pow2(0) == 1; }
      Pow2Add(8 * (k - 1), 8);
      Pow2Values();
      OctetsBound(u / 256, k - 1);
    }
  }

  /** The bits that decide the octet count: the value, or its one's complement when negative. */
  function Magnitude(value: Int64): (r: nat)
    ensures r < 0x8000_0000_0000_0000
  {
    if value < 0 then -1 - (value as int) else value
  }

  /** The encoder's octet count of a value range above 65536; its loop stops at a quotient of one. */
  function PutByteLen(byteLen: nat, u: nat): (r: nat)
    requires 1 <= byteLen <= 128
    ensures byteLen <= r <= 128
    decreases 128 - byteLen
  {
    if byteLen == 128 || u / 256 <= 1 then byteLen else PutByteLen(byteLen + 1, u / 256)
  }

  /** The lower bound, the value range and the extension bit an integer is written with;
      range -1 is unconstrained, range 0 semi-constrained. */
  datatype IntForm = IntForm(lb: Int64, range: Int64, extension: BitSeq)

  function IntegerForm(value: Int64, extensible: bool, lb: Option<Int64>, ub: Option<Int64>): Result<IntForm> {
    if lb.None? then Ok(IntForm(0, -1, []))
    else if value < lb.value then Err(UnderLowerBound)
    else if ub.None? then Ok(IntForm(lb.value, 0, []))
    else if value > ub.value && !extensible then Err(OverUpperBound)
    else
      var range: Int64 := if value <= ub.value then WrapInt64(ub.value - lb.value + 1) else 0;
      if !extensible then Ok(IntForm(lb.value, range, []))
      else if range == 0 then Ok(IntForm(lb.value, -1, [true]))
      else Ok(IntForm(lb.value, range, [false]))
  }

  /** The octet count of an integer written with a length. */
  function RawLength(value: Int64, range: Int64): (r: nat)
    ensures 1 <= r <= 8
  {
    var u := if range <= 0 then Magnitude(value) / 128 else Magnitude(value) / 256;
    Pow2Values();
    Pow2Add(32, 16);
    Pow2Add(48, 8);
    OctetsBound(u, 7);
    1 + Octets(u)
  }

  function PutRawInteger(s: BitSeq, value: Int64, form: IntForm): (r: Result<BitSeq>)
    requires form.range <= 0 || form.range > 65536
    ensures r.Ok? ==> s <= r.value && |s| < |r.value|
  {
    var n := RawLength(value, form.range);
    var s1 :- if form.range <= 0 then Ok(Align(s) + FromNat(n, 8))
              else PutValue(s, n - 1, Width(PutByteLen(1, form.range - 1)));
    var s2 := Align(s1);
    if form.range < 0 then PutValue(s2, value % Pow2(8 * n), 8 * n)
    else PutValue(s2, WrapUint64(value - form.lb), 8 * n)
  }

  function PutInteger(s: BitSeq, value: Int64, extensible: bool, lb: Option<Int64>, ub: Option<Int64>): (r: Result<BitSeq>)
    ensures r.Ok? ==> s <= r.value
  {
    var form :- IntegerForm(value, extensible, lb, ub);
    var s0 := s + form.extension;
    if form.range == 1 then Ok(s0)
    else if 1 < form.range <= 65536 then PutConstrained(s0, form.range, WrapUint64(value - form.lb))
    else PutRawInteger(s0, value, form)
  }

  function PutEnumerated(s: BitSeq, value: Uint64, extensible: bool, lb: Option<Int64>,
      ub: Option<Int64>): (r: Result<BitSeq>)
    ensures r.Ok? ==> s <= r.value
  {
    if lb.None? || ub.None? then Err(ConstraintMissing)
    else if WrapInt64(value) > ub.value then Err(if extensible then UnsupportedExtension else OverUpperBound)
    else if WrapInt64(value) < lb.value then Err(UnderLowerBound)
    else
      var s0 := if extensible then s + [false] else s;
      var range := WrapInt64(ub.value - lb.value + 1);
      if range > 1 then PutConstrained(s0, range, value) else Ok(s0)
  }

  // ---------- CHOICE index and SEQUENCE OF count ----------

  lemma SmallIndex(present: Int64)
    ensures WrapUint64(present - 1) < 65536 ==> present >= 1
  {}

  function PutChoiceIndex(s: BitSeq, present: Int64, extensible: bool, ub: Option<Int64>): (r: Result<BitSeq>)
    ensures r.Ok? ==> s <= r.value && |s| < |r.value|
    ensures r.Ok? ==> present >= 1
  {
    SmallIndex(present);
    hide PutConstrained, WrapInt64, WrapUint64;
    if ub.None? || ub.value < 0 then Err(ConstraintMissing)
    else if extensible && WrapInt64(present - 1) > ub.value then Err(UnsupportedExtension)
    else PutConstrained(s, WrapInt64(ub.value + 1), WrapUint64(present - 1))
  }

  function CountForm(n: nat, extensible: bool, lb: Option<Size>, ub: Option<Size>): Result<SizeForm> {
    var low := if lb.Some? && lb.value < 65536 then lb.value else 0;
    if ub.None? || ub.value >= 65536 then Ok(SizeForm(-1, low, []))
    else if n <= ub.value then Ok(SizeForm(ub.value - low + 1, low, if extensible then [false] else []))
    else if extensible then Ok(SizeForm(-1, low, [true]))
    else Err(OverUpperBound)
  }

  function PutCount(s: BitSeq, n: nat, extensible: bool, lb: Option<Size>, ub: Option<Size>): (r: Result<BitSeq>)
    ensures r.Ok? ==> s <= r.value
  {
    var form :- CountForm(n, extensible, lb, ub);
    var s0 := s + form.extension;
    if n < form.lb then Err(UnderLowerBound)
    else if form.sizeRange == 1 then (if n != ub.value then Err(FixedSizeMismatch) else Ok(s0))
    else if form.sizeRange > 0 then PutConstrained(s0, form.sizeRange, n - form.lb)
    else Ok(Align(s0) + FromNat(n % 256, 8))
  }

  /** The parameters a SEQUENCE OF passes to its elements. */
  function ElementParams(p: Params): Params {
    p.(sizeExtensible := false, sizeUpperBound := None, sizeLowerBound := None)
  }

  // ---------- SEQUENCE: presence bits and open-type references ----------

  /** How many of the first `i` fields are OPTIONAL. */
  function OptionalBefore(fields: seq<Field>, i: nat): (r: nat)
    requires i <= |fields|
    ensures r <= i
  {
    if i == 0 then 0 else OptionalBefore(fields, i - 1) + if fields[i - 1].params.optional then 1 else 0
  }

  function OptionalCount(fields: seq<Field>): nat { OptionalBefore(fields, |fields|) }

  lemma {:induction false} OptionalMonotone(fields: seq<Field>, i: nat, j: nat)
    requires i <= j <= |fields|
    ensures OptionalBefore(fields, i) <= OptionalBefore(fields, j)
    ensures i < j && fields[i].params.optional ==> OptionalBefore(fields, i) < OptionalBefore(fields, j)
  {
    if i < j { OptionalMonotone(fields, i, j - 1); }
  }

  /** Whether OPTIONAL field `i` keeps its presence bit: only the last 64 fit the mask. */
  predicate InMask(fields: seq<Field>, i: nat)
    requires i < |fields|
  {
    OptionalCount(fields) - OptionalBefore(fields, i) <= 64
  }

  /** The presence bits of the OPTIONAL fields among the first `i`. */
  function Presence(fields: seq<Field>, values: seq<Option<Value>>, i: nat): (r: BitSeq)
    requires i <= |fields| == |values|
    ensures |r| == OptionalBefore(fields, i)
  {
    if i == 0 then []
    else if fields[i - 1].params.optional then
      Presence(fields, values, i - 1) + [values[i - 1].Some? && InMask(fields, i - 1)]
    else Presence(fields, values, i - 1)
  }

  /** Whether the presence bits say field `i` is there. */
  predicate Marked(fields: seq<Field>, presence: BitSeq, i: nat)
    requires i < |fields| && |presence| == OptionalCount(fields)
  {
    OptionalMonotone(fields, i, |fields|);
    fields[i].params.optional ==> presence[OptionalBefore(fields, i)] && InMask(fields, i)
  }

  /** The index of the first field of that name, or `i` when none comes before `i`. */
  function FieldIndex(fields: seq<Field>, name: string, from: nat, i: nat): (r: nat)
    requires from <= i <= |fields|
    ensures from <= r <= i
    decreases i - from
  {
    if from == i || fields[from].name == name then from else FieldIndex(fields, name, from + 1, i)
  }

  /** The integer an open type's reference field holds; pointers are not followed. */
  function ReferenceValue(t: Type, v: Value): Result<Int64> {
    match (t, v)
    case (IntType, IntValue(i)) => Ok(i)
    case (ChoiceType(alts), ChoiceValue(present, alt)) =>
      if present == 0 then Err(PresentZero)
      else if present > |alts| then Err(PresentTooBig)
      else if present < 0 then Err(Panic)
      else if alts[present - 1].pointer then Err(ReferenceNotInteger)
      else ReferenceValue(alts[present - 1].ty, alt)
    case (SequenceType(fields), SequenceValue(vs)) =>
      if fields == [] || vs == [] then Err(Panic)
      else if fields[0].pointer || vs[0].None? then Err(ReferenceNotInteger)
      else ReferenceValue(fields[0].ty, vs[0].value)
    case _ => Err(ReferenceNotInteger)
  }

  /** The parameters of field `i`, with the reference value filled in for an open type. */
  function FieldParams(fields: seq<Field>, before: seq<Option<Value>>): Result<Params>
    requires |before| < |fields|
  {
    var p := fields[|before|].params;
    if !p.openType then Ok(p)
    else
      var index := FieldIndex(fields, p.referenceFieldName, 0, |before|);
      if index == |before| then Err(ReferenceUnresolved)
      else if fields[index].pointer || before[index].None? then Err(ReferenceNotInteger)
      else
        var x :- ReferenceValue(fields[index].ty, before[index].value);
        Ok(p.(referenceFieldValue := Some(x)))
  }

  // ---------- whole values ----------

  /** The extension bit of a struct, always clear. */
  function Extension(extensible: bool): BitSeq { if extensible then [false] else [] }

  function PutField(s: BitSeq, t: Type, p: Params, v: Value): (r: Result<BitSeq>)
    ensures r.Ok? ==> s <= r.value
    decreases t, 0, 0
  {
    hide PutBitString, PutOctetString, PutEnumerated, PutInteger, PutCount, PutChoiceIndex, PutFragments, Pack, Align;
    match (t, v)
    case (_, NilPointer) => Err(NilValue)
    case (ObjectIdentifierType, _) => Err(UnsupportedType)
    case (BitStringType, BitStringValue(bits)) =>
      PutBitString(s, bits, p.sizeExtensible, p.sizeLowerBound, p.sizeUpperBound)
    case (OctetStringType, OctetStringValue(bytes)) =>
      PutOctetString(s, bytes, p.sizeExtensible, p.sizeLowerBound, p.sizeUpperBound)
    case (PrintableStringType, PrintableStringValue(text)) =>
      PutOctetString(s, text, p.sizeExtensible, p.sizeLowerBound, p.sizeUpperBound)
    case (EnumeratedType, EnumeratedValue(n)) =>
      PutEnumerated(s, n, p.valueExtensible, p.valueLowerBound, p.valueUpperBound)
    case (BoolType, BoolValue(b)) => Ok(s + [b])
    case (IntType, IntValue(i)) =>
      PutInteger(s, i, p.valueExtensible, p.valueLowerBound, p.valueUpperBound)
    case (SequenceType(fields), SequenceValue(vs)) =>
      if |vs| != |fields| then Err(TypeMismatch)
      else
        var s0 := s + Extension(p.valueExtensible);
        PutFields(s0 + Presence(fields, vs, |fields|), fields, vs, 0)
    case (ChoiceType(alts), ChoiceValue(present, alt)) =>
      var s0 := s + Extension(p.valueExtensible);
      if present == 0 then Err(PresentZero)
      else if present > |alts| then Err(PresentTooBig)
      else if p.openType then
        if p.referenceFieldValue.None? then Err(ReferenceEmpty)
        else if present < 0 then Err(Panic)
        else if alts[present - 1].params.referenceFieldValue != p.referenceFieldValue then Err(ReferenceMismatch)
        else
          var inner :- PutField([], alts[present - 1].ty, alts[present - 1].params, alt);
          var content := Pack(Align(inner));
          PutFragments(s0, content, 0, |content|, 0, -1, 8)
      else
        var s1 :- PutChoiceIndex(s0, present, p.valueExtensible, p.valueUpperBound);
        PutField(s1, alts[present - 1].ty, alts[present - 1].params, alt)
    case (SliceType(elem), SliceValue(elems)) =>
      var s1 :- PutCount(s, |elems|, p.sizeExtensible, p.sizeLowerBound, p.sizeUpperBound);
      PutElements(s1, elem, ElementParams(p), elems)
    case _ => Err(TypeMismatch)
  }

  function PutElements(s: BitSeq, elem: Type, p: Params, elems: seq<Value>): (r: Result<BitSeq>)
    ensures r.Ok? ==> s <= r.value
    decreases elem, 1, |elems|
  {
    if elems == [] then Ok(s)
    else
      var s1 :- PutField(s, elem, p, elems[0]);
      PutElements(s1, elem, p, elems[1..])
  }

  /** The fields from `i` on; absent OPTIONAL ones leave nothing. */
  function PutFields(s: BitSeq, fields: seq<Field>, vs: seq<Option<Value>>, i: nat): (r: Result<BitSeq>)
    requires i <= |fields| == |vs|
    ensures r.Ok? ==> s <= r.value
    decreases fields, 1, |fields| - i
  {
    if i == |fields| then Ok(s)
    else if !Marked(fields, Presence(fields, vs, |fields|), i) then PutFields(s, fields, vs, i + 1)
    else
      var p :- FieldParams(fields, vs[..i]);
      if vs[i].None? then Err(NilValue)
      else
        var s1 :- PutField(s, fields[i].ty, p, vs[i].value);
        PutFields(s1, fields, vs, i + 1)
  }

  /** The value is one of the type, as far as its outermost constructor says. */
  predicate Fits(t: Type, v: Value) {
    match t
    case BitStringType => v.BitStringValue?
    case OctetStringType => v.OctetStringValue?
    case PrintableStringType => v.PrintableStringValue?
    case ObjectIdentifierType => true
    case EnumeratedType => v.EnumeratedValue?
    case BoolType => v.BoolValue?
    case IntType => v.IntValue?
    case SequenceType(_) => v.SequenceValue?
    case ChoiceType(_) => v.ChoiceValue?
    case SliceType(_) => v.SliceValue?
  }

  /** A leaf is written as its kind says, and a value that does not fit its type not at all. */
  lemma PutLeaf(s: BitSeq, t: Type, p: Params, v: Value)
    ensures v.NilPointer? ==> PutField(s, t, p, v) == Err(NilValue)
    ensures !v.NilPointer? && t.ObjectIdentifierType? ==> PutField(s, t, p, v) == Err(UnsupportedType)
    ensures !v.NilPointer? && !Fits(t, v) ==> PutField(s, t, p, v) == Err(TypeMismatch)
    ensures t.BitStringType? && Fits(t, v) ==>
              PutField(s, t, p, v) == PutBitString(s, v.bits, p.sizeExtensible, p.sizeLowerBound, p.sizeUpperBound)
    ensures t.OctetStringType? && Fits(t, v) ==>
              PutField(s, t, p, v) == PutOctetString(s, v.bytes, p.sizeExtensible, p.sizeLowerBound, p.sizeUpperBound)
    ensures t.PrintableStringType? && Fits(t, v) ==>
              PutField(s, t, p, v) == PutOctetString(s, v.text, p.sizeExtensible, p.sizeLowerBound, p.sizeUpperBound)
    ensures t.EnumeratedType? && Fits(t, v) ==>
              PutField(s, t, p, v) == PutEnumerated(s, v.n, p.valueExtensible, p.valueLowerBound, p.valueUpperBound)
    ensures t.BoolType? && Fits(t, v) ==> PutField(s, t, p, v) == Ok(s + [v.b])
    ensures t.IntType? && Fits(t, v) ==>
              PutField(s, t, p, v) == PutInteger(s, v.i, p.valueExtensible, p.valueLowerBound, p.valueUpperBound)
  {
    hide PutBitString, PutOctetString, PutEnumerated, PutInteger, PutCount, PutChoiceIndex, PutFragments, PutFields, PutElements;
    hide Presence, Extension, Align, Pack;
  }

  lemma PutSequence(s: BitSeq, fields: seq<Field>, p: Params, vs: seq<Option<Value>>)
    ensures PutField(s, SequenceType(fields), p, SequenceValue(vs))
         == if |vs| != |fields| then Err(TypeMismatch)
            else PutFields(s + Extension(p.valueExtensible) + Presence(fields, vs, |fields|), fields, vs, 0)
  {
    hide PutFields, Presence, Extension;
  }

  lemma PutSlice(s: BitSeq, elem: Type, p: Params, elems: seq<Value>)
    ensures PutField(s, SliceType(elem), p, SliceValue(elems))
         == var s1 := PutCount(s, |elems|, p.sizeExtensible, p.sizeLowerBound, p.sizeUpperBound);
            if s1.Err? then s1 else PutElements(s1.value, elem, ElementParams(p), elems)
  {
    hide PutCount, PutElements, ElementParams;
  }

  lemma PutNone(s: BitSeq, fields: seq<Field>, vs: seq<Option<Value>>)
    requires |fields| == |vs|
    ensures PutFields(s, fields, vs, |fields|) == Ok(s)
  {}

  /** One more field: absent, or written after its parameters. */
  lemma PutNext(s: BitSeq, fields: seq<Field>, vs: seq<Option<Value>>, i: nat)
    requires i < |fields| == |vs|
    ensures !Marked(fields, Presence(fields, vs, |fields|), i) ==> PutFields(s, fields, vs, i) == PutFields(s, fields, vs, i + 1)
    ensures Marked(fields, Presence(fields, vs, |fields|), i) ==>
              PutFields(s, fields, vs, i)
              == var p := FieldParams(fields, vs[..i]);
                 if p.Err? then Err(p.error)
                 else if vs[i].None? then Err(NilValue)
                 else
                   var r := PutField(s, fields[i].ty, p.value, vs[i].value);
                   if r.Err? then Err(r.error) else PutFields(r.value, fields, vs, i + 1)
  {
    hide Marked, FieldParams, PutField, Presence;
  }

  lemma PutOpenType(s: BitSeq, alts: seq<Field>, p: Params, present: Int64, alt: Value)
    requires p.openType && 1 <= present <= |alts|
    requires PutField(s, ChoiceType(alts), p, ChoiceValue(present, alt)).Ok?
    ensures
      var inner := PutField([], alts[present - 1].ty, alts[present - 1].params, alt);
      && inner.Ok?
      && var content := Pack(Align(inner.value));
      PutField(s, ChoiceType(alts), p, ChoiceValue(present, alt))
      == PutFragments(s + Extension(p.valueExtensible), content, 0, |content|, 0, -1, 8)
  {
    hide PutFragments, Extension, Pack, Align, PutBitString, PutOctetString, PutEnumerated, PutInteger, PutCount, PutChoiceIndex;
    hide PutElements, PutFields;
  }

  /** The octets of a whole message: padded with zeros, and never empty. */
  function Marshalled(t: Type, p: Params, v: Value): Result<seq<bv8>> {
    var s :- PutField([], t, p, v);
    Ok(if s == [] then [0] else Pack(Align(s)))
  }
}
