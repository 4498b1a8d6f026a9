/** Which values the encoder can write, told from the type, its parameters and the value. */
module WritableValues {
  import opened Bits
  import opened Common
  import opened BitCopy
  import opened Encoding
  import opened RoundTrip
  import opened IntegerRoundTrip

  // ---------- strings ----------

  /** A length within its bounds; one fragment when there is a lower bound; the fixed size when the string is
      longer than two octets. An empty string of fixed size is written at octet boundaries only; with no place given,
      it is not counted on. */
  predicate StringWritable(place: Option<BitSeq>, n: nat, unit: Unit, extensible: bool, lb: Option<Size>, ub: Option<Size>) {
    var r := StringForm(n, extensible, lb, ub);
    && r.Ok?
    && if r.value.sizeRange == 1 then
         if n == 0 then place.Some? && (|place.value| + |r.value.extension|) % 8 == 0
         else BytesOf(n, unit) <= 2 || n == ub.value
       else n >= r.value.lb && (r.value.lb > 0 ==> FragmentSize(n - r.value.lb) == n - r.value.lb)
  }

  lemma LengthWritten(s: BitSeq, sizeRange: int, n: nat)
    requires n <= 65536 && (Bounded(sizeRange) ==> n < sizeRange)
    ensures PutLength(s, sizeRange, n).Ok?
  {
    Pow2Values();
    if Bounded(sizeRange) { RangeWritten(s, sizeRange, n); }
    hide Align, PutConstrained;
  }

  /** One turn of the fragment loop, when there is enough content for it. */
  lemma TurnWritten(s: BitSeq, content: seq<bv8>, offset: nat, raw: nat, lb: nat, sizeRange: int, unit: Unit)
    requires offset <= |content| && PutLength(s, sizeRange, FragmentSize(raw)).Ok?
    requires offset + BytesOf(FragmentSize(raw) + lb, unit) <= |content|
    ensures
      var part := FragmentSize(raw);
      var s1 := PutLength(s, sizeRange, part).value;
      var end := offset + BytesOf(part + lb, unit);
      var r := PutFragments(s, content, offset, raw, lb, sizeRange, unit);
      if part + lb == 0 || part == raw then r.Ok?
      else r == PutFragments(Align(s1) + Unpack(content[offset..end]), content, end, raw - part, lb, sizeRange, unit)
  {
    hide PutLength, Align, Unpack, FragmentSize, BytesOf;
  }

  /** Without a lower bound a string of any length is written. */
  lemma {:induction false} FragmentsWritten(s: BitSeq, content: seq<bv8>, offset: nat, raw: nat, sizeRange: int, unit: Unit)
    requires offset <= |content| && |content| - offset == BytesOf(raw, unit) && (Bounded(sizeRange) ==> raw < sizeRange)
    ensures PutFragments(s, content, offset, raw, 0, sizeRange, unit).Ok?
    decreases |content| - offset
  {
    hide PutLength, Align, Unpack, PutFragments, BytesOf, BitsOf;
    var part := FragmentSize(raw);
    LengthWritten(s, sizeRange, part);
    if part == raw {
      TurnWritten(s, content, offset, raw, 0, sizeRange, unit);
    } else {
      PieceLeaves(raw, part, unit);
      TurnWritten(s, content, offset, raw, 0, sizeRange, unit);
      if part > 0 {
        var end := offset + BytesOf(part, unit);
        FragmentsWritten(Align(PutLength(s, sizeRange, part).value) + Unpack(content[offset..end]), content, end,
                         raw - part, sizeRange, unit);
      }
    }
  }

  lemma OtherFragmentsWritten(s: BitSeq, content: seq<bv8>, n: nat, lb: Size, sizeRange: int, unit: Unit)
    requires |content| == BytesOf(n, unit) && (Bounded(sizeRange) && n >= lb ==> n - lb < sizeRange)
    ensures PutFragments(s, content, 0, RawCount(n, lb), lb, sizeRange, unit).Ok?
            <==> n >= lb && (lb > 0 ==> FragmentSize(n - lb) == n - lb)
  {
    hide PutLength, Align, Unpack, PutFragments, BytesOf;
    if n < lb {
      TooShort(s, content, n, lb, sizeRange, unit);
    } else if lb == 0 {
      FragmentsWritten(s, content, 0, n, sizeRange, unit);
    } else if FragmentSize(n - lb) == n - lb {
      LengthWritten(s, sizeRange, n - lb);
      TurnWritten(s, content, 0, n - lb, lb, sizeRange, unit);
    } else {
      FragmentSizeWhole(n - lb);
      SecondPieceFails(s, content, 0, n - lb, lb, sizeRange, unit);
    }
  }

  lemma FragmentSizeWhole(raw: nat)
    requires FragmentSize(raw) != raw
    ensures FragmentSize(raw) % 8 == 0
  {}

  /** A string is written exactly where it is writable. */
  lemma StringWritten(s: BitSeq, content: seq<bv8>, n: nat, unit: Unit, extensible: bool, lb: Option<Size>, ub: Option<Size>)
    requires |content| == BytesOf(n, unit)
    ensures PutString(s, content, n, unit, extensible, lb, ub).Ok? <==> StringWritable(Some(s), n, unit, extensible, lb, ub)
    ensures StringWritable(None, n, unit, extensible, lb, ub) ==> StringWritable(Some(s), n, unit, extensible, lb, ub)
  {
    hide PutFragments, BytesOf, FragmentSize, Align, Unpack;
    var r := StringForm(n, extensible, lb, ub);
    if r.Ok? {
      var s0 := s + r.value.extension;
      if r.value.sizeRange == 1 {
        BytesOfNone(n, unit);
      } else {
        OtherFragmentsWritten(s0, content, n, r.value.lb, r.value.sizeRange, unit);
      }
    }
  }

  lemma BytesOfNone(n: nat, unit: Unit)
    ensures BytesOf(n, unit) > 2 ==> n > 0
  {}

  // ---------- the other leaves ----------

  predicate IntegerWritable(value: Int64, extensible: bool, lb: Option<Int64>, ub: Option<Int64>) {
    IntegerForm(value, extensible, lb, ub).Ok? && IntegerFits(value, IntegerForm(value, extensible, lb, ub).value)
  }

  /** The numbers a constrained width has room for, in the range or not. */
  predicate WidthHolds(range: int, value: nat) {
    0 <= range <= 65536 && value < if range <= 255 then Pow2(Width(range)) else if range == 256 then 256 else 65536
  }

  lemma WidthWritten(s: BitSeq, range: int, value: nat)
    ensures PutConstrained(s, range, value).Ok? <==> WidthHolds(range, value)
  {
    hide Align, Width;
    Pow2Values();
  }

  /** Within its bounds; the value itself goes into the width of the range. */
  predicate EnumeratedWritable(value: Uint64, lb: Option<Int64>, ub: Option<Int64>) {
    && lb.Some? && ub.Some? && lb.value <= WrapInt64(value) <= ub.value
    && var range := WrapInt64(ub.value - lb.value + 1);
       (range > 1 ==> WidthHolds(range, value))
  }

  lemma EnumeratedWritten(s: BitSeq, value: Uint64, extensible: bool, lb: Option<Int64>, ub: Option<Int64>)
    ensures PutEnumerated(s, value, extensible, lb, ub).Ok? <==> EnumeratedWritable(value, lb, ub)
  {
    hide PutConstrained, WidthHolds;
    if lb.Some? && ub.Some? {
      WidthWritten(if extensible then s + [false] else s, WrapInt64(ub.value - lb.value + 1), value);
    }
  }

  predicate IndexWritable(present: Int64, extensible: bool, ub: Option<Int64>) {
    && ub.Some? && ub.value >= 0 && (extensible ==> WrapInt64(present - 1) <= ub.value)
    && WidthHolds(WrapInt64(ub.value + 1), WrapUint64(present - 1))
  }

  lemma IndexWritten(s: BitSeq, present: Int64, extensible: bool, ub: Option<Int64>)
    ensures PutChoiceIndex(s, present, extensible, ub).Ok? <==> IndexWritable(present, extensible, ub)
  {
    hide PutConstrained, WidthHolds;
    if ub.Some? { WidthWritten(s, WrapInt64(ub.value + 1), WrapUint64(present - 1)); }
  }

  /** Within its bounds; an upper bound of 65536 or more is none, and so is such a lower one. */
  predicate CountWritable(n: nat, extensible: bool, lb: Option<Size>, ub: Option<Size>) {
    var low := if lb.Some? && lb.value < 65536 then lb.value else 0;
    low <= n && (ub.Some? && ub.value < 65536 && !extensible ==> n <= ub.value)
  }

  lemma CountIsWritten(s: BitSeq, n: nat, extensible: bool, lb: Option<Size>, ub: Option<Size>)
    ensures PutCount(s, n, extensible, lb, ub).Ok? <==> CountWritable(n, extensible, lb, ub)
  {
    hide PutConstrained, Align, FromNat;
    var r := CountForm(n, extensible, lb, ub);
    if r.Ok? && 1 < r.value.sizeRange && n >= r.value.lb {
      RangeWritten(s + r.value.extension, r.value.sizeRange, n - r.value.lb);
    }
  }

  // ---------- whole values ----------

  /** Where the parts of a value stand that begin after these bits of its own. */
  function Onward(place: Option<BitSeq>, bits: BitSeq): Option<BitSeq> {
    if place.Some? then Some(place.value + bits) else None
  }

  /** Where the next part stands, once these bits are written. */
  function Past(place: Option<BitSeq>, r: Result<BitSeq>): Option<BitSeq> {
    if r.Ok? then Some(r.value) else place
  }

  function Next(place: Option<BitSeq>, t: Type, p: Params, v: Value): Option<BitSeq> {
    if place.None? then None else Past(place, PutField(place.value, t, p, v))
  }

  /** The value fits its type, each leaf its parameters, and every reference of an open type its alternative: at this
      place, or anywhere when none is given. */
  predicate Writable(place: Option<BitSeq>, t: Type, p: Params, v: Value)
    decreases t, 1, 0
  {
    match (t, v)
    case (BitStringType, BitStringValue(bits)) =>
      StringWritable(place, |bits|, 1, p.sizeExtensible, p.sizeLowerBound, p.sizeUpperBound)
    case (OctetStringType, OctetStringValue(bytes)) =>
      StringWritable(place, |bytes|, 8, p.sizeExtensible, p.sizeLowerBound, p.sizeUpperBound)
    case (PrintableStringType, PrintableStringValue(text)) =>
      StringWritable(place, |text|, 8, p.sizeExtensible, p.sizeLowerBound, p.sizeUpperBound)
    case (EnumeratedType, EnumeratedValue(n)) => EnumeratedWritable(n, p.valueLowerBound, p.valueUpperBound)
    case (BoolType, BoolValue(_)) => true
    case (IntType, IntValue(i)) => IntegerWritable(i, p.valueExtensible, p.valueLowerBound, p.valueUpperBound)
    case (SequenceType(fields), SequenceValue(vs)) =>
      && |vs| == |fields|
      && FieldsWritable(Onward(place, Extension(p.valueExtensible) + Presence(fields, vs, |fields|)), fields, vs, 0)
    case (ChoiceType(alts), ChoiceValue(present, alt)) => 1 <= present <= |alts| && AlternativeWritable(place, t, p, present, alt)
    case (SliceType(elem), SliceValue(elems)) =>
      && CountWritable(|elems|, p.sizeExtensible, p.sizeLowerBound, p.sizeUpperBound)
      && ElementsWritable(AfterCount(place, |elems|, p), elem, ElementParams(p), elems)
    case _ => false
  }

  /** An open type stands at the beginning of octets of its own. */
  predicate AlternativeWritable(place: Option<BitSeq>, t: Type, p: Params, present: Int64, alt: Value)
    requires t.ChoiceType? && 1 <= present <= |t.alternatives|
    decreases t, 0, 0
  {
    var field := t.alternatives[present - 1];
    if p.openType then
      && p.referenceFieldValue.Some? && field.params.referenceFieldValue == p.referenceFieldValue
      && Writable(Some([]), field.ty, field.params, alt)
    else
      && IndexWritable(present, p.valueExtensible, p.valueUpperBound)
      && Writable(AfterIndex(place, p, present), field.ty, field.params, alt)
  }

  function AfterIndex(place: Option<BitSeq>, p: Params, present: Int64): Option<BitSeq> {
    var s0 := Onward(place, Extension(p.valueExtensible));
    if s0.None? then None else Past(s0, PutChoiceIndex(s0.value, present, p.valueExtensible, p.valueUpperBound))
  }

  function AfterCount(place: Option<BitSeq>, n: nat, p: Params): Option<BitSeq> {
    if place.None? then None
    else Past(place, PutCount(place.value, n, p.sizeExtensible, p.sizeLowerBound, p.sizeUpperBound))
  }

  /** The fields that the presence bits mark, from `i` on, are there and writable one after another. */
  predicate FieldsWritable(place: Option<BitSeq>, fields: seq<Field>, vs: seq<Option<Value>>, i: nat)
    requires i <= |fields| == |vs|
    decreases fields, 2, |fields| - i
  {
    i == |fields|
    || if Marked(fields, Presence(fields, vs, |fields|), i) then
         && FieldParams(fields, vs[..i]).Ok? && vs[i].Some?
         && Writable(place, fields[i].ty, FieldParams(fields, vs[..i]).value, vs[i].value)
         && FieldsWritable(Next(place, fields[i].ty, FieldParams(fields, vs[..i]).value, vs[i].value), fields, vs, i + 1)
       else FieldsWritable(place, fields, vs, i + 1)
  }

  predicate ElementsWritable(place: Option<BitSeq>, elem: Type, p: Params, elems: seq<Value>)
    decreases elem, 2, |elems|
  {
    elems == []
    || (Writable(place, elem, p, elems[0]) && ElementsWritable(Next(place, elem, p, elems[0]), elem, p, elems[1..]))
  }

  /** What the encoder does with this value at this place is what its structure says. */
  predicate Decided(s: BitSeq, t: Type, p: Params, v: Value) {
    && (PutField(s, t, p, v).Ok? <==> Writable(Some(s), t, p, v))
    && (Writable(None, t, p, v) ==> PutField(s, t, p, v).Ok?)
  }

  /** A value is written exactly where it is writable; and where no place is given, anywhere. */
  lemma {:induction false} ValueWritten(s: BitSeq, t: Type, p: Params, v: Value)
    ensures Decided(s, t, p, v)
    decreases t, 4, 0
  {
    hide PutField, Writable;
    match (t, v)
    case (SequenceType(fields), SequenceValue(vs)) => SequenceWritten(s, fields, p, vs);
    case (ChoiceType(alts), ChoiceValue(present, alt)) => ChoiceWritten(s, alts, p, present, alt);
    case (SliceType(elem), SliceValue(elems)) => SliceWritten(s, elem, p, elems);
    case _ => LeafWritten(s, t, p, v);
  }

  lemma LeafWritten(s: BitSeq, t: Type, p: Params, v: Value)
    requires !(t.SequenceType? && v.SequenceValue?) && !(t.ChoiceType? && v.ChoiceValue?) && !(t.SliceType? && v.SliceValue?)
    ensures Decided(s, t, p, v)
  {
    PutLeaf(s, t, p, v);
    hide PutField, PutString, PutEnumerated, PutInteger, StringWritable, EnumeratedWritable, IntegerWritable, Pack, Padded;
    hide FieldsWritable, ElementsWritable, AlternativeWritable, CountWritable, Presence, Extension;
    match (t, v)
    case (BitStringType, BitStringValue(bits)) =>
      PackedLength(bits);
      StringWritten(s, Pack(Padded(bits)), |bits|, 1, p.sizeExtensible, p.sizeLowerBound, p.sizeUpperBound);
    case (OctetStringType, OctetStringValue(bytes)) =>
      StringWritten(s, bytes, |bytes|, 8, p.sizeExtensible, p.sizeLowerBound, p.sizeUpperBound);
    case (PrintableStringType, PrintableStringValue(text)) =>
      StringWritten(s, text, |text|, 8, p.sizeExtensible, p.sizeLowerBound, p.sizeUpperBound);
    case (EnumeratedType, EnumeratedValue(n)) =>
      EnumeratedWritten(s, n, p.valueExtensible, p.valueLowerBound, p.valueUpperBound);
    case (IntType, IntValue(i)) =>
      IntegerIsWritten(s, i, p.valueExtensible, p.valueLowerBound, p.valueUpperBound);
    case _ =>
  }

  lemma PackedLength(bits: BitSeq)
    ensures |Padded(bits)| % 8 == 0 && |Pack(Padded(bits))| == BytesOf(|bits|, 1)
  {}

  lemma IntegerIsWritten(s: BitSeq, value: Int64, extensible: bool, lb: Option<Int64>, ub: Option<Int64>)
    ensures PutInteger(s, value, extensible, lb, ub).Ok? <==> IntegerWritable(value, extensible, lb, ub)
  {
    hide PutInteger, IntegerFits;
    IntegerWritten(s, value, extensible, lb, ub);
  }

  lemma {:induction false} SequenceWritten(s: BitSeq, fields: seq<Field>, p: Params, vs: seq<Option<Value>>)
    ensures Decided(s, SequenceType(fields), p, SequenceValue(vs))
    decreases SequenceType(fields), 3, 0
  {
    hide PutField, PutFields, FieldsWritable, Presence, Extension;
    PutSequence(s, fields, p, vs);
    if |vs| == |fields| {
      var s0 := s + Extension(p.valueExtensible) + Presence(fields, vs, |fields|);
      assert s0 == s + (Extension(p.valueExtensible) + Presence(fields, vs, |fields|));
      FieldsWritten(s0, fields, vs, 0);
    }
  }

  lemma {:induction false} FieldsWritten(s: BitSeq, fields: seq<Field>, vs: seq<Option<Value>>, i: nat)
    requires i <= |fields| == |vs|
    ensures PutFields(s, fields, vs, i).Ok? <==> FieldsWritable(Some(s), fields, vs, i)
    ensures FieldsWritable(None, fields, vs, i) ==> PutFields(s, fields, vs, i).Ok?
    decreases fields, 4, |fields| - i
  {
    hide PutField, PutFields, Writable, Presence, Marked, FieldParams;
    if i == |fields| {
      PutNone(s, fields, vs);
    } else {
      PutNext(s, fields, vs, i);
      var q := FieldParams(fields, vs[..i]);
      if !Marked(fields, Presence(fields, vs, |fields|), i) {
        FieldsWritten(s, fields, vs, i + 1);
      } else if q.Ok? && vs[i].Some? {
        ValueWritten(s, fields[i].ty, q.value, vs[i].value);
        var r := PutField(s, fields[i].ty, q.value, vs[i].value);
        if r.Ok? { FieldsWritten(r.value, fields, vs, i + 1); }
      }
    }
  }

  lemma {:induction false} ChoiceWritten(s: BitSeq, alts: seq<Field>, p: Params, present: Int64, alt: Value)
    ensures Decided(s, ChoiceType(alts), p, ChoiceValue(present, alt))
    decreases ChoiceType(alts), 3, 0
  {
    hide PutField, Writable, PutChoiceIndex, IndexWritable, Extension;
    var s0 := s + Extension(p.valueExtensible);
    IndexWritten(s0, present, p.valueExtensible, p.valueUpperBound);
    if 1 <= present <= |alts| {
      var field := alts[present - 1];
      if p.openType {
        ValueWritten([], field.ty, field.params, alt);
        OpenPut(s, alts, p, present, alt);
      } else {
        var s1 := PutChoiceIndex(s0, present, p.valueExtensible, p.valueUpperBound);
        if s1.Ok? { ValueWritten(s1.value, field.ty, field.params, alt); }
        IndexedPut(s, alts, p, present, alt);
      }
      ChoiceIs(Some(s), alts, p, present, alt);
      ChoiceIs(None, alts, p, present, alt);
    } else {
      OutOfRange(s, alts, p, present, alt);
    }
  }

  lemma ChoiceIs(place: Option<BitSeq>, alts: seq<Field>, p: Params, present: Int64, alt: Value)
    requires 1 <= present <= |alts|
    ensures Writable(place, ChoiceType(alts), p, ChoiceValue(present, alt)) == AlternativeWritable(place, ChoiceType(alts), p, present, alt)
  {
    hide StringWritable, EnumeratedWritable, IntegerWritable, CountWritable, FieldsWritable, ElementsWritable, AlternativeWritable;
  }

  lemma OutOfRange(s: BitSeq, alts: seq<Field>, p: Params, present: Int64, alt: Value)
    requires !(1 <= present <= |alts|)
    ensures PutField(s, ChoiceType(alts), p, ChoiceValue(present, alt)).Err?
    ensures forall place :: !Writable(place, ChoiceType(alts), p, ChoiceValue(present, alt))
  {
    hide PutChoiceIndex, PutFragments, PutFields, PutElements, Extension, Align, Pack, AlternativeWritable, FieldsWritable;
    hide ElementsWritable;
  }

  lemma IndexedPut(s: BitSeq, alts: seq<Field>, p: Params, present: Int64, alt: Value)
    requires 1 <= present <= |alts| && !p.openType
    ensures
      var s1 := PutChoiceIndex(s + Extension(p.valueExtensible), present, p.valueExtensible, p.valueUpperBound);
      PutField(s, ChoiceType(alts), p, ChoiceValue(present, alt))
      == if s1.Err? then s1 else PutField(s1.value, alts[present - 1].ty, alts[present - 1].params, alt)
  {
    hide PutChoiceIndex, PutFragments, PutFields, PutElements, Extension, Align, Pack, Presence;
    hide PutBitString, PutOctetString, PutEnumerated, PutInteger, PutCount;
  }

  /** An open type is written when its alternative is, and carries the reference value. */
  lemma OpenPut(s: BitSeq, alts: seq<Field>, p: Params, present: Int64, alt: Value)
    requires 1 <= present <= |alts| && p.openType
    ensures PutField(s, ChoiceType(alts), p, ChoiceValue(present, alt)).Ok?
            <==> p.referenceFieldValue.Some? && alts[present - 1].params.referenceFieldValue == p.referenceFieldValue
                 && PutField([], alts[present - 1].ty, alts[present - 1].params, alt).Ok?
  {
    hide PutChoiceIndex, PutFragments, PutFields, PutElements, Extension, Align, Pack;
    var inner := PutField([], alts[present - 1].ty, alts[present - 1].params, alt);
    if inner.Ok? {
      var content := Pack(Align(inner.value));
      OctetsOnly(|content|);
      FragmentsWritten(s + Extension(p.valueExtensible), content, 0, |content|, -1, 8);
    }
  }

  lemma OctetsOnly(n: nat)
    ensures BytesOf(n, 8) == n
  {}

  lemma {:induction false} SliceWritten(s: BitSeq, elem: Type, p: Params, elems: seq<Value>)
    ensures Decided(s, SliceType(elem), p, SliceValue(elems))
    decreases SliceType(elem), 3, 0
  {
    hide PutField, PutElements, PutCount, CountWritable, ElementParams, ElementsWritable;
    PutSlice(s, elem, p, elems);
    CountIsWritten(s, |elems|, p.sizeExtensible, p.sizeLowerBound, p.sizeUpperBound);
    var s1 := PutCount(s, |elems|, p.sizeExtensible, p.sizeLowerBound, p.sizeUpperBound);
    if s1.Ok? { ElementsWritten(s1.value, elem, ElementParams(p), elems); }
  }

  lemma {:induction false} ElementsWritten(s: BitSeq, elem: Type, p: Params, elems: seq<Value>)
    ensures PutElements(s, elem, p, elems).Ok? <==> ElementsWritable(Some(s), elem, p, elems)
    ensures ElementsWritable(None, elem, p, elems) ==> PutElements(s, elem, p, elems).Ok?
    decreases elem, 4, |elems|
  {
    hide PutField, Writable;
    if elems != [] {
      ValueWritten(s, elem, p, elems[0]);
      var r := PutField(s, elem, p, elems[0]);
      if r.Ok? { ElementsWritten(r.value, elem, p, elems[1..]); }
    }
  }
}
