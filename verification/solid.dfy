/** Types every value of which ends in a bit: their values come back without any condition on positions. */
module SolidTypes {
  import opened Bits
  import opened Common
  import opened BitCopy
  import opened Encoding
  import opened Decoding
  import opened RoundTrip
  import opened IntegerRoundTrip
  import opened WholeValue
  import opened WritableValues

  /** No leaf of the type can take no bits: no INTEGER or ENUMERATED of one value, no empty SEQUENCE, no
      SEQUENCE OF fixed at no elements. */
  predicate Solid(t: Type, p: Params)
    decreases t
  {
    match t
    case EnumeratedType => p.valueExtensible || SeveralNames(p.valueLowerBound, p.valueUpperBound)
    case IntType => p.valueExtensible || SeveralValues(p.valueLowerBound, p.valueUpperBound)
    case SequenceType(fields) =>
      (p.valueExtensible || fields != []) && forall i | 0 <= i < |fields| :: Solid(fields[i].ty, fields[i].params)
    case ChoiceType(alts) => p.openType || forall i | 0 <= i < |alts| :: Solid(alts[i].ty, alts[i].params)
    case SliceType(elem) => (p.sizeExtensible || p.sizeUpperBound != Some(0)) && Solid(elem, ElementParams(p))
    case _ => true
  }

  predicate SeveralValues(lb: Option<Int64>, ub: Option<Int64>) {
    lb.Some? && ub.Some? ==> WrapInt64(ub.value - lb.value + 1) != 1
  }

  predicate SeveralNames(lb: Option<Int64>, ub: Option<Int64>) {
    lb.Some? && ub.Some? ==> WrapInt64(ub.value - lb.value + 1) > 1
  }

  /** Solid are all strings and flags, the integers and enumerations of more than one value or none fixed, and what is
      made of solid types but for the empty sequence and the list that is always empty. */
  lemma SolidKinds(p: Params, fields: seq<Field>, elem: Type)
    ensures Solid(BitStringType, p) && Solid(OctetStringType, p) && Solid(PrintableStringType, p) && Solid(BoolType, p)
    ensures p.valueExtensible || p.valueLowerBound.None? || p.valueUpperBound.None? ==> Solid(IntType, p) && Solid(EnumeratedType, p)
    ensures p.valueLowerBound.Some? && p.valueUpperBound.Some?
            && 0 < p.valueUpperBound.value - p.valueLowerBound.value < 0x7fff_ffff_ffff_ffff
            ==> Solid(IntType, p) && Solid(EnumeratedType, p)
    ensures (forall i | 0 <= i < |fields| :: Solid(fields[i].ty, fields[i].params)) ==>
              Solid(ChoiceType(fields), p) && (fields != [] || p.valueExtensible ==> Solid(SequenceType(fields), p))
    ensures p.openType ==> Solid(ChoiceType(fields), p)
    ensures Solid(elem, ElementParams(p)) && p.sizeUpperBound != Some(0) ==> Solid(SliceType(elem), p)
  {}

  /** The reference value of an open type makes no difference. */
  lemma {:induction false} SolidResolved(t: Type, p: Params, ref: Option<Int64>)
    requires Solid(t, p)
    ensures Solid(t, p.(referenceFieldValue := ref))
  {
    if t.SliceType? {
      SolidResolved(t.elem, ElementParams(p), ref);
      assert ElementParams(p).(referenceFieldValue := ref) == ElementParams(p.(referenceFieldValue := ref));
    }
  }

  // ---------- leaves ----------

  lemma StringTakesBits(s: BitSeq, content: seq<bv8>, n: nat, unit: Unit, extensible: bool, lb: Option<Size>, ub: Option<Size>)
    requires |content| == BytesOf(n, unit) && StringAgrees(n, extensible, lb, ub)
    requires PutString(s, content, n, unit, extensible, lb, ub).Ok?
    ensures |s| < |PutString(s, content, n, unit, extensible, lb, ub).value|
  {
    hide PutFragments, FragmentsAgree, Unpack, Align, StringForm;
  }

  lemma IntegerTakesBits(s: BitSeq, value: Int64, extensible: bool, lb: Option<Int64>, ub: Option<Int64>)
    requires ValueUsable(extensible, lb, ub) && (extensible || SeveralValues(lb, ub))
    requires PutInteger(s, value, extensible, lb, ub).Ok?
    ensures |s| < |PutInteger(s, value, extensible, lb, ub).value|
  {
    hide PutConstrained, PutRawInteger;
  }

  lemma EnumeratedTakesBits(s: BitSeq, value: Uint64, extensible: bool, lb: Option<Int64>, ub: Option<Int64>)
    requires EnumeratedAgrees(value, lb, ub) && (extensible || SeveralNames(lb, ub))
    requires PutEnumerated(s, value, extensible, lb, ub).Ok?
    ensures |s| < |PutEnumerated(s, value, extensible, lb, ub).value|
  {
    hide PutConstrained;
  }

  lemma CountTakesBits(s: BitSeq, extensible: bool, lb: Option<Size>, ub: Option<Size>)
    requires PutCount(s, 0, extensible, lb, ub).Ok? && CountUsable(extensible, ub) && (extensible || ub != Some(0))
    ensures |s| < |PutCount(s, 0, extensible, lb, ub).value|
  {
    hide PutConstrained;
  }

  // ---------- structure ----------

  /** The last field of a value of a solid type starts before the value ends. */
  lemma {:induction false} SolidStart(s: BitSeq, t: Type, p: Params, v: Value)
    requires Solid(t, p) && Agrees(t, p, v) && PutField(s, t, p, v).Ok?
    ensures LastStart(s, t, p, v) < |PutField(s, t, p, v).value|
    decreases t, 1, 0
  {
    hide PutString, PutInteger, PutEnumerated, PutCount, PutChoiceIndex, PutFragments, Pack, Align;
    hide PutFields, PutElements, FieldsAgree, LastFieldStart, LastElementStart, Presence, OpenTypeAgrees;
    match (t, v)
    case (BitStringType, BitStringValue(bits)) =>
      var content := BitsOfContent(bits);
      StringTakesBits(s, content, |bits|, 1, p.sizeExtensible, p.sizeLowerBound, p.sizeUpperBound);
    case (OctetStringType, OctetStringValue(bytes)) =>
      StringTakesBits(s, bytes, |bytes|, 8, p.sizeExtensible, p.sizeLowerBound, p.sizeUpperBound);
    case (PrintableStringType, PrintableStringValue(text)) =>
      StringTakesBits(s, text, |text|, 8, p.sizeExtensible, p.sizeLowerBound, p.sizeUpperBound);
    case (EnumeratedType, EnumeratedValue(n)) =>
      EnumeratedTakesBits(s, n, p.valueExtensible, p.valueLowerBound, p.valueUpperBound);
    case (IntType, IntValue(i)) =>
      IntegerTakesBits(s, i, p.valueExtensible, p.valueLowerBound, p.valueUpperBound);
    case (SequenceType(fields), SequenceValue(vs)) =>
      SolidSequence(s, fields, p, vs);
    case (ChoiceType(alts), ChoiceValue(present, alt)) =>
      if !p.openType {
        var s1 := PutChoiceIndex(s + Extension(p.valueExtensible), present, p.valueExtensible, p.valueUpperBound).value;
        SolidStart(s1, alts[present - 1].ty, alts[present - 1].params, alt);
      }
    case (SliceType(elem), SliceValue(elems)) =>
      SolidSlice(s, elem, p, elems);
    case _ =>
  }

  lemma {:induction false} SolidSequence(s: BitSeq, fields: seq<Field>, p: Params, vs: seq<Option<Value>>)
    requires Solid(SequenceType(fields), p) && Agrees(SequenceType(fields), p, SequenceValue(vs))
    requires PutField(s, SequenceType(fields), p, SequenceValue(vs)).Ok?
    ensures LastStart(s, SequenceType(fields), p, SequenceValue(vs))
          < |PutField(s, SequenceType(fields), p, SequenceValue(vs)).value|
    decreases SequenceType(fields), 0, 0
  {
    hide Presence, Extension, PutFields, LastFieldStart, FieldsAgree;
    var s0 := s + Extension(p.valueExtensible) + Presence(fields, vs, |fields|);
    SolidFields(s0, fields, vs, 0, |s|);
    ExtensionBits(p.valueExtensible);
    if fields != [] && |s0| == |s| {
      FirstIsMarked(fields, Presence(fields, vs, |fields|));
    }
  }

  lemma ExtensionBits(extensible: bool)
    ensures |Extension(extensible)| == if extensible then 1 else 0
  {}

  /** With no presence bits the first field is mandatory. */
  lemma FirstIsMarked(fields: seq<Field>, presence: BitSeq)
    requires fields != [] && |presence| == OptionalCount(fields) == 0
    ensures Marked(fields, presence, 0)
  {
    OptionalMonotone(fields, 0, |fields|);
  }

  /** Whether a field from `i` on is there. */
  predicate SomeMarked(fields: seq<Field>, vs: seq<Option<Value>>, i: nat)
    requires i <= |fields| == |vs|
    decreases |fields| - i
  {
    i < |fields| && (Marked(fields, Presence(fields, vs, |fields|), i) || SomeMarked(fields, vs, i + 1))
  }

  lemma {:induction false} SolidFields(s: BitSeq, fields: seq<Field>, vs: seq<Option<Value>>, i: nat, last: nat)
    requires i <= |fields| == |vs| && last <= |s| && (forall j | 0 <= j < |fields| :: Solid(fields[j].ty, fields[j].params))
    requires FieldsAgree(fields, vs, i) && PutFields(s, fields, vs, i).Ok?
    ensures
      var r, start := PutFields(s, fields, vs, i).value, LastFieldStart(s, fields, vs, i, last);
      start < |r| || (start == last && |r| == |s| && !SomeMarked(fields, vs, i))
    decreases fields, 2, |fields| - i
  {
    hide Presence, Marked, FieldParams, PutField, LastStart, Agrees, AgreesAt, Solid;
    if i < |fields| {
      if !Marked(fields, Presence(fields, vs, |fields|), i) {
        SolidFields(s, fields, vs, i + 1, last);
      } else {
        var p, v := FieldParams(fields, vs[..i]).value, vs[i].value;
        ResolvedSolid(fields, vs[..i]);
        SolidStart(s, fields[i].ty, p, v);
        LastStartWithin(s, fields[i].ty, p, v);
        SolidFields(PutField(s, fields[i].ty, p, v).value, fields, vs, i + 1, LastStart(s, fields[i].ty, p, v));
      }
    }
  }

  lemma ResolvedSolid(fields: seq<Field>, before: seq<Option<Value>>)
    requires |before| < |fields| && FieldParams(fields, before).Ok? && Solid(fields[|before|].ty, fields[|before|].params)
    ensures Solid(fields[|before|].ty, FieldParams(fields, before).value)
  {
    hide Solid, ReferenceValue, FieldIndex;
    var p := fields[|before|].params;
    if p.openType {
      SolidResolved(fields[|before|].ty, p, FieldParams(fields, before).value.referenceFieldValue);
    }
  }

  lemma {:induction false} SolidSlice(s: BitSeq, elem: Type, p: Params, elems: seq<Value>)
    requires Solid(SliceType(elem), p) && Agrees(SliceType(elem), p, SliceValue(elems))
    requires PutField(s, SliceType(elem), p, SliceValue(elems)).Ok?
    ensures LastStart(s, SliceType(elem), p, SliceValue(elems))
          < |PutField(s, SliceType(elem), p, SliceValue(elems)).value|
    decreases SliceType(elem), 0, 0
  {
    hide PutCount, PutElements, LastElementStart;
    var s1 := PutCount(s, |elems|, p.sizeExtensible, p.sizeLowerBound, p.sizeUpperBound).value;
    SolidElements(s1, elem, ElementParams(p), elems, |s|);
    if elems == [] {
      CountTakesBits(s, p.sizeExtensible, p.sizeLowerBound, p.sizeUpperBound);
    }
  }

  lemma {:induction false} SolidElements(s: BitSeq, elem: Type, p: Params, elems: seq<Value>, last: nat)
    requires Solid(elem, p) && (forall i | 0 <= i < |elems| :: Agrees(elem, p, elems[i])) && last <= |s|
    requires PutElements(s, elem, p, elems).Ok?
    ensures
      var r, start := PutElements(s, elem, p, elems).value, LastElementStart(s, elem, p, elems, last);
      if elems == [] then start == last && r == s else start < |r|
    decreases elem, 2, |elems|
  {
    hide PutField, LastStart, Agrees, AgreesAt, Solid;
    if elems != [] {
      SolidStart(s, elem, p, elems[0]);
      LastStartWithin(s, elem, p, elems[0]);
      SolidElements(PutField(s, elem, p, elems[0]).value, elem, p, elems[1..], LastStart(s, elem, p, elems[0]));
    }
  }

  // ---------- main results ----------

  /** A value of a solid type comes back from wherever it was written, also at the very end of the data. */
  lemma SolidRoundTrip(s: BitSeq, t: Type, p: Params, v: Value, d: BitSeq)
    requires |d| % 8 == 0 && Solid(t, p) && Agrees(t, p, v)
    requires PutField(s, t, p, v).Ok? && PutField(s, t, p, v).value <= d
    ensures GetField(d, |s|, t, p) == Got(v, |PutField(s, t, p, v).value|)
  {
    hide PutField, GetField, Agrees, AgreesAt, LastStart, Solid;
    SolidStart(s, t, p, v);
    AgreesHere(s, t, p, v);
    FieldRoundTrip(s, t, p, v, d);
  }

  /** Unmarshal undoes Marshal on every message of a solid type. */
  lemma SolidMessage(t: Type, p: Params, v: Value)
    requires Solid(t, p) && Agrees(t, p, v) && Marshalled(t, p, v).Ok?
    ensures Unmarshalled(Marshalled(t, p, v).value, t, p) == Ok(v)
  {
    hide PutField, Agrees, AgreesAt, LastStart, Solid, Pack;
    SolidStart([], t, p, v);
    AgreesHere([], t, p, v);
    MessageRoundTrip(t, p, v);
  }

  /** Told from type, parameters and value alone: such a message is written, and Unmarshal gives it back. */
  lemma WrittenAndBack(t: Type, p: Params, v: Value)
    requires Solid(t, p) && Agrees(t, p, v) && Writable(None, t, p, v)
    ensures Marshalled(t, p, v).Ok? && Unmarshalled(Marshalled(t, p, v).value, t, p) == Ok(v)
  {
    hide PutField, Agrees, Solid, Writable, Pack;
    ValueWritten([], t, p, v);
    SolidMessage(t, p, v);
  }

  /** The body of an open type needs no condition on positions either, when its type is solid. */
  lemma SolidOpenType(t: Type, p: Params, v: Value)
    requires Solid(t, p) && Agrees(t, p, v) && OpenTypeOctets(t, p, v).Ok?
    ensures OpenTypeAgrees(t, p, v) <==> FragmentsAgree(-1, 0, |OpenTypeOctets(t, p, v).value|)
  {
    hide PutField, Agrees, AgreesAt, LastStart, Solid, Pack;
    SolidStart([], t, p, v);
  }
}
