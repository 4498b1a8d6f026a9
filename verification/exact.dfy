/** Exactly which values come back from where they are written, part by part. */
module Exactness {
  import opened Bits
  import opened Common
  import opened BitCopy
  import opened Encoding
  import opened Decoding
  import opened RoundTrip
  import opened IntegerRoundTrip
  import opened WholeValue
  import WritableValues

  // ---------- tags ----------

  /** The tags of a type are such as both sides read alike, all the way down; no value is looked at. */
  predicate TagsAlike(t: Type, p: Params)
    decreases t
  {
    match t
    case BitStringType => !p.valueExtensible && SizeUsable(p.sizeExtensible, p.sizeLowerBound, p.sizeUpperBound)
    case PrintableStringType => !p.valueExtensible && SizeUsable(p.sizeExtensible, p.sizeLowerBound, p.sizeUpperBound)
    case OctetStringType => SizeUsable(p.sizeExtensible, p.sizeLowerBound, p.sizeUpperBound)
    case ObjectIdentifierType => true
    case EnumeratedType => !p.sizeExtensible
    case BoolType => !p.sizeExtensible && !p.valueExtensible
    case IntType => !p.sizeExtensible && ValueUsable(p.valueExtensible, p.valueLowerBound, p.valueUpperBound)
    case SequenceType(fields) =>
      !p.sizeExtensible && forall i | 0 <= i < |fields| :: TagsAlike(fields[i].ty, fields[i].params)
    case ChoiceType(alts) =>
      && !p.sizeExtensible && OptionalCount(alts) == 0
      && forall i | 0 <= i < |alts| :: TagsAlike(alts[i].ty, alts[i].params)
    case SliceType(elem) => CountUsable(p.sizeExtensible, p.sizeUpperBound) && TagsAlike(elem, ElementParams(p))
  }

  /** The reference value of an open type is no tag. */
  lemma {:induction false} TagsResolved(t: Type, p: Params, ref: Option<Int64>)
    requires TagsAlike(t, p)
    ensures TagsAlike(t, p.(referenceFieldValue := ref))
    decreases t
  {
    if t.SliceType? {
      TagsResolved(t.elem, ElementParams(p), ref);
      assert ElementParams(p).(referenceFieldValue := ref) == ElementParams(p.(referenceFieldValue := ref));
    }
  }

  lemma FieldTags(fields: seq<Field>, before: seq<Option<Value>>)
    requires |before| < |fields| && FieldParams(fields, before).Ok? && TagsAlike(fields[|before|].ty, fields[|before|].params)
    ensures TagsAlike(fields[|before|].ty, FieldParams(fields, before).value)
  {
    hide ReferenceValue, TagsAlike;
    var p, q := fields[|before|].params, FieldParams(fields, before).value;
    TagsResolved(fields[|before|].ty, p, q.referenceFieldValue);
    assert q == p || q == p.(referenceFieldValue := q.referenceFieldValue);
  }

  // ---------- parts ----------

  /** The value and every part of it come back from where they were written: fields, elements and alternatives,
      the count of a SEQUENCE OF, and the octets of an open type, which are read on their own. */
  predicate Restored(d: BitSeq, s: BitSeq, t: Type, p: Params, v: Value)
    decreases t, 0, 0
  {
    && PutField(s, t, p, v).Ok? && PutField(s, t, p, v).value <= d
    && GetField(d, |s|, t, p) == Got(v, |PutField(s, t, p, v).value|)
    && match (t, v)
       case (SequenceType(fields), SequenceValue(vs)) =>
         |vs| == |fields|
         && FieldsRestored(d, s + Extension(p.valueExtensible) + Presence(fields, vs, |fields|), fields, vs, 0)
       case (ChoiceType(alts), ChoiceValue(present, alt)) =>
         && 1 <= present <= |alts|
         && if p.openType then
              && OctetsRestored(d, s + Extension(p.valueExtensible), alts[present - 1], alt, |PutField(s, t, p, v).value|)
              && Restored(Unpack(OpenTypeOctets(alts[present - 1].ty, alts[present - 1].params, alt).value), [],
                          alts[present - 1].ty, alts[present - 1].params, alt)
            else
              var s1 := PutChoiceIndex(s + Extension(p.valueExtensible), present, p.valueExtensible, p.valueUpperBound);
              s1.Ok? && Restored(d, s1.value, alts[present - 1].ty, alts[present - 1].params, alt)
       case (SliceType(elem), SliceValue(elems)) =>
         && CountRestored(d, s, |elems|, p)
         && ElementsRestored(d, PutCount(s, |elems|, p.sizeExtensible, p.sizeLowerBound, p.sizeUpperBound).value,
                             elem, ElementParams(p), elems)
       case _ => true
  }

  predicate FieldsRestored(d: BitSeq, s: BitSeq, fields: seq<Field>, vs: seq<Option<Value>>, i: nat)
    requires i <= |fields| == |vs|
    decreases fields, 1, |fields| - i
  {
    i == |fields|
    || if Marked(fields, Presence(fields, vs, |fields|), i) then
         && FieldParams(fields, vs[..i]).Ok? && vs[i].Some?
         && var p, v := FieldParams(fields, vs[..i]).value, vs[i].value;
            && Restored(d, s, fields[i].ty, p, v)
            && FieldsRestored(d, PutField(s, fields[i].ty, p, v).value, fields, vs, i + 1)
       else vs[i].None? && FieldsRestored(d, s, fields, vs, i + 1)
  }

  predicate ElementsRestored(d: BitSeq, s: BitSeq, elem: Type, p: Params, elems: seq<Value>)
    decreases elem, 1, |elems|
  {
    elems == []
    || (Restored(d, s, elem, p, elems[0])
        && ElementsRestored(d, PutField(s, elem, p, elems[0]).value, elem, p, elems[1..]))
  }

  predicate CountRestored(d: BitSeq, s: BitSeq, n: nat, p: Params) {
    var s1 := PutCount(s, n, p.sizeExtensible, p.sizeLowerBound, p.sizeUpperBound);
    var form := CountForm(n, p.sizeExtensible, p.sizeLowerBound, p.sizeUpperBound);
    && s1.Ok? && s1.value <= d && form.Ok? && |s| + |form.value.extension| <= |d|
    && GetCount(d, |s| + |form.value.extension|, form.value.extension == [true], p.sizeLowerBound, p.sizeUpperBound)
       == Got(Count(n, None), |s1.value|)
  }

  /** As many octets as were written come back, up to where they end. */
  predicate OctetsRestored(d: BitSeq, s: BitSeq, field: Field, alt: Value, end: nat) {
    && OpenTypeOctets(field.ty, field.params, alt).Ok?
    && |s| <= |d|
    && var c := GetFragments(d, |s|, 0, -1, 8, Content([], 0));
       c.Got? && c.pos == end && c.value.n == |OpenTypeOctets(field.ty, field.params, alt).value|
  }

  // ---------- leaves ----------

  /** A string whose length the two sides do not agree on does not come back with its length and its end. */
  lemma StringLost(s: BitSeq, content: seq<bv8>, n: nat, unit: Unit, extensible: bool, lb: Option<Size>, ub: Option<Size>, d: BitSeq)
    requires |content| == BytesOf(n, unit) && |d| % 8 == 0 && SizeUsable(extensible, lb, ub)
    requires PutString(s, content, n, unit, extensible, lb, ub).Ok?
    requires PutString(s, content, n, unit, extensible, lb, ub).value <= d
    ensures StringForm(n, extensible, lb, ub).Ok?
    ensures
      var extension := StringForm(n, extensible, lb, ub).value.extension;
      var c := GetString(d, |s| + |extension|, unit, extension == [true], lb, ub);
      c.Got? && c.pos == |PutString(s, content, n, unit, extensible, lb, ub).value| && c.value.n == n
      ==> StringAgrees(n, extensible, lb, ub)
  {
    hide PutFragments, GetFragments, PutFixed, GetFixed, Unpack, FragmentsAgree, BytesOf;
    var form := StringForm(n, extensible, lb, ub).value;
    if form.sizeRange == 1 {
      FixedNotEmpty(d, |s| + |form.extension|, unit);
    } else {
      if n < form.lb {
        TooShort(s + form.extension, content, n, form.lb, form.sizeRange, unit);
      } else if !FragmentsAgree(form.sizeRange, form.lb, n - form.lb) {
        FragmentsLost(s + form.extension, content, 0, n - form.lb, form.lb, form.sizeRange, unit, d, Content([], 0));
      }
    }
  }

  lemma FixedNotEmpty(d: BitSeq, pos: nat, unit: Unit)
    requires pos <= |d|
    ensures GetFixed(d, pos, unit, 0).Fail?
  {
    hide SkipAlign, Pack, Padded;
  }

  /** An OCTET STRING has as many octets as the decoder counts. */
  lemma {:induction false} OctetsCounted(d: BitSeq, pos: nat, lb: nat, sizeRange: int, got: Content)
    requires pos <= |d| && |got.bytes| == got.n
    ensures var c := GetFragments(d, pos, lb, sizeRange, 8, got); c.Got? ==> |c.value.bytes| == c.value.n
    decreases |d| - pos
  {
    hide GetLength, SkipAlign, Pack;
    var f := GetFragment(d, pos, lb, sizeRange, 8);
    if f.Got? && f.value.1 {
      OctetsCounted(d, f.pos, lb, sizeRange, Content(got.bytes + f.value.0.bytes, got.n + f.value.0.n));
    }
  }

  lemma OctetStringCounted(d: BitSeq, pos: nat, extended: bool, lb: Option<Size>, ub: Option<Size>)
    requires pos <= |d|
    ensures var c := GetString(d, pos, 8, extended, lb, ub); c.Got? ==> |c.value.bytes| == c.value.n
  {
    hide GetFragments, SkipAlign, Pack, GetPacked;
    var low := if !extended && lb.Some? then lb.value else 0;
    var range := if !extended && ub.Some? && ub.value <= 65535 then ub.value - low + 1 else -1;
    if range != 1 { OctetsCounted(d, pos, low, range, Content([], 0)); }
  }

  predicate IsString(t: Type) { t.BitStringType? || t.OctetStringType? || t.PrintableStringType? }

  /** A string field is read after its extension bits. */
  lemma StringRead(s: BitSeq, t: Type, content: seq<bv8>, n: nat, unit: Unit, p: Params, d: BitSeq) returns (extended: bool, at: nat)
    requires IsString(t) && (p.valueExtensible ==> t.OctetStringType?) && |s| < |d| && |content| == BytesOf(n, unit)
    requires SizeUsable(p.sizeExtensible, p.sizeLowerBound, p.sizeUpperBound)
    requires PutString(s, content, n, unit, p.sizeExtensible, p.sizeLowerBound, p.sizeUpperBound).Ok?
    requires PutString(s, content, n, unit, p.sizeExtensible, p.sizeLowerBound, p.sizeUpperBound).value <= d
    ensures StringForm(n, p.sizeExtensible, p.sizeLowerBound, p.sizeUpperBound).Ok?
    ensures
      var extension := StringForm(n, p.sizeExtensible, p.sizeLowerBound, p.sizeUpperBound).value.extension;
      extended == (extension == [true]) && at == |s| + |extension|
    ensures at <= |d| && GetField(d, |s|, t, p) == GetBody(d, at, t, p, extended, false)
  {
    hide PutString, StringForm, SizeUsable, GetFlag, GetBody, GetField, BytesOf;
    StringFieldStart(s, content, n, unit, p, d);
    var extension := StringForm(n, p.sizeExtensible, p.sizeLowerBound, p.sizeUpperBound).value.extension;
    extended, at := extension == [true], |s| + |extension|;
    FlagsRead(s, t, p, d, extended, at);
  }

  /** A field whose value extension bit is not looked for is read from after its size extension bit. */
  lemma FlagsRead(s: BitSeq, t: Type, p: Params, d: BitSeq, extended: bool, at: nat)
    requires IsString(t) && (p.valueExtensible ==> t.OctetStringType?) && |s| < |d| && at <= |d|
    requires GetFlag(d, |s|, p.sizeExtensible) == Got(extended, at)
    ensures GetField(d, |s|, t, p) == GetBody(d, at, t, p, extended, false)
  {
    hide GetBody;
    NoFlag(d, at);
    assert (p.valueExtensible && !t.SliceType? && !t.OctetStringType?) == false;
  }

  lemma StringDecided(s: BitSeq, t: Type, p: Params, v: Value, d: BitSeq)
    requires IsString(t) && TagsAlike(t, p) && |d| % 8 == 0 && |s| < |d|
    requires PutField(s, t, p, v).Ok? && PutField(s, t, p, v).value <= d
    requires GetField(d, |s|, t, p) == Got(v, |PutField(s, t, p, v).value|)
    ensures LeafAgrees(t, p, v)
  {
    hide PutString, GetString, StringForm, StringAgrees, SizeUsable, Pack, Unpack, Padded, BytesOf, PutField, GetField;
    PutLeaf(s, t, p, v);
    match (t, v)
    case (BitStringType, BitStringValue(bits)) =>
      var content := BitsOfContent(bits);
      var extended, at := StringRead(s, t, content, |bits|, 1, p, d);
      StringLost(s, content, |bits|, 1, p.sizeExtensible, p.sizeLowerBound, p.sizeUpperBound, d);
    case (OctetStringType, OctetStringValue(bytes)) => OctetsDecided(s, t, p, bytes, d);
    case (PrintableStringType, PrintableStringValue(text)) => OctetsDecided(s, t, p, text, d);
    case _ => assert false;
  }

  lemma OctetsDecided(s: BitSeq, t: Type, p: Params, bytes: seq<bv8>, d: BitSeq)
    requires (t.OctetStringType? || t.PrintableStringType?) && TagsAlike(t, p) && |d| % 8 == 0 && |s| < |d|
    requires PutOctetString(s, bytes, p.sizeExtensible, p.sizeLowerBound, p.sizeUpperBound).Ok?
    requires PutOctetString(s, bytes, p.sizeExtensible, p.sizeLowerBound, p.sizeUpperBound).value <= d
    requires GetField(d, |s|, t, p)
          == Got(if t.OctetStringType? then OctetStringValue(bytes) else PrintableStringValue(bytes),
                 |PutOctetString(s, bytes, p.sizeExtensible, p.sizeLowerBound, p.sizeUpperBound).value|)
    ensures StringAgrees(|bytes|, p.sizeExtensible, p.sizeLowerBound, p.sizeUpperBound)
  {
    hide PutString, GetString, StringForm, StringAgrees, SizeUsable, Unpack, BytesOf, GetField;
    OctetsOf(|bytes|);
    var extended, at := StringRead(s, t, bytes, |bytes|, 8, p, d);
    OctetStringCounted(d, at, extended, p.sizeLowerBound, p.sizeUpperBound);
    StringLost(s, bytes, |bytes|, 8, p.sizeExtensible, p.sizeLowerBound, p.sizeUpperBound, d);
  }

  lemma IntegerDecided(s: BitSeq, p: Params, i: Int64, d: BitSeq)
    requires TagsAlike(IntType, p) && |d| % 8 == 0 && |s| < |d|
    requires PutField(s, IntType, p, IntValue(i)).Ok? && PutField(s, IntType, p, IntValue(i)).value <= d
    requires GetField(d, |s|, IntType, p) == Got(IntValue(i), |PutField(s, IntType, p, IntValue(i)).value|)
    ensures IntegerAgreesAt(s, i, p.valueExtensible, p.valueLowerBound, p.valueUpperBound)
  {
    PutLeaf(s, IntType, p, IntValue(i));
    hide GetInteger, GetFlag, PutInteger, IntegerForm, SignAgrees, CountReadable, PutField;
    IntegerStarts(s, i, p.valueExtensible, p.valueLowerBound, p.valueUpperBound);
    var form := IntegerForm(i, p.valueExtensible, p.valueLowerBound, p.valueUpperBound).value;
    PrefixThrough(s + form.extension, PutField(s, IntType, p, IntValue(i)).value, d);
    NoFlag(d, |s|);
    if p.valueExtensible { FlagBack(s, form.extension[0], d); }
    IntegerBack(s, i, p.valueExtensible, p.valueLowerBound, p.valueUpperBound, d);
  }

  lemma EnumeratedDecided(s: BitSeq, p: Params, n: Uint64, d: BitSeq)
    requires !p.sizeExtensible && |d| % 8 == 0 && |s| < |d|
    requires PutField(s, EnumeratedType, p, EnumeratedValue(n)).Ok?
    requires PutField(s, EnumeratedType, p, EnumeratedValue(n)).value <= d
    requires GetField(d, |s|, EnumeratedType, p)
          == Got(EnumeratedValue(n), |PutField(s, EnumeratedType, p, EnumeratedValue(n)).value|)
    ensures EnumeratedAgrees(n, p.valueLowerBound, p.valueUpperBound)
  {
    PutLeaf(s, EnumeratedType, p, EnumeratedValue(n));
    hide GetEnumerated, EnumeratedAgrees, GetFlag, PutField;
    NoFlag(d, |s|);
    if p.valueExtensible {
      PrefixThrough(s + [false], PutField(s, EnumeratedType, p, EnumeratedValue(n)).value, d);
      FlagBack(s, false, d);
    }
    EnumeratedBack(s, n, p.valueExtensible, p.valueLowerBound, p.valueUpperBound, d);
  }

  // ---------- what came back whole was agreed on ----------

  /** A value that came back with all its parts is one the two sides agree on where it stands. */
  lemma {:induction false} RestoredAgrees(d: BitSeq, s: BitSeq, t: Type, p: Params, v: Value)
    requires |d| % 8 == 0 && TagsAlike(t, p) && Restored(d, s, t, p, v)
    ensures AgreesAt(s, t, p, v)
    decreases t, 4, 0
  {
    hide PutField, PutFields, PutElements, FieldsAgreeAt, ElementsAgreeAt, FieldsRestored, ElementsRestored, OpenTypeAgrees;
    hide CountRestored, OctetsRestored, PutCount, PutChoiceIndex, Extension, Presence, LeafAgrees, IntegerAgreesAt, GetBody;
    assert |s| < |d|;
    match (t, v)
    case (SequenceType(fields), SequenceValue(vs)) =>
      FieldsRestoredAgree(d, s + Extension(p.valueExtensible) + Presence(fields, vs, |fields|), fields, vs, 0);
    case (ChoiceType(alts), ChoiceValue(present, alt)) => ChoiceRestoredAgrees(d, s, alts, p, present, alt);
    case (SliceType(elem), SliceValue(elems)) =>
      CountDecided(d, s, |elems|, p);
      ElementsRestoredAgree(d, PutCount(s, |elems|, p.sizeExtensible, p.sizeLowerBound, p.sizeUpperBound).value,
                            elem, ElementParams(p), elems);
    case (IntType, IntValue(i)) => IntegerDecided(s, p, i, d);
    case _ => LeafDecided(s, t, p, v, d);
  }

  lemma LeafDecided(s: BitSeq, t: Type, p: Params, v: Value, d: BitSeq)
    requires TagsAlike(t, p) && |d| % 8 == 0 && |s| < |d|
    requires !(t.SequenceType? && v.SequenceValue?) && !(t.ChoiceType? && v.ChoiceValue?) && !(t.SliceType? && v.SliceValue?)
    requires !(t.IntType? && v.IntValue?)
    requires PutField(s, t, p, v).Ok? && PutField(s, t, p, v).value <= d
    requires GetField(d, |s|, t, p) == Got(v, |PutField(s, t, p, v).value|)
    ensures LeafAgrees(t, p, v)
  {
    hide PutField, GetField, StringAgrees, SizeUsable, EnumeratedAgrees;
    PutLeaf(s, t, p, v);
    if IsString(t) {
      StringDecided(s, t, p, v, d);
    } else if t.EnumeratedType? && v.EnumeratedValue? {
      EnumeratedDecided(s, p, v.n, d);
    }
  }

  lemma {:induction false} ChoiceRestoredAgrees(d: BitSeq, s: BitSeq, alts: seq<Field>, p: Params, present: Int64, alt: Value)
    requires |d| % 8 == 0 && TagsAlike(ChoiceType(alts), p)
    requires Restored(d, s, ChoiceType(alts), p, ChoiceValue(present, alt))
    ensures AgreesAt(s, ChoiceType(alts), p, ChoiceValue(present, alt))
    decreases ChoiceType(alts), 3, 0
  {
    hide PutField, GetField, Restored, AgreesAt, TagsAlike, OpenTypeAgrees, OctetsRestored, PutChoiceIndex, Extension, OpenTypeOctets;
    ChoiceTags(alts, p, present);
    ChoiceRestoredParts(d, s, alts, p, present, alt);
    var field := alts[present - 1];
    if p.openType {
      OpenTypeDecided(d, s, alts, p, present, alt);
      RestoredAgrees(Unpack(OpenTypeOctets(field.ty, field.params, alt).value), [], field.ty, field.params, alt);
      InnerDecided(field, alt);
    } else {
      var s1 := PutChoiceIndex(s + Extension(p.valueExtensible), present, p.valueExtensible, p.valueUpperBound).value;
      RestoredAgrees(d, s1, field.ty, field.params, alt);
    }
    ChoiceAgreesAt(s, alts, p, present, alt);
  }

  lemma ChoiceTags(alts: seq<Field>, p: Params, present: Int64)
    requires TagsAlike(ChoiceType(alts), p)
    ensures !p.sizeExtensible && OptionalCount(alts) == 0
    ensures 1 <= present <= |alts| ==> TagsAlike(alts[present - 1].ty, alts[present - 1].params)
  {
    hide OptionalCount;
  }

  lemma ChoiceRestoredParts(d: BitSeq, s: BitSeq, alts: seq<Field>, p: Params, present: Int64, alt: Value)
    requires Restored(d, s, ChoiceType(alts), p, ChoiceValue(present, alt))
    ensures 1 <= present <= |alts|
    ensures
      var r := PutField(s, ChoiceType(alts), p, ChoiceValue(present, alt));
      && r.Ok? && r.value <= d && GetField(d, |s|, ChoiceType(alts), p) == Got(ChoiceValue(present, alt), |r.value|)
      && |s| < |d|
      && (p.openType ==>
            OctetsRestored(d, s + Extension(p.valueExtensible), alts[present - 1], alt, |r.value|)
            && OpenTypeOctets(alts[present - 1].ty, alts[present - 1].params, alt).Ok?
            && Restored(Unpack(OpenTypeOctets(alts[present - 1].ty, alts[present - 1].params, alt).value), [],
                        alts[present - 1].ty, alts[present - 1].params, alt))
    ensures
      var s1 := PutChoiceIndex(s + Extension(p.valueExtensible), present, p.valueExtensible, p.valueUpperBound);
      !p.openType ==> s1.Ok? && Restored(d, s1.value, alts[present - 1].ty, alts[present - 1].params, alt)
  {
    hide PutField, GetBody, GetFlag, PutChoiceIndex, Extension, OpenTypeOctets, FieldsRestored, ElementsRestored, CountRestored;
  }

  lemma ChoiceAgreesAt(s: BitSeq, alts: seq<Field>, p: Params, present: Int64, alt: Value)
    requires !p.sizeExtensible && OptionalCount(alts) == 0 && 1 <= present <= |alts|
    requires
      var s1 := PutChoiceIndex(s + Extension(p.valueExtensible), present, p.valueExtensible, p.valueUpperBound);
      if p.openType
      then p.referenceFieldValue.Some?
           && MatchingAlternative(alts, p.referenceFieldValue.value, 0) == present
           && OpenTypeAgrees(alts[present - 1].ty, alts[present - 1].params, alt)
           && AgreesAt([], alts[present - 1].ty, alts[present - 1].params, alt)
      else s1.Ok? && AgreesAt(s1.value, alts[present - 1].ty, alts[present - 1].params, alt)
    ensures AgreesAt(s, ChoiceType(alts), p, ChoiceValue(present, alt))
  {
    hide OptionalCount, OpenTypeAgrees, FieldsAgreeAt, ElementsAgreeAt, LeafAgrees, MatchingAlternative, PutChoiceIndex, Extension;
  }

  /** The octets of an open type that came back as many can be fragmented and joined, and its alternative is the first
      to carry the reference value. */
  lemma OpenTypeDecided(d: BitSeq, s: BitSeq, alts: seq<Field>, p: Params, present: Int64, alt: Value)
    requires |d| % 8 == 0 && !p.sizeExtensible && OptionalCount(alts) == 0 && p.openType && 1 <= present <= |alts|
    requires PutField(s, ChoiceType(alts), p, ChoiceValue(present, alt)).Ok?
    requires PutField(s, ChoiceType(alts), p, ChoiceValue(present, alt)).value <= d && |s| < |d|
    requires GetField(d, |s|, ChoiceType(alts), p)
          == Got(ChoiceValue(present, alt), |PutField(s, ChoiceType(alts), p, ChoiceValue(present, alt)).value|)
    requires OctetsRestored(d, s + Extension(p.valueExtensible), alts[present - 1], alt,
                            |PutField(s, ChoiceType(alts), p, ChoiceValue(present, alt)).value|)
    ensures p.referenceFieldValue.Some? && MatchingAlternative(alts, p.referenceFieldValue.value, 0) == present
    ensures FragmentsAgree(-1, 0, |OpenTypeOctets(alts[present - 1].ty, alts[present - 1].params, alt).value|)
  {
    hide GetField, GetBody, PutField, Extension, Pack, Unpack, PutFragments, GetFragments, FragmentsAgree, OptionalCount, Align;
    var s0 := s + Extension(p.valueExtensible);
    var field := alts[present - 1];
    var content := OpenTypeOctets(field.ty, field.params, alt).value;
    WritableValues.OpenPut(s, alts, p, present, alt);
    PutOpenType(s, alts, p, present, alt);
    PrefixThrough(s0, PutFragments(s0, content, 0, |content|, 0, -1, 8).value, d);
    StructBody(s, ChoiceType(alts), p, d);
    ChoiceBody(d, |s0|, alts, p);
    OctetsOf(|content|);
    if !FragmentsAgree(-1, 0, |content|) {
      FragmentsLost(s0, content, 0, |content|, 0, -1, 8, d, Content([], 0));
    }
    FirstMatch(alts, p.referenceFieldValue.value, present);
  }

  lemma FirstMatch(alts: seq<Field>, ref: Int64, present: Int64)
    requires 1 <= present <= |alts| && alts[present - 1].params.referenceFieldValue == Some(ref)
    ensures 1 <= MatchingAlternative(alts, ref, 0) <= present
    ensures WrapInt64(MatchingAlternative(alts, ref, 0)) == MatchingAlternative(alts, ref, 0)
  {}

  lemma InnerDecided(field: Field, alt: Value)
    requires OpenTypeOctets(field.ty, field.params, alt).Ok? && AgreesAt([], field.ty, field.params, alt)
    requires FragmentsAgree(-1, 0, |OpenTypeOctets(field.ty, field.params, alt).value|)
    requires Restored(Unpack(OpenTypeOctets(field.ty, field.params, alt).value), [], field.ty, field.params, alt)
    ensures OpenTypeAgrees(field.ty, field.params, alt)
  {
    hide PutField, GetField, AgreesAt, FragmentsAgree, LastStart, Pack;
    var content := OpenTypeOctets(field.ty, field.params, alt).value;
    FieldRoundTrip([], field.ty, field.params, alt, Unpack(content));
  }

  lemma CountDecided(d: BitSeq, s: BitSeq, n: nat, p: Params)
    requires CountUsable(p.sizeExtensible, p.sizeUpperBound) && |d| % 8 == 0 && CountRestored(d, s, n, p)
    ensures PutCount(s, n, p.sizeExtensible, p.sizeLowerBound, p.sizeUpperBound).Ok?
    ensures CountAgrees(n, p.sizeExtensible, p.sizeLowerBound, p.sizeUpperBound)
  {
    hide PutCount, GetCount, CountForm;
    CountBack(s, n, p.sizeExtensible, p.sizeLowerBound, p.sizeUpperBound, d);
  }

  lemma {:induction false} FieldsRestoredAgree(d: BitSeq, s: BitSeq, fields: seq<Field>, vs: seq<Option<Value>>, i: nat)
    requires i <= |fields| == |vs| && |d| % 8 == 0 && FieldsRestored(d, s, fields, vs, i)
    requires forall j | 0 <= j < |fields| :: TagsAlike(fields[j].ty, fields[j].params)
    ensures FieldsAgreeAt(s, fields, vs, i)
    decreases fields, 4, |fields| - i
  {
    hide AgreesAt, Presence, Marked, FieldParams, TagsAlike, PutField, GetField;
    if i < |fields| {
      if Marked(fields, Presence(fields, vs, |fields|), i) {
        var p, v := FieldParams(fields, vs[..i]).value, vs[i].value;
        FieldTags(fields, vs[..i]);
        RestoredAgrees(d, s, fields[i].ty, p, v);
        FieldsRestoredAgree(d, PutField(s, fields[i].ty, p, v).value, fields, vs, i + 1);
      } else {
        FieldsRestoredAgree(d, s, fields, vs, i + 1);
      }
    }
  }

  lemma {:induction false} ElementsRestoredAgree(d: BitSeq, s: BitSeq, elem: Type, p: Params, elems: seq<Value>)
    requires |d| % 8 == 0 && TagsAlike(elem, p) && ElementsRestored(d, s, elem, p, elems)
    ensures ElementsAgreeAt(s, elem, p, elems)
    decreases elem, 4, |elems|
  {
    hide AgreesAt, TagsAlike, PutField, GetField;
    if elems != [] {
      RestoredAgrees(d, s, elem, p, elems[0]);
      ElementsRestoredAgree(d, PutField(s, elem, p, elems[0]).value, elem, p, elems[1..]);
    }
  }

  // ---------- what is agreed on comes back whole ----------

  /** A value the two sides agree on where it stands comes back with all its parts. */
  lemma {:induction false} AgreesRestored(d: BitSeq, s: BitSeq, t: Type, p: Params, v: Value)
    requires |d| % 8 == 0 && AgreesAt(s, t, p, v) && LastStart(s, t, p, v) < |d|
    requires PutField(s, t, p, v).Ok? && PutField(s, t, p, v).value <= d
    ensures Restored(d, s, t, p, v)
    decreases t, 4, 0
  {
    hide PutField, GetField, AgreesAt, LastStart, Restored;
    match (t, v)
    case (SequenceType(fields), SequenceValue(vs)) => SequenceAgreesRestored(d, s, fields, p, vs);
    case (ChoiceType(alts), ChoiceValue(present, alt)) => ChoiceAgreesRestored(d, s, alts, p, present, alt);
    case (SliceType(elem), SliceValue(elems)) => SliceAgreesRestored(d, s, elem, p, elems);
    case _ =>
      FieldRoundTrip(s, t, p, v, d);
      LeafRestored(d, s, t, p, v);
  }

  lemma LeafRestored(d: BitSeq, s: BitSeq, t: Type, p: Params, v: Value)
    requires !(t.SequenceType? && v.SequenceValue?) && !(t.ChoiceType? && v.ChoiceValue?) && !(t.SliceType? && v.SliceValue?)
    requires PutField(s, t, p, v).Ok? && PutField(s, t, p, v).value <= d
    requires GetField(d, |s|, t, p) == Got(v, |PutField(s, t, p, v).value|)
    ensures Restored(d, s, t, p, v)
  {
    hide PutField, GetField;
  }

  lemma {:induction false} SequenceAgreesRestored(d: BitSeq, s: BitSeq, fields: seq<Field>, p: Params, vs: seq<Option<Value>>)
    requires |d| % 8 == 0 && AgreesAt(s, SequenceType(fields), p, SequenceValue(vs))
    requires LastStart(s, SequenceType(fields), p, SequenceValue(vs)) < |d|
    requires PutField(s, SequenceType(fields), p, SequenceValue(vs)).Ok?
    requires PutField(s, SequenceType(fields), p, SequenceValue(vs)).value <= d
    ensures Restored(d, s, SequenceType(fields), p, SequenceValue(vs))
    decreases SequenceType(fields), 3, 0
  {
    hide PutField, GetField, FieldsAgreeAt, FieldsRestored, PutFields, LastFieldStart, Extension, Presence;
    PutSequence(s, fields, p, vs);
    FieldsAgreeRestored(d, s + Extension(p.valueExtensible) + Presence(fields, vs, |fields|), fields, vs, 0, |s|);
    FieldRoundTrip(s, SequenceType(fields), p, SequenceValue(vs), d);
  }

  lemma {:induction false} SliceAgreesRestored(d: BitSeq, s: BitSeq, elem: Type, p: Params, elems: seq<Value>)
    requires |d| % 8 == 0 && AgreesAt(s, SliceType(elem), p, SliceValue(elems))
    requires LastStart(s, SliceType(elem), p, SliceValue(elems)) < |d|
    requires PutField(s, SliceType(elem), p, SliceValue(elems)).Ok?
    requires PutField(s, SliceType(elem), p, SliceValue(elems)).value <= d
    ensures Restored(d, s, SliceType(elem), p, SliceValue(elems))
    decreases SliceType(elem), 3, 0
  {
    hide PutField, GetField, ElementsAgreeAt, ElementsRestored, PutElements, LastElementStart, CountRestored, CountAgrees, PutCount;
    hide ElementParams;
    PutSlice(s, elem, p, elems);
    SliceCount(d, s, elem, p, elems);
    ElementsAgreeRestored(d, PutCount(s, |elems|, p.sizeExtensible, p.sizeLowerBound, p.sizeUpperBound).value,
                          elem, ElementParams(p), elems, |s|);
    FieldRoundTrip(s, SliceType(elem), p, SliceValue(elems), d);
  }

  lemma SliceCount(d: BitSeq, s: BitSeq, elem: Type, p: Params, elems: seq<Value>)
    requires |d| % 8 == 0 && CountUsable(p.sizeExtensible, p.sizeUpperBound)
    requires CountAgrees(|elems|, p.sizeExtensible, p.sizeLowerBound, p.sizeUpperBound)
    requires PutField(s, SliceType(elem), p, SliceValue(elems)).Ok?
    requires PutField(s, SliceType(elem), p, SliceValue(elems)).value <= d
    ensures CountRestored(d, s, |elems|, p)
  {
    PutSlice(s, elem, p, elems);
    hide PutField, PutCount, GetCount, GetFlag, CountForm, CountAgrees, PutElements, ElementParams;
    var s1 := PutCount(s, |elems|, p.sizeExtensible, p.sizeLowerBound, p.sizeUpperBound).value;
    PrefixThrough(s1, PutElements(s1, elem, ElementParams(p), elems).value, d);
    CountFlagBack(s, |elems|, p.sizeExtensible, p.sizeLowerBound, p.sizeUpperBound, d);
    CountBack(s, |elems|, p.sizeExtensible, p.sizeLowerBound, p.sizeUpperBound, d);
  }

  lemma {:induction false} ChoiceAgreesRestored(d: BitSeq, s: BitSeq, alts: seq<Field>, p: Params, present: Int64, alt: Value)
    requires |d| % 8 == 0 && AgreesAt(s, ChoiceType(alts), p, ChoiceValue(present, alt))
    requires LastStart(s, ChoiceType(alts), p, ChoiceValue(present, alt)) < |d|
    requires PutField(s, ChoiceType(alts), p, ChoiceValue(present, alt)).Ok?
    requires PutField(s, ChoiceType(alts), p, ChoiceValue(present, alt)).value <= d
    ensures 1 <= present <= |alts|
    ensures Restored(d, s, ChoiceType(alts), p, ChoiceValue(present, alt))
    decreases ChoiceType(alts), 3, 0
  {
    hide PutField, GetField, Restored, AgreesAt, LastStart, OpenTypeAgrees, OctetsRestored, PutChoiceIndex, Extension, OpenTypeOctets;
    ChoiceParts(s, alts, p, present, alt);
    var field := alts[present - 1];
    if p.openType {
      OctetsBack(d, s, alts, p, present, alt);
      InnerWritten(field, alt);
      AgreesRestored(Unpack(OpenTypeOctets(field.ty, field.params, alt).value), [], field.ty, field.params, alt);
    } else {
      PutChoiceParts(s, alts, p, present, alt);
      var s1 := PutChoiceIndex(s + Extension(p.valueExtensible), present, p.valueExtensible, p.valueUpperBound).value;
      AgreesRestored(d, s1, field.ty, field.params, alt);
    }
    FieldRoundTrip(s, ChoiceType(alts), p, ChoiceValue(present, alt), d);
    ChoiceRestored(d, s, alts, p, present, alt);
  }

  lemma ChoiceRestored(d: BitSeq, s: BitSeq, alts: seq<Field>, p: Params, present: Int64, alt: Value)
    requires 1 <= present <= |alts|
    requires
      var r := PutField(s, ChoiceType(alts), p, ChoiceValue(present, alt));
      var s1 := PutChoiceIndex(s + Extension(p.valueExtensible), present, p.valueExtensible, p.valueUpperBound);
      && r.Ok? && r.value <= d && GetField(d, |s|, ChoiceType(alts), p) == Got(ChoiceValue(present, alt), |r.value|)
      && if p.openType then
           OctetsRestored(d, s + Extension(p.valueExtensible), alts[present - 1], alt, |r.value|)
           && OpenTypeOctets(alts[present - 1].ty, alts[present - 1].params, alt).Ok?
           && Restored(Unpack(OpenTypeOctets(alts[present - 1].ty, alts[present - 1].params, alt).value), [],
                       alts[present - 1].ty, alts[present - 1].params, alt)
         else s1.Ok? && Restored(d, s1.value, alts[present - 1].ty, alts[present - 1].params, alt)
    ensures Restored(d, s, ChoiceType(alts), p, ChoiceValue(present, alt))
  {
    hide PutField, GetField, PutChoiceIndex, Extension, OpenTypeOctets, FieldsRestored, ElementsRestored, CountRestored, OctetsRestored;
  }

  lemma InnerWritten(field: Field, alt: Value)
    requires OpenTypeAgrees(field.ty, field.params, alt)
    ensures PutField([], field.ty, field.params, alt).Ok? && OpenTypeOctets(field.ty, field.params, alt).Ok?
    ensures
      var d := Unpack(OpenTypeOctets(field.ty, field.params, alt).value);
      |d| % 8 == 0 && PutField([], field.ty, field.params, alt).value <= d && LastStart([], field.ty, field.params, alt) < |d|
  {
    hide PutField, LastStart, Pack, Unpack, FragmentsAgree;
    UnpackPack(Align(PutField([], field.ty, field.params, alt).value));
  }

  lemma OctetsBack(d: BitSeq, s: BitSeq, alts: seq<Field>, p: Params, present: Int64, alt: Value)
    requires |d| % 8 == 0 && p.openType && 1 <= present <= |alts|
    requires OpenTypeAgrees(alts[present - 1].ty, alts[present - 1].params, alt)
    requires PutField(s, ChoiceType(alts), p, ChoiceValue(present, alt)).Ok?
    requires PutField(s, ChoiceType(alts), p, ChoiceValue(present, alt)).value <= d
    ensures OctetsRestored(d, s + Extension(p.valueExtensible), alts[present - 1], alt,
                           |PutField(s, ChoiceType(alts), p, ChoiceValue(present, alt)).value|)
  {
    hide PutField, LastStart, Extension, Pack, Unpack, PutFragments, GetFragments, FragmentsAgree, Align, Extends;
    PutOpenType(s, alts, p, present, alt);
    var s0 := s + Extension(p.valueExtensible);
    var content := OpenTypeOctets(alts[present - 1].ty, alts[present - 1].params, alt).value;
    PrefixThrough(s0, PutFragments(s0, content, 0, |content|, 0, -1, 8).value, d);
    OctetsOf(|content|);
    FragmentsBack(s0, content, 0, |content|, 0, -1, 8, d, Content([], 0));
    ExtendsCount(GetFragments(d, |s0|, 0, -1, 8, Content([], 0)).value, content[0..], |content|);
  }

  lemma ExtendsCount(c: Content, piece: seq<bv8>, n: nat)
    requires Extends(c, Content([], 0), piece, n, 8)
    ensures c.n == n
  {
    hide Unpack;
  }

  lemma {:induction false} FieldsAgreeRestored(d: BitSeq, s: BitSeq, fields: seq<Field>, vs: seq<Option<Value>>, i: nat, last: nat)
    requires i <= |fields| == |vs| && |d| % 8 == 0 && last <= |s|
    requires FieldsAgreeAt(s, fields, vs, i) && LastFieldStart(s, fields, vs, i, last) < |d|
    requires PutFields(s, fields, vs, i).Ok? && PutFields(s, fields, vs, i).value <= d
    ensures FieldsRestored(d, s, fields, vs, i)
    decreases fields, 4, |fields| - i
  {
    hide Presence, Marked, FieldParams, PutField, GetField, LastStart, AgreesAt, Restored;
    if i < |fields| {
      if Marked(fields, Presence(fields, vs, |fields|), i) {
        var p, v := FieldParams(fields, vs[..i]).value, vs[i].value;
        var s1, start := PutField(s, fields[i].ty, p, v).value, LastStart(s, fields[i].ty, p, v);
        PrefixThrough(s1, PutFields(s, fields, vs, i).value, d);
        LastStartWithin(s, fields[i].ty, p, v);
        LastFieldStartWithin(s1, fields, vs, i + 1, start);
        AgreesRestored(d, s, fields[i].ty, p, v);
        FieldsAgreeRestored(d, s1, fields, vs, i + 1, start);
      } else {
        FieldsAgreeRestored(d, s, fields, vs, i + 1, last);
      }
    }
  }

  lemma {:induction false} ElementsAgreeRestored(d: BitSeq, s: BitSeq, elem: Type, p: Params, elems: seq<Value>, last: nat)
    requires |d| % 8 == 0 && last <= |s|
    requires ElementsAgreeAt(s, elem, p, elems) && LastElementStart(s, elem, p, elems, last) < |d|
    requires PutElements(s, elem, p, elems).Ok? && PutElements(s, elem, p, elems).value <= d
    ensures ElementsRestored(d, s, elem, p, elems)
    decreases elem, 4, |elems|
  {
    hide PutField, GetField, LastStart, AgreesAt, Restored;
    if elems != [] {
      var s1, start := PutField(s, elem, p, elems[0]).value, LastStart(s, elem, p, elems[0]);
      PrefixThrough(s1, PutElements(s, elem, p, elems).value, d);
      LastStartWithin(s, elem, p, elems[0]);
      LastElementStartWithin(s1, elem, p, elems[1..], start);
      AgreesRestored(d, s, elem, p, elems[0]);
      ElementsAgreeRestored(d, s1, elem, p, elems[1..], start);
    }
  }

  // ---------- main result ----------

  /** Under tags both sides read alike, a value comes back with all its parts exactly when the two sides agree on it
      where it stands and its last field starts before the end of the data. */
  lemma ExactRoundTrip(s: BitSeq, t: Type, p: Params, v: Value, d: BitSeq)
    requires |d| % 8 == 0 && TagsAlike(t, p)
    requires PutField(s, t, p, v).Ok? && PutField(s, t, p, v).value <= d
    ensures Restored(d, s, t, p, v) <==> AgreesAt(s, t, p, v) && LastStart(s, t, p, v) < |d|
  {
    hide PutField, GetField, AgreesAt, LastStart, TagsAlike;
    if Restored(d, s, t, p, v) {
      RestoredAgrees(d, s, t, p, v);
      FieldRoundTrip(s, t, p, v, d);
    } else if AgreesAt(s, t, p, v) && LastStart(s, t, p, v) < |d| {
      AgreesRestored(d, s, t, p, v);
    }
  }
}
