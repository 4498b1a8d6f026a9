/** Whole values: what the encoder wrote for a value of any type, the decoder turns back into that value. */
module WholeValue {
  import opened Bits
  import opened Common
  import opened BitCopy
  import opened Encoding
  import opened Decoding
  import opened RoundTrip
  import opened IntegerRoundTrip

  // ---------- the values the two sides agree on ----------

  /** Tags both sides read alike, and a length or an enumeration both can handle. */
  predicate LeafAgrees(t: Type, p: Params, v: Value) {
    match (t, v)
    case (BitStringType, BitStringValue(bits)) =>
      && !p.valueExtensible
      && SizeUsable(p.sizeExtensible, p.sizeLowerBound, p.sizeUpperBound)
      && StringAgrees(|bits|, p.sizeExtensible, p.sizeLowerBound, p.sizeUpperBound)
    case (OctetStringType, OctetStringValue(bytes)) =>
      && SizeUsable(p.sizeExtensible, p.sizeLowerBound, p.sizeUpperBound)
      && StringAgrees(|bytes|, p.sizeExtensible, p.sizeLowerBound, p.sizeUpperBound)
    case (PrintableStringType, PrintableStringValue(text)) =>
      && !p.valueExtensible
      && SizeUsable(p.sizeExtensible, p.sizeLowerBound, p.sizeUpperBound)
      && StringAgrees(|text|, p.sizeExtensible, p.sizeLowerBound, p.sizeUpperBound)
    case (EnumeratedType, EnumeratedValue(n)) =>
      !p.sizeExtensible && EnumeratedAgrees(n, p.valueLowerBound, p.valueUpperBound)
    case (BoolType, BoolValue(_)) => !p.sizeExtensible && !p.valueExtensible
    case _ => false
  }

  /** Tags, lengths, counts and ranges both sides can handle from this position on, all the way down. */
  predicate AgreesAt(s: BitSeq, t: Type, p: Params, v: Value)
    decreases t, 0, 0
  {
    if t.IntType? && v.IntValue? then
      && !p.sizeExtensible
      && ValueUsable(p.valueExtensible, p.valueLowerBound, p.valueUpperBound)
      && IntegerAgreesAt(s, v.i, p.valueExtensible, p.valueLowerBound, p.valueUpperBound)
    else if t.SequenceType? && v.SequenceValue? then
      && !p.sizeExtensible && |v.fields| == |t.fields|
      && FieldsAgreeAt(s + Extension(p.valueExtensible) + Presence(t.fields, v.fields, |t.fields|), t.fields, v.fields, 0)
    else if t.ChoiceType? && v.ChoiceValue? then
      && !p.sizeExtensible
      && OptionalCount(t.alternatives) == 0
      && 1 <= v.present <= |t.alternatives|
      && var field := t.alternatives[v.present - 1];
         if p.openType then
           && p.referenceFieldValue.Some?
           && MatchingAlternative(t.alternatives, p.referenceFieldValue.value, 0) == v.present
           && OpenTypeAgrees(field.ty, field.params, v.alternative)
           && AgreesAt([], field.ty, field.params, v.alternative)
         else
           var s1 := PutChoiceIndex(s + Extension(p.valueExtensible), v.present, p.valueExtensible, p.valueUpperBound);
           s1.Ok? && AgreesAt(s1.value, field.ty, field.params, v.alternative)
    else if t.SliceType? && v.SliceValue? then
      && CountUsable(p.sizeExtensible, p.sizeUpperBound)
      && CountAgrees(|v.elems|, p.sizeExtensible, p.sizeLowerBound, p.sizeUpperBound)
      && var s1 := PutCount(s, |v.elems|, p.sizeExtensible, p.sizeLowerBound, p.sizeUpperBound);
         s1.Ok? && ElementsAgreeAt(s1.value, t.elem, ElementParams(p), v.elems)
    else LeafAgrees(t, p, v)
  }

  predicate FieldsAgreeAt(s: BitSeq, fields: seq<Field>, vs: seq<Option<Value>>, i: nat)
    requires i <= |fields| == |vs|
    decreases fields, 1, |fields| - i
  {
    i == |fields|
    || if Marked(fields, Presence(fields, vs, |fields|), i) then
         && FieldParams(fields, vs[..i]).Ok? && vs[i].Some?
         && var p, v := FieldParams(fields, vs[..i]).value, vs[i].value;
            && AgreesAt(s, fields[i].ty, p, v)
            && PutField(s, fields[i].ty, p, v).Ok?
            && FieldsAgreeAt(PutField(s, fields[i].ty, p, v).value, fields, vs, i + 1)
       else vs[i].None? && FieldsAgreeAt(s, fields, vs, i + 1)
  }

  predicate ElementsAgreeAt(s: BitSeq, elem: Type, p: Params, elems: seq<Value>)
    decreases elem, 1, |elems|
  {
    elems == []
    || (AgreesAt(s, elem, p, elems[0])
        && PutField(s, elem, p, elems[0]).Ok?
        && ElementsAgreeAt(PutField(s, elem, p, elems[0]).value, elem, p, elems[1..]))
  }

  /** Tags, lengths, counts and ranges both sides can handle wherever the value stands. */
  predicate Agrees(t: Type, p: Params, v: Value)
    decreases t, 0, 0
  {
    if t.IntType? && v.IntValue? then
      && !p.sizeExtensible
      && ValueUsable(p.valueExtensible, p.valueLowerBound, p.valueUpperBound)
      && IntegerAgrees(v.i, p.valueExtensible, p.valueLowerBound, p.valueUpperBound)
    else if t.SequenceType? && v.SequenceValue? then
      !p.sizeExtensible && |v.fields| == |t.fields| && FieldsAgree(t.fields, v.fields, 0)
    else if t.ChoiceType? && v.ChoiceValue? then
      && !p.sizeExtensible
      && OptionalCount(t.alternatives) == 0
      && 1 <= v.present <= |t.alternatives|
      && var field := t.alternatives[v.present - 1];
         && Agrees(field.ty, field.params, v.alternative)
         && (p.openType ==>
              && p.referenceFieldValue.Some?
              && MatchingAlternative(t.alternatives, p.referenceFieldValue.value, 0) == v.present
              && OpenTypeAgrees(field.ty, field.params, v.alternative))
    else if t.SliceType? && v.SliceValue? then
      && CountUsable(p.sizeExtensible, p.sizeUpperBound)
      && CountAgrees(|v.elems|, p.sizeExtensible, p.sizeLowerBound, p.sizeUpperBound)
      && forall i | 0 <= i < |v.elems| :: Agrees(t.elem, ElementParams(p), v.elems[i])
    else LeafAgrees(t, p, v)
  }

  predicate FieldsAgree(fields: seq<Field>, vs: seq<Option<Value>>, i: nat)
    requires i <= |fields| == |vs|
    decreases fields, 1, |fields| - i
  {
    i == |fields|
    || (FieldsAgree(fields, vs, i + 1)
        && if Marked(fields, Presence(fields, vs, |fields|), i)
           then FieldParams(fields, vs[..i]).Ok? && vs[i].Some?
                && Agrees(fields[i].ty, FieldParams(fields, vs[..i]).value, vs[i].value)
           else vs[i].None?)
  }

  /** The octets of an open type, written from bit zero and padded. */
  function OpenTypeOctets(t: Type, p: Params, v: Value): Result<seq<bv8>> {
    var inner :- PutField([], t, p, v);
    Ok(Pack(Align(inner)))
  }

  /** The octets of an open type can be fragmented and joined, and its last field starts inside them. */
  predicate OpenTypeAgrees(t: Type, p: Params, v: Value)
    decreases t, 0, 1
  {
    var content := OpenTypeOctets(t, p, v);
    content.Ok? && FragmentsAgree(-1, 0, |content.value|) && LastStart([], t, p, v) < 8 * |content.value|
  }

  /** Where the field written last begins; the decoder refuses to begin a field at the end of its data. */
  function LastStart(s: BitSeq, t: Type, p: Params, v: Value): nat
    decreases t, 0, 0
  {
    match (t, v)
    case (SequenceType(fields), SequenceValue(vs)) =>
      if |vs| != |fields| then |s|
      else LastFieldStart(s + Extension(p.valueExtensible) + Presence(fields, vs, |fields|), fields, vs, 0, |s|)
    case (ChoiceType(alts), ChoiceValue(present, alt)) =>
      var s1 := PutChoiceIndex(s + Extension(p.valueExtensible), present, p.valueExtensible, p.valueUpperBound);
      if p.openType || s1.Err? || present > |alts| then |s|
      else LastStart(s1.value, alts[present - 1].ty, alts[present - 1].params, alt)
    case (SliceType(elem), SliceValue(elems)) =>
      var s1 := PutCount(s, |elems|, p.sizeExtensible, p.sizeLowerBound, p.sizeUpperBound);
      if s1.Err? then |s| else LastElementStart(s1.value, elem, ElementParams(p), elems, |s|)
    case _ => |s|
  }

  function LastElementStart(s: BitSeq, elem: Type, p: Params, elems: seq<Value>, last: nat): nat
    decreases elem, 1, |elems|
  {
    if elems == [] || PutField(s, elem, p, elems[0]).Err? then last
    else LastElementStart(PutField(s, elem, p, elems[0]).value, elem, p, elems[1..], LastStart(s, elem, p, elems[0]))
  }

  function LastFieldStart(s: BitSeq, fields: seq<Field>, vs: seq<Option<Value>>, i: nat, last: nat): nat
    requires i <= |fields| == |vs|
    decreases fields, 1, |fields| - i
  {
    if i == |fields| then last
    else if !Marked(fields, Presence(fields, vs, |fields|), i) then LastFieldStart(s, fields, vs, i + 1, last)
    else
      var p := FieldParams(fields, vs[..i]);
      if p.Err? || vs[i].None? || PutField(s, fields[i].ty, p.value, vs[i].value).Err? then last
      else LastFieldStart(PutField(s, fields[i].ty, p.value, vs[i].value).value, fields, vs, i + 1,
                          LastStart(s, fields[i].ty, p.value, vs[i].value))
  }

  // ---------- leaves ----------

  lemma FlagBack(s: BitSeq, b: bool, d: BitSeq)
    requires s + [b] <= d
    ensures GetFlag(d, |s|, true) == Got(b, |s| + 1)
    ensures GetValue(d, |s|, 1) == Got(if b then 1 else 0, |s| + 1)
  {
    assert d[|s|..|s| + 1] == [b];
    ToNatSnoc([], b);
    assert [] + [b] == [b];
  }

  lemma StringFlagBack(s: BitSeq, n: nat, extensible: bool, lb: Option<Size>, ub: Option<Size>, d: BitSeq)
    requires SizeUsable(extensible, lb, ub) && StringForm(n, extensible, lb, ub).Ok?
    requires s + StringForm(n, extensible, lb, ub).value.extension <= d
    ensures
      var extension := StringForm(n, extensible, lb, ub).value.extension;
      GetFlag(d, |s|, extensible) == Got(extension == [true], |s| + |extension|)
  {
    var extension := StringForm(n, extensible, lb, ub).value.extension;
    if extensible {
      assert |extension| == 1 && extension == [extension[0]];
      FlagBack(s, extension[0], d);
    }
  }

  lemma BitStringBack(s: BitSeq, p: Params, bits: BitSeq, d: BitSeq)
    requires |d| % 8 == 0 && |s| < |d| && LeafAgrees(BitStringType, p, BitStringValue(bits))
    requires PutField(s, BitStringType, p, BitStringValue(bits)).Ok?
    requires PutField(s, BitStringType, p, BitStringValue(bits)).value <= d
    ensures GetField(d, |s|, BitStringType, p) == Got(BitStringValue(bits), |PutField(s, BitStringType, p, BitStringValue(bits)).value|)
  {
    hide PutString, GetString, StringForm, StringAgrees, SizeUsable, Pack, Unpack, Padded, BytesOf, PutField, GetField, LeafAgrees;
    AgreeingString(BitStringType, p, BitStringValue(bits));
    var content := BitsOfContent(bits);
    PutLeaf(s, BitStringType, p, BitStringValue(bits));
    StringFieldBack(s, BitStringType, content, |bits|, 1, p, d);
  }

  /** What the two sides agree on in a string. */
  lemma AgreeingString(t: Type, p: Params, v: Value)
    requires LeafAgrees(t, p, v) && (t.BitStringType? || t.OctetStringType? || t.PrintableStringType?)
    ensures p.valueExtensible ==> t.OctetStringType?
    ensures SizeUsable(p.sizeExtensible, p.sizeLowerBound, p.sizeUpperBound)
    ensures
      var n := if v.BitStringValue? then |v.bits| else if v.OctetStringValue? then |v.bytes| else |v.text|;
      StringAgrees(n, p.sizeExtensible, p.sizeLowerBound, p.sizeUpperBound)
    ensures t.BitStringType? ==> v.BitStringValue?
    ensures t.OctetStringType? ==> v.OctetStringValue?
    ensures t.PrintableStringType? ==> v.PrintableStringValue?
  {
    hide SizeUsable, StringAgrees;
  }

  /** The string of a field comes back, after its extension bits. */
  lemma StringFieldBack(s: BitSeq, t: Type, content: seq<bv8>, n: nat, unit: Unit, p: Params, d: BitSeq)
    requires t.BitStringType? || t.OctetStringType? || t.PrintableStringType?
    requires (p.valueExtensible ==> t.OctetStringType?) && |d| % 8 == 0 && |s| < |d| && |content| == BytesOf(n, unit)
    requires SizeUsable(p.sizeExtensible, p.sizeLowerBound, p.sizeUpperBound)
    requires StringAgrees(n, p.sizeExtensible, p.sizeLowerBound, p.sizeUpperBound)
    requires PutString(s, content, n, unit, p.sizeExtensible, p.sizeLowerBound, p.sizeUpperBound).Ok?
    requires PutString(s, content, n, unit, p.sizeExtensible, p.sizeLowerBound, p.sizeUpperBound).value <= d
    ensures StringForm(n, p.sizeExtensible, p.sizeLowerBound, p.sizeUpperBound).Ok?
    ensures
      var extension := StringForm(n, p.sizeExtensible, p.sizeLowerBound, p.sizeUpperBound).value.extension;
      && |s| + |extension| <= |d|
      && GetField(d, |s|, t, p) == GetBody(d, |s| + |extension|, t, p, extension == [true], false)
      && Returns(GetString(d, |s| + |extension|, unit, extension == [true], p.sizeLowerBound, p.sizeUpperBound),
                 content, n, unit, |PutString(s, content, n, unit, p.sizeExtensible, p.sizeLowerBound, p.sizeUpperBound).value|)
  {
    hide PutString, GetString, StringForm, StringAgrees, SizeUsable, GetFlag, GetBody, BytesOf, Returns;
    StringFieldStart(s, content, n, unit, p, d);
    StringBack(s, content, n, unit, p.sizeExtensible, p.sizeLowerBound, p.sizeUpperBound, d);
  }

  lemma BitsOfContent(bits: BitSeq) returns (content: seq<bv8>)
    ensures content == Pack(Padded(bits)) && |content| == BytesOf(|bits|, 1)
    ensures Unpack(content)[..|bits|] == bits
  {
    hide Pack, Unpack;
    content := Pack(Padded(bits));
    UnpackPack(Padded(bits));
  }

  /** The extension bits of a string field are read, and nothing else before the string. */
  lemma StringFieldStart(s: BitSeq, content: seq<bv8>, n: nat, unit: Unit, p: Params, d: BitSeq)
    requires |s| < |d| && SizeUsable(p.sizeExtensible, p.sizeLowerBound, p.sizeUpperBound) && |content| == BytesOf(n, unit)
    requires PutString(s, content, n, unit, p.sizeExtensible, p.sizeLowerBound, p.sizeUpperBound).Ok?
    requires PutString(s, content, n, unit, p.sizeExtensible, p.sizeLowerBound, p.sizeUpperBound).value <= d
    ensures StringForm(n, p.sizeExtensible, p.sizeLowerBound, p.sizeUpperBound).Ok?
    ensures
      var extension := StringForm(n, p.sizeExtensible, p.sizeLowerBound, p.sizeUpperBound).value.extension;
      && |s| + |extension| <= |d|
      && GetFlag(d, |s|, p.sizeExtensible) == Got(extension == [true], |s| + |extension|)
      && GetFlag(d, |s| + |extension|, false) == Got(false, |s| + |extension|)
  {
    hide PutString, StringForm, SizeUsable, GetFlag, BytesOf;
    StringStarts(s, content, n, unit, p.sizeExtensible, p.sizeLowerBound, p.sizeUpperBound);
    var extension := StringForm(n, p.sizeExtensible, p.sizeLowerBound, p.sizeUpperBound).value.extension;
    PrefixThrough(s + extension, PutString(s, content, n, unit, p.sizeExtensible, p.sizeLowerBound, p.sizeUpperBound).value, d);
    StringFlagBack(s, n, p.sizeExtensible, p.sizeLowerBound, p.sizeUpperBound, d);
    NoFlag(d, |s| + |extension|);
  }

  lemma NoFlag(d: BitSeq, pos: nat)
    requires pos <= |d|
    ensures GetFlag(d, pos, false) == Got(false, pos)
  {}

  lemma StringStarts(s: BitSeq, content: seq<bv8>, n: nat, unit: Unit, extensible: bool, lb: Option<Size>, ub: Option<Size>)
    requires |content| == BytesOf(n, unit) && PutString(s, content, n, unit, extensible, lb, ub).Ok?
    ensures StringForm(n, extensible, lb, ub).Ok?
    ensures s + StringForm(n, extensible, lb, ub).value.extension <= PutString(s, content, n, unit, extensible, lb, ub).value
  {}

  lemma OctetsOf(n: nat)
    ensures BytesOf(n, 8) == n
  {}

  lemma OctetStringBack(s: BitSeq, p: Params, bytes: seq<bv8>, d: BitSeq)
    requires |d| % 8 == 0 && |s| < |d| && LeafAgrees(OctetStringType, p, OctetStringValue(bytes))
    requires PutField(s, OctetStringType, p, OctetStringValue(bytes)).Ok?
    requires PutField(s, OctetStringType, p, OctetStringValue(bytes)).value <= d
    ensures GetField(d, |s|, OctetStringType, p)
         == Got(OctetStringValue(bytes), |PutField(s, OctetStringType, p, OctetStringValue(bytes)).value|)
  {
    hide PutString, GetString, StringForm, StringAgrees, SizeUsable, Unpack, PutField, GetField, LeafAgrees, CeilDiv8;
    AgreeingString(OctetStringType, p, OctetStringValue(bytes));
    OctetsOf(|bytes|);
    PutLeaf(s, OctetStringType, p, OctetStringValue(bytes));
    StringFieldBack(s, OctetStringType, bytes, |bytes|, 8, p, d);
    var extension := StringForm(|bytes|, p.sizeExtensible, p.sizeLowerBound, p.sizeUpperBound).value.extension;
    SameWhole(GetString(d, |s| + |extension|, 8, extension == [true], p.sizeLowerBound, p.sizeUpperBound).value.bytes, bytes);
  }

  lemma PrintableStringBack(s: BitSeq, p: Params, text: seq<bv8>, d: BitSeq)
    requires |d| % 8 == 0 && |s| < |d| && LeafAgrees(PrintableStringType, p, PrintableStringValue(text))
    requires PutField(s, PrintableStringType, p, PrintableStringValue(text)).Ok?
    requires PutField(s, PrintableStringType, p, PrintableStringValue(text)).value <= d
    ensures GetField(d, |s|, PrintableStringType, p)
         == Got(PrintableStringValue(text), |PutField(s, PrintableStringType, p, PrintableStringValue(text)).value|)
  {
    hide PutString, GetString, StringForm, StringAgrees, SizeUsable, Unpack, PutField, GetField, LeafAgrees, CeilDiv8;
    AgreeingString(PrintableStringType, p, PrintableStringValue(text));
    OctetsOf(|text|);
    PutLeaf(s, PrintableStringType, p, PrintableStringValue(text));
    StringFieldBack(s, PrintableStringType, text, |text|, 8, p, d);
    var extension := StringForm(|text|, p.sizeExtensible, p.sizeLowerBound, p.sizeUpperBound).value.extension;
    SameWhole(GetString(d, |s| + |extension|, 8, extension == [true], p.sizeLowerBound, p.sizeUpperBound).value.bytes, text);
  }

  lemma EnumeratedFieldBack(s: BitSeq, p: Params, n: Uint64, d: BitSeq)
    requires |d| % 8 == 0 && |s| < |d| && LeafAgrees(EnumeratedType, p, EnumeratedValue(n))
    requires PutField(s, EnumeratedType, p, EnumeratedValue(n)).Ok?
    requires PutField(s, EnumeratedType, p, EnumeratedValue(n)).value <= d
    ensures GetField(d, |s|, EnumeratedType, p)
         == Got(EnumeratedValue(n), |PutField(s, EnumeratedType, p, EnumeratedValue(n)).value|)
  {
    PutLeaf(s, EnumeratedType, p, EnumeratedValue(n));
    hide GetEnumerated, EnumeratedAgrees, GetFlag, PutField;
    var r := PutField(s, EnumeratedType, p, EnumeratedValue(n)).value;
    NoFlag(d, |s|);
    if p.valueExtensible {
      PrefixThrough(s + [false], r, d);
      FlagBack(s, false, d);
    }
    EnumeratedBack(s, n, p.valueExtensible, p.valueLowerBound, p.valueUpperBound, d);
  }

  lemma BoolBack(s: BitSeq, p: Params, b: bool, d: BitSeq)
    requires |s| < |d| && LeafAgrees(BoolType, p, BoolValue(b)) && s + [b] <= d
    ensures GetField(d, |s|, BoolType, p) == Got(BoolValue(b), |s| + 1)
  {
    hide GetFlag, GetValue;
    NoFlag(d, |s|);
    FlagBack(s, b, d);
  }

  lemma IntegerFieldBack(s: BitSeq, p: Params, i: Int64, d: BitSeq)
    requires |d| % 8 == 0 && |s| < |d| && AgreesAt(s, IntType, p, IntValue(i))
    requires PutField(s, IntType, p, IntValue(i)).Ok? && PutField(s, IntType, p, IntValue(i)).value <= d
    ensures GetField(d, |s|, IntType, p) == Got(IntValue(i), |PutField(s, IntType, p, IntValue(i)).value|)
  {
    PutLeaf(s, IntType, p, IntValue(i));
    hide GetInteger, GetFlag, PutInteger, IntegerForm, SignAgrees, CountReadable, PutField;
    var form := IntegerForm(i, p.valueExtensible, p.valueLowerBound, p.valueUpperBound).value;
    IntegerStarts(s, i, p.valueExtensible, p.valueLowerBound, p.valueUpperBound);
    PrefixThrough(s + form.extension, PutField(s, IntType, p, IntValue(i)).value, d);
    NoFlag(d, |s|);
    if p.valueExtensible {
      FlagBack(s, form.extension[0], d);
    }
    IntegerBack(s, i, p.valueExtensible, p.valueLowerBound, p.valueUpperBound, d);
  }

  lemma IntegerStarts(s: BitSeq, i: Int64, extensible: bool, lb: Option<Int64>, ub: Option<Int64>)
    requires ValueUsable(extensible, lb, ub) && PutInteger(s, i, extensible, lb, ub).Ok?
    ensures IntegerForm(i, extensible, lb, ub).Ok?
    ensures
      var extension := IntegerForm(i, extensible, lb, ub).value.extension;
      && s + extension <= PutInteger(s, i, extensible, lb, ub).value
      && (extension == if extensible then [extension == [true]] else [])
  {
    hide PutConstrained, PutRawInteger;
  }

  // ---------- structure ----------

  lemma LastStartWithin(s: BitSeq, t: Type, p: Params, v: Value)
    requires PutField(s, t, p, v).Ok?
    ensures |s| <= LastStart(s, t, p, v) <= |PutField(s, t, p, v).value|
    decreases t, 0, 0
  {
    hide PutBitString, PutOctetString, PutInteger, PutEnumerated, PutCount, PutChoiceIndex, PutFragments;
    match (t, v)
    case (SequenceType(fields), SequenceValue(vs)) =>
      LastFieldStartWithin(s + Extension(p.valueExtensible) + Presence(fields, vs, |fields|), fields, vs, 0, |s|);
    case (ChoiceType(alts), ChoiceValue(present, alt)) =>
      if !p.openType {
        var s1 := PutChoiceIndex(s + Extension(p.valueExtensible), present, p.valueExtensible, p.valueUpperBound).value;
        LastStartWithin(s1, alts[present - 1].ty, alts[present - 1].params, alt);
      }
    case (SliceType(elem), SliceValue(elems)) =>
      var s1 := PutCount(s, |elems|, p.sizeExtensible, p.sizeLowerBound, p.sizeUpperBound).value;
      LastElementStartWithin(s1, elem, ElementParams(p), elems, |s|);
    case _ =>
  }

  lemma LastElementStartWithin(s: BitSeq, elem: Type, p: Params, elems: seq<Value>, last: nat)
    requires PutElements(s, elem, p, elems).Ok? && last <= |s|
    ensures last <= LastElementStart(s, elem, p, elems, last) <= |PutElements(s, elem, p, elems).value|
    decreases elem, 1, |elems|
  {
    if elems != [] {
      LastStartWithin(s, elem, p, elems[0]);
      LastElementStartWithin(PutField(s, elem, p, elems[0]).value, elem, p, elems[1..], LastStart(s, elem, p, elems[0]));
    }
  }

  lemma LastFieldStartWithin(s: BitSeq, fields: seq<Field>, vs: seq<Option<Value>>, i: nat, last: nat)
    requires i <= |fields| == |vs| && last <= |s|
    requires PutFields(s, fields, vs, i).Ok?
    ensures last <= LastFieldStart(s, fields, vs, i, last) <= |PutFields(s, fields, vs, i).value|
    decreases fields, 1, |fields| - i
  {
    hide Presence, Marked, FieldParams, PutField, LastStart;
    if i < |fields| {
      if !Marked(fields, Presence(fields, vs, |fields|), i) {
        LastFieldStartWithin(s, fields, vs, i + 1, last);
      } else {
        var p := FieldParams(fields, vs[..i]).value;
        LastStartWithin(s, fields[i].ty, p, vs[i].value);
        LastFieldStartWithin(PutField(s, fields[i].ty, p, vs[i].value).value, fields, vs, i + 1,
                             LastStart(s, fields[i].ty, p, vs[i].value));
      }
    }
  }

  /** The outcome of reading a value back: the value, or a failure when its last field starts at the end of the data. */
  predicate ReadsBack(r: Read<Value>, v: Value, end: nat, lastStart: nat, size: nat) {
    if lastStart < size then r == Got(v, end) else r.Fail?
  }

  /** Reading any value back, by structural induction over its type. */
  lemma FieldBack(s: BitSeq, t: Type, p: Params, v: Value, d: BitSeq)
    requires |d| % 8 == 0 && AgreesAt(s, t, p, v)
    requires PutField(s, t, p, v).Ok? && PutField(s, t, p, v).value <= d
    ensures ReadsBack(GetField(d, |s|, t, p), v, |PutField(s, t, p, v).value|, LastStart(s, t, p, v), |d|)
    decreases t, 3, 0
  {
    hide PutBitString, PutOctetString, PutInteger, PutEnumerated, PutCount, PutChoiceIndex, PutFragments;
    hide GetBody, LastFieldStart, LastElementStart, PutFields, PutElements, FieldsAgreeAt, ElementsAgreeAt;
    LastStartWithin(s, t, p, v);
    if |s| < |d| {
      match (t, v)
      case (BitStringType, BitStringValue(bits)) => BitStringBack(s, p, bits, d);
      case (OctetStringType, OctetStringValue(bytes)) => OctetStringBack(s, p, bytes, d);
      case (PrintableStringType, PrintableStringValue(text)) => PrintableStringBack(s, p, text, d);
      case (EnumeratedType, EnumeratedValue(n)) => EnumeratedFieldBack(s, p, n, d);
      case (BoolType, BoolValue(b)) => BoolBack(s, p, b, d);
      case (IntType, IntValue(i)) => IntegerFieldBack(s, p, i, d);
      case (SequenceType(fields), SequenceValue(vs)) => SequenceBack(s, fields, p, vs, d);
      case (ChoiceType(alts), ChoiceValue(present, alt)) =>
        if p.openType { OpenTypeBack(s, alts, p, present, alt, d); } else { ChoiceBack(s, alts, p, present, alt, d); }
      case (SliceType(elem), SliceValue(elems)) => SliceBack(s, elem, p, elems, d);
    }
  }

  lemma StructFlagBack(s: BitSeq, p: Params, d: BitSeq)
    requires !p.sizeExtensible && |s| <= |d| && s + Extension(p.valueExtensible) <= d
    ensures GetFlag(d, |s|, p.sizeExtensible) == Got(false, |s|)
    ensures GetFlag(d, |s|, p.valueExtensible) == Got(false, |s + Extension(p.valueExtensible)|)
  {
    NoFlag(d, |s|);
    if p.valueExtensible { FlagBack(s, false, d); }
  }

  lemma StructBody(s: BitSeq, t: Type, p: Params, d: BitSeq)
    requires t.SequenceType? || t.ChoiceType?
    requires !p.sizeExtensible && |s| < |d| && s + Extension(p.valueExtensible) <= d
    ensures GetField(d, |s|, t, p) == GetBody(d, |s + Extension(p.valueExtensible)|, t, p, false, false)
  {
    hide GetBody, GetFlag, Extension;
    StructFlagBack(s, p, d);
  }

  lemma ChoiceParts(s: BitSeq, alts: seq<Field>, p: Params, present: Int64, alt: Value)
    requires AgreesAt(s, ChoiceType(alts), p, ChoiceValue(present, alt))
    ensures !p.sizeExtensible && OptionalCount(alts) == 0 && 1 <= present <= |alts|
    ensures !p.openType ==>
              var s1 := PutChoiceIndex(s + Extension(p.valueExtensible), present, p.valueExtensible, p.valueUpperBound);
              s1.Ok? && AgreesAt(s1.value, alts[present - 1].ty, alts[present - 1].params, alt)
    ensures p.openType ==> p.referenceFieldValue.Some?
                           && MatchingAlternative(alts, p.referenceFieldValue.value, 0) == present
                           && OpenTypeAgrees(alts[present - 1].ty, alts[present - 1].params, alt)
                           && AgreesAt([], alts[present - 1].ty, alts[present - 1].params, alt)
  {
    hide OptionalCount, OpenTypeAgrees, FieldsAgreeAt, ElementsAgreeAt, LeafAgrees, ValueUsable, IntegerAgreesAt;
    hide CountUsable, CountAgrees, MatchingAlternative, PutChoiceIndex, Extension;
  }

  lemma PresenceBack(s: BitSeq, fields: seq<Field>, presence: BitSeq, d: BitSeq)
    requires |presence| == OptionalCount(fields) && s + presence <= d
    ensures GetPresence(d, |s|, fields) == Got(presence, |s| + |presence|)
  {
    assert d[|s|..|s| + |presence|] == presence;
  }

  lemma SequenceBack(s: BitSeq, fields: seq<Field>, p: Params, vs: seq<Option<Value>>, d: BitSeq)
    requires |d| % 8 == 0 && |s| < |d| && AgreesAt(s, SequenceType(fields), p, SequenceValue(vs))
    requires PutField(s, SequenceType(fields), p, SequenceValue(vs)).Ok?
    requires PutField(s, SequenceType(fields), p, SequenceValue(vs)).value <= d
    ensures ReadsBack(GetField(d, |s|, SequenceType(fields), p), SequenceValue(vs),
                      |PutField(s, SequenceType(fields), p, SequenceValue(vs)).value|,
                      LastStart(s, SequenceType(fields), p, SequenceValue(vs)), |d|)
    decreases SequenceType(fields), 2, 0
  {
    hide PutFields, GetFields, FieldsAgreeAt, GetField, GetPresence, Presence, LastFieldStart, Extension;
    var presence := Presence(fields, vs, |fields|);
    var s0 := s + Extension(p.valueExtensible);
    var s1 := s0 + presence;
    PrefixThrough(s1, PutFields(s1, fields, vs, 0).value, d);
    PrefixThrough(s0, s1, d);
    StructBody(s, SequenceType(fields), p, d);
    PresenceBack(s0, fields, presence, d);
    assert vs[..0] == [];
    FieldsBack(s1, fields, vs, 0, d, |s|);
  }

  /** The decoder visits exactly the fields the encoder emitted, in the same order. */
  lemma FieldsBack(s: BitSeq, fields: seq<Field>, vs: seq<Option<Value>>, i: nat, d: BitSeq, last: nat)
    requires i <= |fields| == |vs| && |d| % 8 == 0 && last < |d|
    requires FieldsAgreeAt(s, fields, vs, i)
    requires PutFields(s, fields, vs, i).Ok? && PutFields(s, fields, vs, i).value <= d
    ensures ReadsBack(GetFields(d, |s|, fields, Presence(fields, vs, |fields|), vs[..i]), SequenceValue(vs),
                      |PutFields(s, fields, vs, i).value|, LastFieldStart(s, fields, vs, i, last), |d|)
    decreases fields, 4, |fields| - i
  {
    hide Presence, Marked, FieldParams, PutField, GetField, LastStart, AgreesAt;
    if i == |fields| {
      assert vs[..i] == vs;
    } else {
      assert vs[..i + 1] == vs[..i] + [vs[i]];
      if !Marked(fields, Presence(fields, vs, |fields|), i) {
        FieldsBack(s, fields, vs, i + 1, d, last);
      } else {
        var p := FieldParams(fields, vs[..i]).value;
        var v := vs[i].value;
        var s1 := PutField(s, fields[i].ty, p, v).value;
        PrefixThrough(s1, PutFields(s, fields, vs, i).value, d);
        FieldBack(s, fields[i].ty, p, v, d);
        var start := LastStart(s, fields[i].ty, p, v);
        if start < |d| {
          FieldsBack(s1, fields, vs, i + 1, d, start);
        } else {
          LastStartWithin(s, fields[i].ty, p, v);
          LastFieldStartWithin(s1, fields, vs, i + 1, start);
        }
      }
    }
  }

  lemma ChoiceBack(s: BitSeq, alts: seq<Field>, p: Params, present: Int64, alt: Value, d: BitSeq)
    requires |d| % 8 == 0 && |s| < |d| && !p.openType && AgreesAt(s, ChoiceType(alts), p, ChoiceValue(present, alt))
    requires PutField(s, ChoiceType(alts), p, ChoiceValue(present, alt)).Ok?
    requires PutField(s, ChoiceType(alts), p, ChoiceValue(present, alt)).value <= d
    ensures ReadsBack(GetField(d, |s|, ChoiceType(alts), p), ChoiceValue(present, alt),
                      |PutField(s, ChoiceType(alts), p, ChoiceValue(present, alt)).value|,
                      LastStart(s, ChoiceType(alts), p, ChoiceValue(present, alt)), |d|)
    decreases ChoiceType(alts), 2, 0
  {
    hide PutChoiceIndex, GetChoiceIndex, GetField, GetBody, Extension, AgreesAt, OptionalCount, PutField, LastStart;
    ChoiceParts(s, alts, p, present, alt);
    PutChoiceParts(s, alts, p, present, alt);
    var s0 := s + Extension(p.valueExtensible);
    var s1 := PutChoiceIndex(s0, present, p.valueExtensible, p.valueUpperBound).value;
    var field := alts[present - 1];
    PrefixThrough(s1, PutField(s1, field.ty, field.params, alt).value, d);
    PrefixThrough(s0, s1, d);
    StructBody(s, ChoiceType(alts), p, d);
    ChoiceBody(d, |s0|, alts, p);
    ChoiceIndexBack(s0, present, p.valueExtensible, p.valueUpperBound, d);
    FieldBack(s1, field.ty, field.params, alt, d);
  }

  lemma PutChoiceParts(s: BitSeq, alts: seq<Field>, p: Params, present: Int64, alt: Value)
    requires !p.openType && 1 <= present <= |alts|
    requires PutField(s, ChoiceType(alts), p, ChoiceValue(present, alt)).Ok?
    ensures
      var s1 := PutChoiceIndex(s + Extension(p.valueExtensible), present, p.valueExtensible, p.valueUpperBound);
      && s1.Ok?
      && PutField(s, ChoiceType(alts), p, ChoiceValue(present, alt))
         == PutField(s1.value, alts[present - 1].ty, alts[present - 1].params, alt)
      && LastStart(s, ChoiceType(alts), p, ChoiceValue(present, alt))
         == LastStart(s1.value, alts[present - 1].ty, alts[present - 1].params, alt)
  {
    hide PutBitString, PutOctetString, PutInteger, PutEnumerated, PutCount, PutChoiceIndex, PutFragments, PutFields, PutElements;
    hide LastFieldStart, LastElementStart, Presence, Extension, Pack, Align;
  }

  lemma ChoiceBody(d: BitSeq, pos: nat, alts: seq<Field>, p: Params)
    requires pos <= |d| && OptionalCount(alts) == 0
    ensures GetBody(d, pos, ChoiceType(alts), p, false, false)
         == if p.openType then GetOpenType(d, pos, ChoiceType(alts), p.referenceFieldValue)
            else GetChoice(d, pos, ChoiceType(alts), false, p.valueUpperBound)
  {
    hide GetOpenType, GetChoice, OptionalCount;
  }

  /** An open type's octets are the same wherever it stands, and select the alternative they came from. */
  lemma OpenTypeBack(s: BitSeq, alts: seq<Field>, p: Params, present: Int64, alt: Value, d: BitSeq)
    requires |d| % 8 == 0 && |s| < |d| && p.openType && AgreesAt(s, ChoiceType(alts), p, ChoiceValue(present, alt))
    requires PutField(s, ChoiceType(alts), p, ChoiceValue(present, alt)).Ok?
    requires PutField(s, ChoiceType(alts), p, ChoiceValue(present, alt)).value <= d
    ensures GetField(d, |s|, ChoiceType(alts), p)
         == Got(ChoiceValue(present, alt), |PutField(s, ChoiceType(alts), p, ChoiceValue(present, alt)).value|)
    decreases ChoiceType(alts), 2, 0
  {
    hide GetField, GetBody, Extension, Pack, Unpack, PutFragments, GetFragments, FragmentsAgree, AgreesAt, OptionalCount, Align, Extends;
    hide PutField, MatchingAlternative, LastStart;
    ChoiceParts(s, alts, p, present, alt);
    PutOpenType(s, alts, p, present, alt);
    var s0 := s + Extension(p.valueExtensible);
    var field := alts[present - 1];
    var content := OpenTypeOctets(field.ty, field.params, alt).value;
    PrefixThrough(s0, PutFragments(s0, content, 0, |content|, 0, -1, 8).value, d);
    StructBody(s, ChoiceType(alts), p, d);
    ChoiceBody(d, |s0|, alts, p);
    FragmentsBack(s0, content, 0, |content|, 0, -1, 8, d, Content([], 0));
    WholeContent(GetFragments(d, |s0|, 0, -1, 8, Content([], 0)).value, content);
    InnerBack(field, alt, content);
    assert WrapInt64(present) == present;
  }

  /** The octets of an open type read back as the value they came from. */
  lemma InnerBack(field: Field, alt: Value, content: seq<bv8>)
    requires AgreesAt([], field.ty, field.params, alt) && OpenTypeAgrees(field.ty, field.params, alt)
    requires OpenTypeOctets(field.ty, field.params, alt) == Ok(content)
    ensures GetField(Unpack(content), 0, field.ty, field.params).Got?
    ensures GetField(Unpack(content), 0, field.ty, field.params).value == alt
    decreases field.ty, 4, 0
  {
    hide GetField, PutField, AgreesAt, Pack, Unpack, FragmentsAgree, LastStart;
    var inner := PutField([], field.ty, field.params, alt).value;
    UnpackPack(Align(inner));
    FieldBack([], field.ty, field.params, alt, Align(inner));
  }

  lemma WholeContent(c: Content, content: seq<bv8>)
    requires Extends(c, Content([], 0), content[0..], |content|, 8)
    ensures c.bytes == content
  {
    hide Unpack;
    assert content[0..] == content;
    assert Unpack(c.bytes)[..8 * |content|] == Unpack(c.bytes);
    assert Unpack(content)[..8 * |content|] == Unpack(content);
    assert Unpack(Content([], 0).bytes) == [];
    UnpackInjective(c.bytes, content);
  }

  lemma SliceBack(s: BitSeq, elem: Type, p: Params, elems: seq<Value>, d: BitSeq)
    requires |d| % 8 == 0 && |s| < |d| && AgreesAt(s, SliceType(elem), p, SliceValue(elems))
    requires PutField(s, SliceType(elem), p, SliceValue(elems)).Ok?
    requires PutField(s, SliceType(elem), p, SliceValue(elems)).value <= d
    ensures ReadsBack(GetField(d, |s|, SliceType(elem), p), SliceValue(elems),
                      |PutField(s, SliceType(elem), p, SliceValue(elems)).value|,
                      LastStart(s, SliceType(elem), p, SliceValue(elems)), |d|)
    decreases SliceType(elem), 2, 0
  {
    PutSlice(s, elem, p, elems);
    hide GetCount, PutCount, GetFlag, CountForm, CountAgrees, PutElements, GetElements, LastElementStart, ElementParams, PutField, ElementsAgreeAt;
    var s1 := PutCount(s, |elems|, p.sizeExtensible, p.sizeLowerBound, p.sizeUpperBound).value;
    PrefixThrough(s1, PutElements(s1, elem, ElementParams(p), elems).value, d);
    CountFlagBack(s, |elems|, p.sizeExtensible, p.sizeLowerBound, p.sizeUpperBound, d);
    CountBack(s, |elems|, p.sizeExtensible, p.sizeLowerBound, p.sizeUpperBound, d);
    var at := |s| + |CountForm(|elems|, p.sizeExtensible, p.sizeLowerBound, p.sizeUpperBound).value.extension|;
    NoFlag(d, at);
    ElementsBack(s1, elem, ElementParams(p), elems, [], d, |s|);
    assert [] + elems == elems;
  }

  lemma CountFlagBack(s: BitSeq, n: nat, extensible: bool, lb: Option<Size>, ub: Option<Size>, d: BitSeq)
    requires CountUsable(extensible, ub) && |d| % 8 == 0
    requires PutCount(s, n, extensible, lb, ub).Ok? && PutCount(s, n, extensible, lb, ub).value <= d
    ensures CountForm(n, extensible, lb, ub).Ok?
    ensures
      var extension := CountForm(n, extensible, lb, ub).value.extension;
      && |s| + |extension| <= |d|
      && GetFlag(d, |s|, extensible) == Got(extension == [true], |s| + |extension|)
  {
    hide PutConstrained, Align;
    var extension := CountForm(n, extensible, lb, ub).value.extension;
    PrefixThrough(s + extension, PutCount(s, n, extensible, lb, ub).value, d);
    if extensible {
      assert extension == [extension[0]];
      FlagBack(s, extension[0], d);
    } else {
      NoFlag(d, |s|);
    }
  }

  lemma ElementsBack(s: BitSeq, elem: Type, p: Params, elems: seq<Value>, done: seq<Value>, d: BitSeq, last: nat)
    requires |d| % 8 == 0 && last < |d|
    requires ElementsAgreeAt(s, elem, p, elems)
    requires PutElements(s, elem, p, elems).Ok? && PutElements(s, elem, p, elems).value <= d
    ensures ReadsBack(GetElements(d, |s|, elem, p, |elems|, done), SliceValue(done + elems),
                      |PutElements(s, elem, p, elems).value|, LastElementStart(s, elem, p, elems, last), |d|)
    decreases elem, 4, |elems|
  {
    hide PutField, GetField, LastStart, AgreesAt;
    if elems == [] {
      assert done + elems == done;
    } else {
      var v, rest := elems[0], elems[1..];
      var s1 := PutField(s, elem, p, v).value;
      PrefixThrough(s1, PutElements(s, elem, p, elems).value, d);
      FieldBack(s, elem, p, v, d);
      var start := LastStart(s, elem, p, v);
      assert done + elems == (done + [v]) + rest;
      if start < |d| {
        ElementsBack(s1, elem, p, rest, done + [v], d, start);
      } else {
        LastStartWithin(s, elem, p, v);
        LastElementStartWithin(s1, elem, p, rest, start);
      }
    }
  }

  /** A field with nothing in its tag. */
  const PLAIN := Params(false, false, false, None, None, None, None, false, "", None)

  // ---------- values the two sides agree on everywhere ----------

  /** What both sides can handle anywhere they can handle here. */
  lemma {:induction false} AgreesHere(s: BitSeq, t: Type, p: Params, v: Value)
    requires Agrees(t, p, v) && PutField(s, t, p, v).Ok?
    ensures AgreesAt(s, t, p, v)
    decreases t, 4, 0
  {
    hide PutField, FieldsAgree, FieldsAgreeAt, ElementsAgreeAt, OpenTypeAgrees, PutFields, PutElements, LeafAgrees;
    hide ValueUsable, IntegerAgrees, IntegerAgreesAt, PutChoiceIndex, PutCount, Extension, Presence, ElementParams, Align, Pack;
    match (t, v)
    case (IntType, IntValue(i)) =>
      IntegerAgreesHere(s, i, p.valueExtensible, p.valueLowerBound, p.valueUpperBound);
    case (SequenceType(fields), SequenceValue(vs)) =>
      PutSequence(s, fields, p, vs);
      FieldsAgreeHere(s + Extension(p.valueExtensible) + Presence(fields, vs, |fields|), fields, vs, 0);
    case (ChoiceType(alts), ChoiceValue(present, alt)) =>
      if p.openType {
        PutOpenType(s, alts, p, present, alt);
        AgreesHere([], alts[present - 1].ty, alts[present - 1].params, alt);
      } else {
        PutChoiceParts(s, alts, p, present, alt);
        var s1 := PutChoiceIndex(s + Extension(p.valueExtensible), present, p.valueExtensible, p.valueUpperBound).value;
        AgreesHere(s1, alts[present - 1].ty, alts[present - 1].params, alt);
      }
    case (SliceType(elem), SliceValue(elems)) =>
      PutSlice(s, elem, p, elems);
      var s1 := PutCount(s, |elems|, p.sizeExtensible, p.sizeLowerBound, p.sizeUpperBound).value;
      ElementsAgreeHere(s1, elem, ElementParams(p), elems);
    case _ =>
  }

  lemma IntegerAgreesHere(s: BitSeq, value: Int64, extensible: bool, lb: Option<Int64>, ub: Option<Int64>)
    requires IntegerAgrees(value, extensible, lb, ub)
    ensures IntegerAgreesAt(s, value, extensible, lb, ub)
  {
    hide IntegerForm, SignAgrees, WidthsMatch;
  }

  lemma {:induction false} FieldsAgreeHere(s: BitSeq, fields: seq<Field>, vs: seq<Option<Value>>, i: nat)
    requires i <= |fields| == |vs| && FieldsAgree(fields, vs, i) && PutFields(s, fields, vs, i).Ok?
    ensures FieldsAgreeAt(s, fields, vs, i)
    decreases fields, 4, |fields| - i
  {
    hide PutField, PutFields, Agrees, AgreesAt, Presence, Marked, FieldParams;
    if i < |fields| {
      PutNext(s, fields, vs, i);
      if Marked(fields, Presence(fields, vs, |fields|), i) {
        var p, v := FieldParams(fields, vs[..i]).value, vs[i].value;
        AgreesHere(s, fields[i].ty, p, v);
        FieldsAgreeHere(PutField(s, fields[i].ty, p, v).value, fields, vs, i + 1);
      } else {
        FieldsAgreeHere(s, fields, vs, i + 1);
      }
    }
  }

  lemma {:induction false} ElementsAgreeHere(s: BitSeq, elem: Type, p: Params, elems: seq<Value>)
    requires (forall i | 0 <= i < |elems| :: Agrees(elem, p, elems[i])) && PutElements(s, elem, p, elems).Ok?
    ensures ElementsAgreeAt(s, elem, p, elems)
    decreases elem, 4, |elems|
  {
    hide PutField, Agrees, AgreesAt;
    if elems != [] {
      AgreesHere(s, elem, p, elems[0]);
      ElementsAgreeHere(PutField(s, elem, p, elems[0]).value, elem, p, elems[1..]);
    }
  }

  // ---------- main results ----------

  /** Wherever a value is written and whatever follows it, the decoder returns that value and stops at
      exactly the bit where the encoder stopped, unless its last field starts at the end of the data. */
  lemma FieldRoundTrip(s: BitSeq, t: Type, p: Params, v: Value, d: BitSeq)
    requires |d| % 8 == 0 && AgreesAt(s, t, p, v)
    requires PutField(s, t, p, v).Ok? && PutField(s, t, p, v).value <= d
    ensures GetField(d, |s|, t, p) == Got(v, |PutField(s, t, p, v).value|) <==> LastStart(s, t, p, v) < |d|
    ensures |PutField(s, t, p, v).value| < |d| ==> LastStart(s, t, p, v) < |d|
  {
    hide PutField, GetField, AgreesAt, LastStart;
    FieldBack(s, t, p, v, d);
    LastStartWithin(s, t, p, v);
  }

  /** Marshal and Unmarshal undo each other on whole messages. */
  lemma MessageRoundTrip(t: Type, p: Params, v: Value)
    requires AgreesAt([], t, p, v) && Marshalled(t, p, v).Ok?
    ensures Unmarshalled(Marshalled(t, p, v).value, t, p) == Ok(v)
            <==> LastStart([], t, p, v) < 8 * |Marshalled(t, p, v).value|
  {
    hide PutField, GetField, AgreesAt, LastStart, Pack, Unpack, Align;
    var s := PutField([], t, p, v).value;
    var bytes := Marshalled(t, p, v).value;
    assert s <= Unpack(bytes) by {
      if s != [] { UnpackPack(Align(s)); }
    }
    FieldBack([], t, p, v, Unpack(bytes));
  }

  /** No encoding is the beginning of another value's encoding. */
  lemma PrefixFree(s: BitSeq, t: Type, p: Params, v: Value, w: Value)
    requires AgreesAt(s, t, p, v) && AgreesAt(s, t, p, w)
    requires PutField(s, t, p, v).Ok? && PutField(s, t, p, w).Ok?
    requires PutField(s, t, p, v).value <= PutField(s, t, p, w).value
    ensures v == w
  {
    hide PutField, GetField, AgreesAt, LastStart, Align;
    var longer := PutField(s, t, p, w).value;
    var d := Align(longer) + Zeros(8);
    PrefixThrough(longer, Align(longer), d);
    PrefixThrough(PutField(s, t, p, v).value, longer, d);
    FieldRoundTrip(s, t, p, v, d);
    FieldRoundTrip(s, t, p, w, d);
  }
}
