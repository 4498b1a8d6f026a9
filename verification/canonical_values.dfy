/** Which of the inputs the decoder accepts are those the encoder writes, part by part. */
module CanonicalValues {
  import opened Bits
  import opened Common
  import opened BitCopy
  import opened Encoding
  import opened Decoding
  import opened RoundTrip
  import opened IntegerRoundTrip
  import opened WholeValue
  import opened Exactness
  import opened CanonicalForms
  import opened CanonicalStrings
  import WritableValues

  // ---------- extension bits ----------

  /** Whether the tag has the extension bit that counts for a field of this type. */
  predicate Extensible(t: Type, p: Params) {
    if IsString(t) || t.SliceType? then p.sizeExtensible else p.valueExtensible
  }

  /** That bit, where it was read. */
  predicate Extended(d: BitSeq, pos: nat, t: Type, p: Params) {
    Extensible(t, p) && pos < |d| && d[pos]
  }

  /** Where the field goes on after it. */
  function After(pos: nat, t: Type, p: Params): nat { pos + if Extensible(t, p) then 1 else 0 }

  /** A field is its extension bit and then its body. */
  lemma FieldFlags(d: BitSeq, pos: nat, t: Type, p: Params)
    requires pos <= |d| && TagsAlike(t, p) && GetField(d, pos, t, p).Got?
    ensures !t.ObjectIdentifierType? && pos < |d| && After(pos, t, p) <= |d|
    ensures d[..After(pos, t, p)] == d[..pos] + ExtensionRead(Extensible(t, p), Extended(d, pos, t, p))
    ensures
      var ext := Extended(d, pos, t, p);
      GetField(d, pos, t, p) == GetBody(d, After(pos, t, p), t, p, ext && (IsString(t) || t.SliceType?),
                                        ext && !(IsString(t) || t.SliceType?))
  {
    hide GetField, GetBody, TagsAlike, GetFlag;
    NotAnObject(d, pos, t, p);
    TagFlags(t, p);
    NotAtEnd(d, pos, t, p);
    assert d[..pos + 1] == d[..pos] + [d[pos]] && d[..pos] + [] == d[..pos];
    FlagBack(d[..pos], d[pos], d);
    NoFlag(d, pos);
    NoFlag(d, After(pos, t, p));
    if p.sizeExtensible {
      FieldBody(d, pos, t, p, d[pos], pos + 1, false, pos + 1);
    } else {
      FieldBody(d, pos, t, p, false, pos, Extended(d, pos, t, p), After(pos, t, p));
    }
  }

  lemma NotAtEnd(d: BitSeq, pos: nat, t: Type, p: Params)
    requires pos <= |d| && GetField(d, pos, t, p).Got?
    ensures pos < |d|
  {
    hide GetFlag, GetBody;
  }

  lemma FieldBody(d: BitSeq, pos: nat, t: Type, p: Params, sizeExt: bool, p1: nat, valueExt: bool, p2: nat)
    requires pos < |d| && p1 <= |d| && p2 <= |d| && GetFlag(d, pos, p.sizeExtensible) == Got(sizeExt, p1)
    requires GetFlag(d, p1, p.valueExtensible && !t.SliceType? && !t.OctetStringType?) == Got(valueExt, p2)
    ensures GetField(d, pos, t, p) == GetBody(d, p2, t, p, sizeExt, valueExt)
  {
    hide GetFlag, GetBody;
  }

  /** A field has no other extension bit than that. */
  lemma TagFlags(t: Type, p: Params)
    requires TagsAlike(t, p) && !t.ObjectIdentifierType?
    ensures p.sizeExtensible ==> IsString(t) || t.SliceType?
    ensures p.valueExtensible && !t.SliceType? && !t.OctetStringType? ==> !IsString(t)
  {
    hide SizeUsable, ValueUsable, CountUsable, OptionalCount;
  }

  lemma NotAnObject(d: BitSeq, pos: nat, t: Type, p: Params)
    requires pos <= |d| && GetField(d, pos, t, p).Got?
    ensures !t.ObjectIdentifierType?
  {
    hide GetFlag;
  }

  // ---------- what is canonical of one part ----------

  /** The bits of a field that belong to none of its parts are the encoder's. */
  predicate OwnBitsCanonical(d: BitSeq, pos: nat, t: Type, p: Params)
    requires pos <= |d| && After(pos, t, p) <= |d|
  {
    var ext, at := Extended(d, pos, t, p), After(pos, t, p);
    match t
    case BitStringType => StringCanonicalHere(d, pos, t, 1, p)
    case OctetStringType => StringCanonicalHere(d, pos, t, 8, p)
    case PrintableStringType => StringCanonicalHere(d, pos, t, 8, p)
    case ObjectIdentifierType => false
    case EnumeratedType =>
      var r := GetEnumerated(d, at, ext, p.valueLowerBound, p.valueUpperBound);
      r.Got? && p.valueLowerBound.value <= WrapInt64(r.value) <= p.valueUpperBound.value
    case BoolType => true
    case IntType =>
      var r := GetInteger(d, at, ext, p.valueLowerBound, p.valueUpperBound);
      r.Got? && IntegerIsEncoders(d[..pos], d, r.value, ext, p.valueExtensible, p.valueLowerBound, p.valueUpperBound)
    case SequenceType(fields) =>
      var r := GetPresence(d, at, fields);
      !ext && r.Got? && Masked(r.value)
    case ChoiceType(alts) =>
      if p.openType then !ext && OpenTypeCanonical(d, at, alts, p)
      else
        var r := GetChoiceIndex(d, at, ext, p.valueUpperBound);
        r.Got? && (p.valueExtensible ==> r.value <= p.valueUpperBound.value + 1)
    case SliceType(_) =>
      var r := GetCount(d, at, ext, p.sizeLowerBound, p.sizeUpperBound);
      r.Got? && r.value.pending.None? && CountInBounds(r.value.n, ext, p.sizeLowerBound, p.sizeUpperBound)
  }

  predicate StringCanonicalHere(d: BitSeq, pos: nat, t: Type, unit: Unit, p: Params)
    requires pos <= |d| && After(pos, t, p) <= |d| && IsString(t)
  {
    var ext := Extended(d, pos, t, p);
    var r := GetString(d, After(pos, t, p), unit, ext, p.sizeLowerBound, p.sizeUpperBound);
    r.Got? && StringIsEncoders(d[..pos], d, r.value.n, unit, ext, p.sizeExtensible, p.sizeLowerBound, p.sizeUpperBound)
  }

  /** Of more than 64 presence bits, the first ones are clear. */
  predicate Masked(presence: BitSeq) {
    forall k | 0 <= k < |presence| - 64 :: !presence[k]
  }

  /** The octets of an open type are in as few fragments as can be, and hold its value and zeros up to their end. */
  predicate OpenTypeCanonical(d: BitSeq, at: nat, alts: seq<Field>, p: Params)
    requires at <= |d|
  {
    && p.referenceFieldValue.Some?
    && var present := MatchingAlternative(alts, p.referenceFieldValue.value, 0);
       var c := GetFragments(d, at, 0, -1, 8, NONE);
       && 1 <= present < 0x8000_0000_0000_0000 && c.Got?
       && FragmentsAgree(-1, 0, c.value.n) && FewestFragments(d, at, 0, -1, 8)
       && var inner := Unpack(c.value.bytes);
          var r := GetField(inner, 0, alts[present - 1].ty, alts[present - 1].params);
          r.Got? && Align(inner[..r.pos]) == inner
  }

  // ---------- every part ----------

  /** Every part of what is read, fields, elements, alternatives and the octets of open types, is canonical in the bits
      of its own; or, with `back`, is written, where it stands, as the bits it was read from. */
  predicate EveryPart(d: BitSeq, pos: nat, t: Type, p: Params, back: bool)
    requires pos <= |d|
    decreases t, 3, 0
  {
    var r, at := GetField(d, pos, t, p), After(pos, t, p);
    && r.Got? && at <= |d|
    && (if back then PutField(d[..pos], t, p, r.value) == Ok(d[..r.pos]) else OwnBitsCanonical(d, pos, t, p))
    && (t.SequenceType? ==>
          var presence := GetPresence(d, at, t.fields);
          presence.Got? && EveryField(d, presence.pos, t.fields, presence.value, [], back))
    && (t.ChoiceType? ==> EveryAlternative(d, at, t, p, back))
    && (t.SliceType? ==>
          var count := GetCount(d, at, Extended(d, pos, t, p), p.sizeLowerBound, p.sizeUpperBound);
          count.Got? && EveryElement(d, count.pos, t.elem, ElementParams(p), count.value.n, back))
  }

  /** The alternative of a CHOICE or of an open type, which is read on its own. */
  predicate EveryAlternative(d: BitSeq, at: nat, t: Type, p: Params, back: bool)
    requires at <= |d| && t.ChoiceType?
    decreases t, 1, 0
  {
    if p.openType then
      && p.referenceFieldValue.Some?
      && var present := MatchingAlternative(t.alternatives, p.referenceFieldValue.value, 0);
         var c := GetFragments(d, at, 0, -1, 8, NONE);
         && present >= 1 && c.Got?
         && EveryPart(Unpack(c.value.bytes), 0, t.alternatives[present - 1].ty, t.alternatives[present - 1].params, back)
    else
      var index := GetChoiceIndex(d, at, false, p.valueUpperBound);
      && index.Got? && index.value <= |t.alternatives|
      && EveryPart(d, index.pos, t.alternatives[index.value - 1].ty, t.alternatives[index.value - 1].params, back)
  }

  /** The fields after those already read. */
  predicate EveryField(d: BitSeq, pos: nat, fields: seq<Field>, presence: BitSeq, got: seq<Option<Value>>, back: bool)
    requires pos <= |d| && |presence| == OptionalCount(fields) && |got| <= |fields|
    decreases fields, 4, |fields| - |got|
  {
    if |got| == |fields| then true
    else if !Marked(fields, presence, |got|) then EveryField(d, pos, fields, presence, got + [None], back)
    else
      var q := FieldParams(fields, got);
      && q.Ok? && EveryPart(d, pos, fields[|got|].ty, q.value, back)
      && var r := GetField(d, pos, fields[|got|].ty, q.value);
         r.Got? && EveryField(d, r.pos, fields, presence, got + [Some(r.value)], back)
  }

  predicate EveryElement(d: BitSeq, pos: nat, elem: Type, p: Params, n: nat, back: bool)
    requires pos <= |d|
    decreases elem, 4, n
  {
    n == 0
    || (EveryPart(d, pos, elem, p, back)
        && var r := GetField(d, pos, elem, p);
           r.Got? && EveryElement(d, r.pos, elem, p, n - 1, back))
  }

  // ---------- leaves ----------

  lemma StringLeaf(d: BitSeq, pos: nat, t: Type, p: Params, bytes: seq<bv8>, n: nat, unit: Unit)
    requires pos <= |d| && |d| % 8 == 0 && IsString(t) && TagsAlike(t, p) && After(pos, t, p) <= |d|
    requires d[..After(pos, t, p)] == d[..pos] + ExtensionRead(Extensible(t, p), Extended(d, pos, t, p))
    requires
      var r := GetString(d, After(pos, t, p), unit, Extended(d, pos, t, p), p.sizeLowerBound, p.sizeUpperBound);
      r.Got? && r.value.n == n && |bytes| == BytesOf(n, unit) && SameUnits(bytes, 0, r.value.bytes, n, unit)
    ensures
      var r := GetString(d, After(pos, t, p), unit, Extended(d, pos, t, p), p.sizeLowerBound, p.sizeUpperBound);
      PutString(d[..pos], bytes, n, unit, p.sizeExtensible, p.sizeLowerBound, p.sizeUpperBound) == Ok(d[..r.pos])
      <==> StringCanonicalHere(d, pos, t, unit, p)
  {
    hide GetString, PutString, StringIsEncoders, SameUnits, BytesOf, SizeUsable;
    StringCanonical(d[..pos], d, bytes, unit, Extended(d, pos, t, p), p.sizeExtensible, p.sizeLowerBound, p.sizeUpperBound);
  }

  lemma StringPart(d: BitSeq, pos: nat, t: Type, p: Params)
    requires pos <= |d| && |d| % 8 == 0 && IsString(t) && TagsAlike(t, p) && GetField(d, pos, t, p).Got?
    ensures After(pos, t, p) <= |d|
    ensures PutField(d[..pos], t, p, GetField(d, pos, t, p).value) == Ok(d[..GetField(d, pos, t, p).pos])
            <==> OwnBitsCanonical(d, pos, t, p)
  {
    FieldFlags(d, pos, t, p);
    hide GetField, PutField, GetString, PutString, StringCanonicalHere, SizeUsable, Pack, Unpack, Padded, TagsAlike, BytesOf;
    var v := GetField(d, pos, t, p).value;
    var ext, at := Extended(d, pos, t, p), After(pos, t, p);
    PutLeaf(d[..pos], t, p, v);
    if t.BitStringType? {
      var c := GetString(d, at, 1, ext, p.sizeLowerBound, p.sizeUpperBound).value;
      var content := BitsOfContent(v.bits);
      SameBits(content, c, v.bits);
      StringLeaf(d, pos, t, p, content, c.n, 1);
    } else {
      var c := GetString(d, at, 8, ext, p.sizeLowerBound, p.sizeUpperBound).value;
      OctetStringCounted(d, at, ext, p.sizeLowerBound, p.sizeUpperBound);
      OctetsOf(c.n);
      SameOctets(c);
      StringLeaf(d, pos, t, p, c.bytes, c.n, 8);
    }
  }

  lemma SameBits(content: seq<bv8>, c: Content, bits: BitSeq)
    requires c.n <= 8 * |c.bytes| && bits == Unpack(c.bytes)[..c.n]
    requires |content| == BytesOf(c.n, 1) && c.n <= 8 * |content| && Unpack(content)[..c.n] == bits
    ensures |bits| == c.n && SameUnits(content, 0, c.bytes, c.n, 1)
  {
    hide Unpack;
    assert content[0..] == content;
  }

  lemma SameOctets(c: Content)
    requires |c.bytes| == c.n
    ensures SameUnits(c.bytes, 0, c.bytes, c.n, 8)
  {
    hide Unpack;
    assert c.bytes[0..] == c.bytes;
  }

  lemma LeafPart(d: BitSeq, pos: nat, t: Type, p: Params)
    requires pos <= |d| && |d| % 8 == 0 && TagsAlike(t, p) && GetField(d, pos, t, p).Got?
    requires !t.SequenceType? && !t.ChoiceType? && !t.SliceType?
    ensures After(pos, t, p) <= |d|
    ensures PutField(d[..pos], t, p, GetField(d, pos, t, p).value) == Ok(d[..GetField(d, pos, t, p).pos])
            <==> OwnBitsCanonical(d, pos, t, p)
  {
    FieldFlags(d, pos, t, p);
    hide GetField, PutField;
    if IsString(t) {
      StringPart(d, pos, t, p);
    } else if t.EnumeratedType? {
      EnumeratedPart(d, pos, t, p);
    } else if t.IntType? {
      IntegerPart(d, pos, t, p);
    } else {
      BoolPart(d, pos, t, p);
    }
  }

  lemma BoolPart(d: BitSeq, pos: nat, t: Type, p: Params)
    requires pos <= |d| && t.BoolType? && TagsAlike(t, p) && GetField(d, pos, t, p).Got?
    ensures PutField(d[..pos], t, p, GetField(d, pos, t, p).value) == Ok(d[..GetField(d, pos, t, p).pos])
  {
    FieldFlags(d, pos, t, p);
    hide GetField, PutField, GetValue;
    PutLeaf(d[..pos], t, p, GetField(d, pos, t, p).value);
    assert d[..pos + 1] == d[..pos] + [d[pos]];
    FlagBack(d[..pos], d[pos], d);
  }

  lemma EnumeratedPart(d: BitSeq, pos: nat, t: Type, p: Params)
    requires pos <= |d| && t.EnumeratedType? && TagsAlike(t, p) && GetField(d, pos, t, p).Got? && After(pos, t, p) <= |d|
    ensures PutField(d[..pos], t, p, GetField(d, pos, t, p).value) == Ok(d[..GetField(d, pos, t, p).pos])
            <==> OwnBitsCanonical(d, pos, t, p)
  {
    hide GetField, PutField, PutEnumerated, GetEnumerated, GetBody, OwnBitsCanonical, TagsAlike;
    FieldFlags(d, pos, t, p);
    NumberBody(d, After(pos, t, p), t, p, Extended(d, pos, t, p));
    OwnOfNumber(d, pos, t, p);
    PutLeaf(d[..pos], t, p, GetField(d, pos, t, p).value);
    NeverExtended(d, After(pos, t, p), Extended(d, pos, t, p), p.valueLowerBound, p.valueUpperBound);
    EnumeratedCanonical(d[..pos], d, p.valueExtensible, p.valueLowerBound, p.valueUpperBound);
  }

  lemma NeverExtended(d: BitSeq, at: nat, extended: bool, lb: Option<Int64>, ub: Option<Int64>)
    requires at <= |d|
    ensures GetEnumerated(d, at, extended, lb, ub).Got? ==> !extended && lb.Some? && ub.Some?
  {
    hide GetConstrained;
  }

  lemma IntegerPart(d: BitSeq, pos: nat, t: Type, p: Params)
    requires pos <= |d| && t.IntType? && TagsAlike(t, p) && GetField(d, pos, t, p).Got? && After(pos, t, p) <= |d|
    ensures PutField(d[..pos], t, p, GetField(d, pos, t, p).value) == Ok(d[..GetField(d, pos, t, p).pos])
            <==> OwnBitsCanonical(d, pos, t, p)
  {
    hide GetField, PutField, PutInteger, GetInteger, IntegerIsEncoders, GetBody, OwnBitsCanonical, TagsAlike;
    FieldFlags(d, pos, t, p);
    NumberBody(d, After(pos, t, p), t, p, Extended(d, pos, t, p));
    OwnOfNumber(d, pos, t, p);
    PutLeaf(d[..pos], t, p, GetField(d, pos, t, p).value);
    assert ValueUsable(p.valueExtensible, p.valueLowerBound, p.valueUpperBound) by { IntegerTags(t, p); }
    IntegerCanonical(d[..pos], d, Extended(d, pos, t, p), p.valueExtensible, p.valueLowerBound, p.valueUpperBound);
  }

  lemma IntegerTags(t: Type, p: Params)
    requires t.IntType? && TagsAlike(t, p)
    ensures ValueUsable(p.valueExtensible, p.valueLowerBound, p.valueUpperBound)
  {}

  lemma NumberBody(d: BitSeq, at: nat, t: Type, p: Params, ext: bool)
    requires at <= |d| && (t.EnumeratedType? || t.IntType?) && GetBody(d, at, t, p, false, ext).Got?
    ensures t.EnumeratedType? ==>
              var r := GetEnumerated(d, at, ext, p.valueLowerBound, p.valueUpperBound);
              r.Got? && GetBody(d, at, t, p, false, ext) == Got(EnumeratedValue(r.value), r.pos)
    ensures t.IntType? ==>
              var r := GetInteger(d, at, ext, p.valueLowerBound, p.valueUpperBound);
              r.Got? && GetBody(d, at, t, p, false, ext) == Got(IntValue(r.value), r.pos)
  {
    hide GetEnumerated, GetInteger;
  }

  lemma OwnOfNumber(d: BitSeq, pos: nat, t: Type, p: Params)
    requires pos <= |d| && After(pos, t, p) <= |d|
    ensures t.EnumeratedType? ==>
              var r := GetEnumerated(d, After(pos, t, p), Extended(d, pos, t, p), p.valueLowerBound, p.valueUpperBound);
              OwnBitsCanonical(d, pos, t, p)
              <==> r.Got? && p.valueLowerBound.Some? && p.valueUpperBound.Some?
                   && p.valueLowerBound.value <= WrapInt64(r.value) <= p.valueUpperBound.value
    ensures t.IntType? ==>
              var r := GetInteger(d, After(pos, t, p), Extended(d, pos, t, p), p.valueLowerBound, p.valueUpperBound);
              OwnBitsCanonical(d, pos, t, p)
              <==> r.Got? && IntegerIsEncoders(d[..pos], d, r.value, Extended(d, pos, t, p), p.valueExtensible,
                                               p.valueLowerBound, p.valueUpperBound)
  {
    hide OpenTypeCanonical, GetChoiceIndex, StringCanonicalHere, IntegerIsEncoders, Masked, CountInBounds;
    hide GetInteger, GetPresence, GetCount, WrapInt64, GetConstrained;
  }

  // ---------- SEQUENCE ----------

  /** What the decoder returns of a SEQUENCE: the fields it had, and then one for each that the presence bits mark. */
  lemma {:induction false} FieldsRead(d: BitSeq, pos: nat, fields: seq<Field>, presence: BitSeq, got: seq<Option<Value>>)
    requires pos <= |d| && |presence| == OptionalCount(fields) && |got| <= |fields|
    requires GetFields(d, pos, fields, presence, got).Got?
    ensures
      var v := GetFields(d, pos, fields, presence, got).value;
      && v.SequenceValue? && |v.fields| == |fields| && got <= v.fields
      && forall i | |got| <= i < |fields| :: v.fields[i].Some? <==> Marked(fields, presence, i)
    decreases |fields| - |got|
  {
    hide GetField, FieldParams, Marked;
    if |got| < |fields| {
      if !Marked(fields, presence, |got|) {
        FieldsRead(d, pos, fields, presence, got + [None]);
        assert (got + [None])[|got|] == None;
      } else {
        var r := GetField(d, pos, fields[|got|].ty, FieldParams(fields, got).value);
        FieldsRead(d, r.pos, fields, presence, got + [Some(r.value)]);
        assert (got + [Some(r.value)])[|got|] == Some(r.value);
      }
    }
  }

  /** Presence bits that keep to the mask are those of the fields they mark. */
  lemma {:induction false} PresenceKept(fields: seq<Field>, vs: seq<Option<Value>>, presence: BitSeq, i: nat)
    requires i <= |fields| == |vs| && |presence| == OptionalCount(fields) && Masked(presence)
    requires forall j | 0 <= j < |fields| :: vs[j].Some? <==> Marked(fields, presence, j)
    ensures OptionalBefore(fields, i) <= |presence| && Presence(fields, vs, i) == presence[..OptionalBefore(fields, i)]
  {
    hide Marked;
    OptionalMonotone(fields, i, |fields|);
    if i > 0 {
      PresenceKept(fields, vs, presence, i - 1);
      if fields[i - 1].params.optional { PresenceBit(fields, vs, presence, i - 1); }
    }
  }

  lemma PresenceBit(fields: seq<Field>, vs: seq<Option<Value>>, presence: BitSeq, i: nat)
    requires i < |fields| == |vs| && |presence| == OptionalCount(fields) && Masked(presence) && fields[i].params.optional
    requires vs[i].Some? <==> Marked(fields, presence, i)
    ensures OptionalBefore(fields, i) < |presence|
    ensures presence[OptionalBefore(fields, i)] == (vs[i].Some? && InMask(fields, i))
  {
    OptionalMonotone(fields, i, |fields|);
  }

  /** The encoder's presence bits keep to the mask. */
  lemma {:induction false} PresenceMasked(fields: seq<Field>, vs: seq<Option<Value>>, i: nat)
    requires i <= |fields| == |vs|
    ensures forall k | 0 <= k < |Presence(fields, vs, i)| && k < OptionalCount(fields) - 64 :: !Presence(fields, vs, i)[k]
  {
    if i > 0 { PresenceMasked(fields, vs, i - 1); }
  }

  /** Fields all of which are written as they were read are written, one after another, as they were read. */
  lemma {:induction false} FieldsBackWritten(d: BitSeq, pos: nat, fields: seq<Field>, presence: BitSeq,
      got: seq<Option<Value>>, vs: seq<Option<Value>>)
    requires pos <= |d| && |presence| == OptionalCount(fields) && |got| <= |fields| == |vs| && got <= vs
    requires GetFields(d, pos, fields, presence, got).Got? && GetFields(d, pos, fields, presence, got).value == SequenceValue(vs)
    requires Presence(fields, vs, |fields|) == presence && EveryField(d, pos, fields, presence, got, true)
    ensures PutFields(d[..pos], fields, vs, |got|) == Ok(d[..GetFields(d, pos, fields, presence, got).pos])
    decreases |fields| - |got|
  {
    hide GetField, PutField, FieldParams, Marked, EveryPart, Presence;
    if |got| == |fields| {
      PutNone(d[..pos], fields, vs);
    } else {
      assert vs[..|got|] == got;
      FieldsRead(d, pos, fields, presence, got);
      PutNext(d[..pos], fields, vs, |got|);
      if !Marked(fields, presence, |got|) {
        FieldsRead(d, pos, fields, presence, got + [None]);
        FieldsBackWritten(d, pos, fields, presence, got + [None], vs);
      } else {
        var q := FieldParams(fields, got).value;
        var r := GetField(d, pos, fields[|got|].ty, q);
        FieldsRead(d, r.pos, fields, presence, got + [Some(r.value)]);
        assert vs[|got|] == (got + [Some(r.value)])[|got|];
        PartBack(d, pos, fields[|got|].ty, q);
        FieldsBackWritten(d, r.pos, fields, presence, got + [Some(r.value)], vs);
      }
    }
  }

  lemma PartBack(d: BitSeq, pos: nat, t: Type, p: Params)
    requires pos <= |d| && EveryPart(d, pos, t, p, true)
    ensures GetField(d, pos, t, p).Got?
    ensures PutField(d[..pos], t, p, GetField(d, pos, t, p).value) == Ok(d[..GetField(d, pos, t, p).pos])
  {
    hide GetField, PutField, EveryField, EveryAlternative, EveryElement;
  }

  lemma OwnOfSequence(d: BitSeq, pos: nat, fields: seq<Field>, p: Params)
    requires pos <= |d| && After(pos, SequenceType(fields), p) <= |d|
    ensures
      var r := GetPresence(d, After(pos, SequenceType(fields), p), fields);
      OwnBitsCanonical(d, pos, SequenceType(fields), p)
      <==> !Extended(d, pos, SequenceType(fields), p) && r.Got? && Masked(r.value)
  {
    hide OpenTypeCanonical, GetChoiceIndex, StringCanonicalHere, IntegerIsEncoders, Masked, CountInBounds;
    hide GetEnumerated, GetInteger, GetPresence, GetCount;
  }

  /** A SEQUENCE whose fields are written as they were read is so itself exactly when its extension bit and its
      presence bits are the encoder's. */
  lemma SequencePart(d: BitSeq, pos: nat, fields: seq<Field>, p: Params, presence: BitSeq, p1: nat)
    requires pos <= |d| && TagsAlike(SequenceType(fields), p) && GetField(d, pos, SequenceType(fields), p).Got?
    requires After(pos, SequenceType(fields), p) <= |d|
    requires GetPresence(d, After(pos, SequenceType(fields), p), fields) == Got(presence, p1)
    requires EveryField(d, p1, fields, presence, [], true)
    ensures
      var r := GetField(d, pos, SequenceType(fields), p);
      PutField(d[..pos], SequenceType(fields), p, r.value) == Ok(d[..r.pos])
      <==> OwnBitsCanonical(d, pos, SequenceType(fields), p)
  {
    hide GetField, GetBody, PutField, GetFields, PutFields, GetPresence, Presence, EveryField, TagsAlike, Masked, Marked;
    hide OwnBitsCanonical;
    var t := SequenceType(fields);
    FieldFlags(d, pos, t, p);
    OwnOfSequence(d, pos, fields, p);
    SequenceBody(d, After(pos, t, p), fields, p, Extended(d, pos, t, p), presence, p1);
    var ext, at, r := Extended(d, pos, t, p), After(pos, t, p), GetFields(d, p1, fields, presence, []);
    FieldsRead(d, p1, fields, presence, []);
    var vs := r.value.fields;
    PutSequence(d[..pos], fields, p, vs);
    PresenceThere(d, at, fields);
    if !ext && Masked(presence) {
      PresenceKept(fields, vs, presence, |fields|);
      assert presence[..|presence|] == presence;
      assert d[..pos] + Extension(p.valueExtensible) + presence == d[..p1];
      FieldsBackWritten(d, p1, fields, presence, [], vs);
    } else if PutField(d[..pos], t, p, SequenceValue(vs)) == Ok(d[..r.pos]) {
      SequenceStart(d, pos, fields, p, vs, at, ext, presence);
    }
  }

  lemma SequenceBody(d: BitSeq, at: nat, fields: seq<Field>, p: Params, ext: bool, presence: BitSeq, p1: nat)
    requires at <= |d| && GetPresence(d, at, fields) == Got(presence, p1)
    ensures GetBody(d, at, SequenceType(fields), p, false, ext) == GetFields(d, p1, fields, presence, [])
  {
    hide GetFields, GetPresence;
  }

  lemma PresenceThere(d: BitSeq, at: nat, fields: seq<Field>)
    requires at <= |d| && GetPresence(d, at, fields).Got?
    ensures
      var r := GetPresence(d, at, fields);
      at + |r.value| == r.pos <= |d| && r.value == d[at..r.pos] && d[..r.pos] == d[..at] + r.value
  {}

  /** What the encoder wrote begins with a clear extension bit and presence bits that keep to the mask. */
  lemma SequenceStart(d: BitSeq, pos: nat, fields: seq<Field>, p: Params, vs: seq<Option<Value>>, at: nat, ext: bool, presence: BitSeq)
    requires |vs| == |fields| && pos <= at <= |d| && d[..at] == d[..pos] + ExtensionRead(p.valueExtensible, ext)
    requires at + |presence| <= |d| && presence == d[at..at + |presence|] && |presence| == OptionalCount(fields)
    requires (ext ==> p.valueExtensible)
    requires PutFields(d[..pos] + Extension(p.valueExtensible) + Presence(fields, vs, |fields|), fields, vs, 0).Ok?
    requires PutFields(d[..pos] + Extension(p.valueExtensible) + Presence(fields, vs, |fields|), fields, vs, 0).value <= d
    ensures !ext && Masked(presence)
  {
    hide PutFields, Presence, Extension;
    var encoded := Presence(fields, vs, |fields|);
    var s := d[..pos] + Extension(p.valueExtensible) + encoded;
    PrefixThrough(s, PutFields(s, fields, vs, 0).value, d);
    ExtensionBit(d, pos, p.valueExtensible, ext, at);
    assert encoded == s[at..] == d[at..at + |presence|];
    PresenceMasked(fields, vs, |fields|);
  }

  lemma ExtensionBit(d: BitSeq, pos: nat, extensible: bool, ext: bool, at: nat)
    requires pos <= at <= |d| && d[..at] == d[..pos] + ExtensionRead(extensible, ext) && (ext ==> extensible)
    ensures |Extension(extensible)| == at - pos
    ensures d[..pos] + Extension(extensible) <= d <==> !ext
  {
    assert |d[..at]| == at;
    if extensible {
      assert d[pos] == d[..at][pos] == ext;
      assert !ext ==> d[..pos] + [false] == d[..at];
      assert (d[..pos] + [false])[pos] == false;
    } else {
      assert d[..pos] + [] == d[..pos];
    }
  }

  // ---------- CHOICE ----------

  lemma ChoiceBodyRead(d: BitSeq, at: nat, alts: seq<Field>, p: Params, ext: bool)
    requires at <= |d| && OptionalCount(alts) == 0
    ensures GetBody(d, at, ChoiceType(alts), p, false, ext)
         == if p.openType then GetOpenType(d, at, ChoiceType(alts), p.referenceFieldValue)
            else GetChoice(d, at, ChoiceType(alts), ext, p.valueUpperBound)
  {
    hide GetOpenType, GetChoice, OptionalCount;
  }

  lemma OwnOfChoice(d: BitSeq, pos: nat, alts: seq<Field>, p: Params)
    requires pos <= |d| && After(pos, ChoiceType(alts), p) <= |d|
    ensures
      var ext, at := Extended(d, pos, ChoiceType(alts), p), After(pos, ChoiceType(alts), p);
      var r := GetChoiceIndex(d, at, ext, p.valueUpperBound);
      OwnBitsCanonical(d, pos, ChoiceType(alts), p)
      <==> if p.openType then !ext && OpenTypeCanonical(d, at, alts, p)
           else r.Got? && (p.valueExtensible ==> r.value <= p.valueUpperBound.value + 1)
  {
    hide OpenTypeCanonical, GetChoiceIndex, StringCanonicalHere, IntegerIsEncoders, Masked, CountInBounds;
    hide GetEnumerated, GetInteger, GetPresence, GetCount;
  }

  /** A CHOICE is read as its index and its alternative. */
  lemma IndexedRead(d: BitSeq, pos: nat, at: nat, alts: seq<Field>, p: Params)
    returns (index: Read<nat>, alt: Field, r: Read<Value>)
    requires pos <= at <= |d| && at == After(pos, ChoiceType(alts), p)
    requires !p.openType && TagsAlike(ChoiceType(alts), p) && GetField(d, pos, ChoiceType(alts), p).Got?
    requires EveryAlternative(d, at, ChoiceType(alts), p, true)
    ensures !Extended(d, pos, ChoiceType(alts), p) && p.valueUpperBound.Some?
    ensures index == GetChoiceIndex(d, at, false, p.valueUpperBound) && index.Got? && index.pos <= |d|
    ensures 1 <= index.value <= 65536 && index.value <= |alts| && alt == alts[index.value - 1]
    ensures r == GetField(d, index.pos, alt.ty, alt.params) && r.Got? && EveryPart(d, index.pos, alt.ty, alt.params, true)
    ensures GetField(d, pos, ChoiceType(alts), p) == Got(ChoiceValue(index.value, r.value), r.pos)
  {
    hide GetField, GetBody, GetChoice, GetOpenType, TagsAlike, EveryPart, EveryAlternative, GetChoiceIndex, OptionalCount;
    var t := ChoiceType(alts);
    FieldFlags(d, pos, t, p);
    ChoiceTags(alts, p, 1);
    var ext := Extended(d, pos, t, p);
    ChoiceBodyRead(d, at, alts, p, ext);
    NotExtended(d, at, ext, p.valueUpperBound);
    ChoiceRead(d, at, alts, ext, p.valueUpperBound);
    IndexedAlternative(d, at, t, p);
    index := GetChoiceIndex(d, at, false, p.valueUpperBound);
    alt := alts[index.value - 1];
    r := GetField(d, index.pos, alt.ty, alt.params);
  }

  lemma ChoiceRead(d: BitSeq, at: nat, alts: seq<Field>, extended: bool, ub: Option<Int64>)
    requires at <= |d| && GetChoice(d, at, ChoiceType(alts), extended, ub).Got?
    ensures
      var index := GetChoiceIndex(d, at, extended, ub);
      && index.Got? && index.value <= |alts|
      && var r := GetField(d, index.pos, alts[index.value - 1].ty, alts[index.value - 1].params);
         r.Got? && GetChoice(d, at, ChoiceType(alts), extended, ub) == Got(ChoiceValue(index.value, r.value), r.pos)
  {
    hide GetField, GetChoiceIndex;
  }

  lemma IndexedAlternative(d: BitSeq, at: nat, t: Type, p: Params)
    requires at <= |d| && t.ChoiceType? && !p.openType && EveryAlternative(d, at, t, p, true)
    ensures
      var index := GetChoiceIndex(d, at, false, p.valueUpperBound);
      && index.Got? && index.value <= |t.alternatives|
      && EveryPart(d, index.pos, t.alternatives[index.value - 1].ty, t.alternatives[index.value - 1].params, true)
  {
    hide EveryPart, GetChoiceIndex;
  }

  /** A CHOICE whose alternative is written as it was read is so itself exactly when its index is the encoder's. */
  lemma IndexedPart(d: BitSeq, pos: nat, alts: seq<Field>, p: Params)
    requires pos <= |d| && !p.openType && TagsAlike(ChoiceType(alts), p) && GetField(d, pos, ChoiceType(alts), p).Got?
    requires After(pos, ChoiceType(alts), p) <= |d| && EveryAlternative(d, After(pos, ChoiceType(alts), p), ChoiceType(alts), p, true)
    ensures
      var r := GetField(d, pos, ChoiceType(alts), p);
      PutField(d[..pos], ChoiceType(alts), p, r.value) == Ok(d[..r.pos]) <==> OwnBitsCanonical(d, pos, ChoiceType(alts), p)
  {
    hide GetField, PutField, TagsAlike, EveryPart, EveryAlternative, OwnBitsCanonical, PutChoiceIndex, GetChoiceIndex, Extension;
    FieldFlags(d, pos, ChoiceType(alts), p);
    var at := After(pos, ChoiceType(alts), p);
    var index, alt, r := IndexedRead(d, pos, at, alts, p);
    OwnOfChoice(d, pos, alts, p);
    ExtensionBit(d, pos, p.valueExtensible, false, at);
    assert d[..pos] + Extension(p.valueExtensible) == d[..at];
    PartBack(d, index.pos, alt.ty, alt.params);
    WritableValues.IndexedPut(d[..pos], alts, p, index.value, r.value);
    ChoiceIndexCanonical(d, at, p.valueExtensible, p.valueUpperBound);
    if p.valueExtensible && index.value > p.valueUpperBound.value + 1 {
      IndexAbove(d[..at], index.value, p.valueUpperBound);
    }
  }

  lemma NotExtended(d: BitSeq, at: nat, extended: bool, ub: Option<Int64>)
    requires at <= |d|
    ensures GetChoiceIndex(d, at, extended, ub).Got? ==> !extended && ub.Some?
  {
    hide GetConstrained;
  }

  lemma IndexAbove(s: BitSeq, index: nat, ub: Option<Int64>)
    requires 1 <= index <= 65536 && ub.Some? && index > ub.value + 1
    ensures PutChoiceIndex(s, index, true, ub).Err?
  {
    hide PutConstrained;
  }

  // ---------- open types ----------

  /** An open type is read from octets of its own. */
  lemma OpenTypeRead(d: BitSeq, pos: nat, alts: seq<Field>, p: Params)
    requires pos <= |d| && p.openType && TagsAlike(ChoiceType(alts), p) && GetField(d, pos, ChoiceType(alts), p).Got?
    requires After(pos, ChoiceType(alts), p) <= |d| && EveryAlternative(d, After(pos, ChoiceType(alts), p), ChoiceType(alts), p, true)
    ensures p.referenceFieldValue.Some?
    ensures
      var present := MatchingAlternative(alts, p.referenceFieldValue.value, 0);
      var c := GetFragments(d, After(pos, ChoiceType(alts), p), 0, -1, 8, NONE);
      && 1 <= present <= |alts| && c.Got?
      && var inner := Unpack(c.value.bytes);
         var r := GetField(inner, 0, alts[present - 1].ty, alts[present - 1].params);
         && EveryPart(inner, 0, alts[present - 1].ty, alts[present - 1].params, true)
         && r.Got? && GetField(d, pos, ChoiceType(alts), p) == Got(ChoiceValue(WrapInt64(present), r.value), c.pos)
  {
    var t := ChoiceType(alts);
    FieldFlags(d, pos, t, p);
    ChoiceTags(alts, p, 1);
    ChoiceBodyRead(d, After(pos, t, p), alts, p, Extended(d, pos, t, p));
    hide GetField, GetBody, TagsAlike, EveryPart, MatchingAlternative, GetFragments, OptionalCount, Unpack, WrapInt64;
  }

  /** An open type whose value is written as it was read is so itself exactly when its octets hold nothing else and
      are fragmented as the encoder would. */
  lemma OpenTypePart(d: BitSeq, pos: nat, alts: seq<Field>, p: Params)
    requires pos <= |d| && |d| % 8 == 0 && p.openType && TagsAlike(ChoiceType(alts), p) && GetField(d, pos, ChoiceType(alts), p).Got?
    requires After(pos, ChoiceType(alts), p) <= |d| && EveryAlternative(d, After(pos, ChoiceType(alts), p), ChoiceType(alts), p, true)
    ensures
      var r := GetField(d, pos, ChoiceType(alts), p);
      PutField(d[..pos], ChoiceType(alts), p, r.value) == Ok(d[..r.pos]) <==> OwnBitsCanonical(d, pos, ChoiceType(alts), p)
  {
    hide GetField, PutField, TagsAlike, EveryPart, EveryAlternative, OwnBitsCanonical, MatchingAlternative, GetFragments, Extension;
    hide FragmentsAgree, FewestFragments, Unpack, Align, Pack, WrapInt64;
    var t := ChoiceType(alts);
    FieldFlags(d, pos, t, p);
    OpenTypeRead(d, pos, alts, p);
    OwnOfChoice(d, pos, alts, p);
    var at := After(pos, t, p);
    var present := MatchingAlternative(alts, p.referenceFieldValue.value, 0);
    var c := GetFragments(d, at, 0, -1, 8, NONE);
    var inner := Unpack(c.value.bytes);
    var r := GetField(inner, 0, alts[present - 1].ty, alts[present - 1].params);
    PartBack(inner, 0, alts[present - 1].ty, alts[present - 1].params);
    assert inner[..0] == [];
    OpenTypePut(d[..pos], alts, p, present, r.value, inner[..r.pos]);
    ExtensionBit(d, pos, p.valueExtensible, Extended(d, pos, t, p), at);
    OctetsCounted(d, at, 0, -1, NONE);
    OctetsWritten(d, at, d[..pos] + Extension(p.valueExtensible), c.value.bytes, inner[..r.pos]);
  }

  /** An open type is written with the octets of its alternative, if its number fits an int. */
  lemma OpenTypePut(s: BitSeq, alts: seq<Field>, p: Params, present: nat, alt: Value, inner: BitSeq)
    requires p.openType && p.referenceFieldValue.Some? && 1 <= present <= |alts|
    requires present == MatchingAlternative(alts, p.referenceFieldValue.value, 0)
    requires PutField([], alts[present - 1].ty, alts[present - 1].params, alt) == Ok(inner)
    ensures
      var content := Pack(Align(inner));
      var r := PutField(s, ChoiceType(alts), p, ChoiceValue(WrapInt64(present), alt));
      if present < 0x8000_0000_0000_0000
      then r == PutFragments(s + Extension(p.valueExtensible), content, 0, |content|, 0, -1, 8)
      else r.Err?
  {
    hide PutField, Pack, Align, PutFragments, Extension;
    var named := WrapInt64(present);
    if present < 0x8000_0000_0000_0000 {
      WrapSmall(present);
      WritableValues.OpenPut(s, alts, p, present, alt);
      PutOpenType(s, alts, p, present, alt);
    } else if 1 <= named <= |alts| {
      WrapsBelow(present);
      WritableValues.OpenPut(s, alts, p, named, alt);
    } else {
      WritableValues.OutOfRange(s, alts, p, named, alt);
    }
  }

  lemma WrapsBelow(n: nat)
    requires n >= 0x8000_0000_0000_0000
    ensures WrapInt64(n) < n
  {}

  /** Octets in fragments are the encoder's of a value whose bits they begin with exactly when they are in as few
      fragments as can be, after the encoder's extension bit, and hold that value and zeros. */
  lemma OctetsWritten(d: BitSeq, at: nat, s: BitSeq, bytes: seq<bv8>, value: BitSeq)
    requires at <= |d| && |d| % 8 == 0 && |s| == at && value <= Unpack(bytes)
    requires GetFragments(d, at, 0, -1, 8, NONE).Got? && GetFragments(d, at, 0, -1, 8, NONE).value == Content(bytes, |bytes|)
    ensures
      var content := Pack(Align(value));
      PutFragments(s, content, 0, |content|, 0, -1, 8) == Ok(d[..GetFragments(d, at, 0, -1, 8, NONE).pos])
      <==> s <= d && FragmentsAgree(-1, 0, |bytes|) && FewestFragments(d, at, 0, -1, 8) && Align(value) == Unpack(bytes)
  {
    hide GetFragments, PutFragments, FragmentsAgree, FewestFragments, Unpack, Pack, Align, SameUnits;
    var c := GetFragments(d, at, 0, -1, 8, NONE);
    var content := Pack(Align(value));
    OctetsOf(|bytes|);
    SameOctets(c.value);
    UnpackPack(Align(value));
    if PutFragments(s, content, 0, |content|, 0, -1, 8) == Ok(d[..c.pos]) {
      OctetsAsWritten(d, at, s, bytes, content);
      LengthedCanonical(d, at, bytes, 0, -1, 8);
    } else if s <= d && Align(value) == Unpack(bytes) {
      UnpackInjective(content, bytes);
      assert d[..at] == s;
      LengthedCanonical(d, at, bytes, 0, -1, 8);
    }
  }

  /** No more octets than were read can be written as the bits they were read from but those very octets. */
  lemma OctetsAsWritten(d: BitSeq, at: nat, s: BitSeq, bytes: seq<bv8>, content: seq<bv8>)
    requires at <= |d| && |d| % 8 == 0 && |s| == at && |content| <= |bytes|
    requires GetFragments(d, at, 0, -1, 8, NONE).Got? && GetFragments(d, at, 0, -1, 8, NONE).value == Content(bytes, |bytes|)
    requires PutFragments(s, content, 0, |content|, 0, -1, 8) == Ok(d[..GetFragments(d, at, 0, -1, 8, NONE).pos])
    ensures s == d[..at] && content == bytes
  {
    hide GetFragments, PutFragments, FragmentsAgree, Unpack, Extends;
    OctetsOf(|content|);
    PrefixThrough(s, PutFragments(s, content, 0, |content|, 0, -1, 8).value, d);
    if FragmentsAgree(-1, 0, |content|) {
      FragmentsBack(s, content, 0, |content|, 0, -1, 8, d, NONE);
      WholeContent(GetFragments(d, at, 0, -1, 8, NONE).value, content);
    } else {
      FragmentsLost(s, content, 0, |content|, 0, -1, 8, d, NONE);
    }
  }

  // ---------- SEQUENCE OF ----------

  /** The decoder returns as many elements as it was told. */
  lemma {:induction false} ElementsRead(d: BitSeq, pos: nat, elem: Type, p: Params, n: nat, got: seq<Value>)
    requires pos <= |d| && GetElements(d, pos, elem, p, n, got).Got?
    ensures
      var v := GetElements(d, pos, elem, p, n, got).value;
      v.SliceValue? && |v.elems| == |got| + n && got <= v.elems
    decreases n
  {
    hide GetField;
    if n > 0 {
      var r := GetField(d, pos, elem, p);
      ElementsRead(d, r.pos, elem, p, n - 1, got + [r.value]);
    }
  }

  lemma {:induction false} ElementsBackWritten(d: BitSeq, pos: nat, elem: Type, p: Params, n: nat, got: seq<Value>)
    requires pos <= |d| && GetElements(d, pos, elem, p, n, got).Got? && EveryElement(d, pos, elem, p, n, true)
    ensures
      var r := GetElements(d, pos, elem, p, n, got);
      r.value.SliceValue? && |got| <= |r.value.elems|
      && PutElements(d[..pos], elem, p, r.value.elems[|got|..]) == Ok(d[..r.pos])
    decreases n
  {
    hide GetField, PutField, EveryPart;
    ElementsRead(d, pos, elem, p, n, got);
    var elems := GetElements(d, pos, elem, p, n, got).value.elems;
    if n > 0 {
      var r := GetField(d, pos, elem, p);
      PartBack(d, pos, elem, p);
      ElementsRead(d, r.pos, elem, p, n - 1, got + [r.value]);
      ElementsBackWritten(d, r.pos, elem, p, n - 1, got + [r.value]);
      assert elems[|got|] == (got + [r.value])[|got|];
      assert elems[|got|..][1..] == elems[|got + [r.value]|..];
    }
  }

  lemma SliceBody(d: BitSeq, at: nat, elem: Type, p: Params, ext: bool)
    requires at <= |d| && GetBody(d, at, SliceType(elem), p, ext, false).Got?
    ensures
      var count := GetCount(d, at, ext, p.sizeLowerBound, p.sizeUpperBound);
      && count.Got?
      && GetBody(d, at, SliceType(elem), p, ext, false)
         == GetElements(d, count.pos, elem, ElementParams(p), count.value.n, [])
  {
    hide GetElements, GetCount, ElementParams;
  }

  lemma OwnOfSlice(d: BitSeq, pos: nat, elem: Type, p: Params)
    requires pos <= |d| && After(pos, SliceType(elem), p) <= |d|
    ensures
      var ext, at := Extended(d, pos, SliceType(elem), p), After(pos, SliceType(elem), p);
      var r := GetCount(d, at, ext, p.sizeLowerBound, p.sizeUpperBound);
      OwnBitsCanonical(d, pos, SliceType(elem), p)
      <==> r.Got? && r.value.pending.None? && CountInBounds(r.value.n, ext, p.sizeLowerBound, p.sizeUpperBound)
  {
    hide OpenTypeCanonical, GetChoiceIndex, StringCanonicalHere, IntegerIsEncoders, Masked, CountInBounds;
    hide GetEnumerated, GetInteger, GetPresence, GetCount;
  }

  lemma SliceTags(elem: Type, p: Params)
    requires TagsAlike(SliceType(elem), p)
    ensures CountUsable(p.sizeExtensible, p.sizeUpperBound) && TagsAlike(elem, ElementParams(p))
  {
    hide CountUsable;
  }

  /** A SEQUENCE OF whose elements are written as they were read is so itself exactly when its count is the encoder's. */
  lemma SlicePart(d: BitSeq, pos: nat, elem: Type, p: Params, count: Read<Count>)
    requires pos <= |d| && TagsAlike(SliceType(elem), p) && GetField(d, pos, SliceType(elem), p).Got?
    requires After(pos, SliceType(elem), p) <= |d|
    requires count.Got? && count == GetCount(d, After(pos, SliceType(elem), p), Extended(d, pos, SliceType(elem), p), p.sizeLowerBound, p.sizeUpperBound)
    requires count.pos <= |d| && EveryElement(d, count.pos, elem, ElementParams(p), count.value.n, true)
    ensures
      var r := GetField(d, pos, SliceType(elem), p);
      PutField(d[..pos], SliceType(elem), p, r.value) == Ok(d[..r.pos]) <==> OwnBitsCanonical(d, pos, SliceType(elem), p)
  {
    hide GetField, GetBody, PutField, TagsAlike, GetElements, PutElements, EveryElement, GetCount, PutCount, ElementParams, CountInBounds;
    hide CountUsable, OwnBitsCanonical;
    var t := SliceType(elem);
    FieldFlags(d, pos, t, p);
    SliceTags(elem, p);
    OwnOfSlice(d, pos, elem, p);
    var ext, at := Extended(d, pos, t, p), After(pos, t, p);
    SliceBody(d, at, elem, p, ext);
    var n := count.value.n;
    var r := GetElements(d, count.pos, elem, ElementParams(p), n, []);
    ElementsRead(d, count.pos, elem, ElementParams(p), n, []);
    ElementsBackWritten(d, count.pos, elem, ElementParams(p), n, []);
    assert r.value.elems[0..] == r.value.elems;
    PutSlice(d[..pos], elem, p, r.value.elems);
    CountCanonical(d[..pos], d, ext, p.sizeExtensible, p.sizeLowerBound, p.sizeUpperBound);
    if PutField(d[..pos], t, p, r.value) == Ok(d[..r.pos]) {
      var s1 := PutCount(d[..pos], n, p.sizeExtensible, p.sizeLowerBound, p.sizeUpperBound).value;
      PrefixThrough(s1, PutElements(s1, elem, ElementParams(p), r.value.elems).value, d);
      WrittenCount(d[..pos], d, n, ext, p.sizeExtensible, p.sizeLowerBound, p.sizeUpperBound);
    }
  }

  // ---------- what the encoder writes ----------

  /** Parts that come back from where they were written are written as they were read. */
  lemma {:induction false} RestoredParts(d: BitSeq, s: BitSeq, t: Type, p: Params, v: Value)
    requires |d| % 8 == 0 && TagsAlike(t, p) && Restored(d, s, t, p, v)
    ensures |s| <= |d| && EveryPart(d, |s|, t, p, true)
    decreases t, 3, 0
  {
    hide GetField, PutField, TagsAlike, EveryField, EveryElement, EveryAlternative, OwnBitsCanonical, GetPresence, GetCount;
    WrittenHere(d, s, t, p, v);
    FieldFlags(d, |s|, t, p);
    var at := After(|s|, t, p);
    if t.SequenceType? {
      SequenceRestored(d, s, t.fields, p, v);
    } else if t.ChoiceType? {
      if p.openType { OpenTypeRestored(d, s, t.alternatives, p, v); } else { IndexedRestored(d, s, t.alternatives, p, v); }
    } else if t.SliceType? {
      SliceRestored(d, s, t.elem, p, v);
    }
  }

  lemma WrittenHere(d: BitSeq, s: BitSeq, t: Type, p: Params, v: Value)
    requires Restored(d, s, t, p, v)
    ensures |s| <= |d| && s == d[..|s|] && GetField(d, |s|, t, p).Got?
    ensures PutField(d[..|s|], t, p, GetField(d, |s|, t, p).value) == Ok(d[..GetField(d, |s|, t, p).pos])
    ensures PutField(s, t, p, v).Ok? && GetField(d, |s|, t, p) == Got(v, |PutField(s, t, p, v).value|)
  {
    hide PutField, GetField, FieldsRestored, ElementsRestored, CountRestored, OctetsRestored, PutChoiceIndex, OpenTypeOctets;
    var r := PutField(s, t, p, v).value;
    PrefixThrough(s, r, d);
    assert s == d[..|s|] && r == d[..|r|];
  }

  lemma {:induction false} SequenceRestored(d: BitSeq, s: BitSeq, fields: seq<Field>, p: Params, v: Value)
    requires |d| % 8 == 0 && TagsAlike(SequenceType(fields), p) && Restored(d, s, SequenceType(fields), p, v) && |s| <= |d|
    ensures After(|s|, SequenceType(fields), p) <= |d|
    ensures
      var presence := GetPresence(d, After(|s|, SequenceType(fields), p), fields);
      presence.Got? && EveryField(d, presence.pos, fields, presence.value, [], true)
    decreases SequenceType(fields), 2, 0
  {
    hide GetField, PutField, PutFields, GetFields, GetPresence, TagsAlike, FieldsRestored, EveryField, Presence, Extension;
    WrittenHere(d, s, SequenceType(fields), p, v);
    SequenceTags(fields, p);
    SequenceValues(d, s, fields, p, v);
    PutSequence(s, fields, p, v.fields);
    var presence := Presence(fields, v.fields, |fields|);
    var s0 := s + Extension(p.valueExtensible);
    PrefixThrough(s0 + presence, PutFields(s0 + presence, fields, v.fields, 0).value, d);
    ExtensionLength(p.valueExtensible);
    PresenceBack(s0, fields, presence, d);
    FieldsRestoredParts(d, s0 + presence, fields, v.fields, 0);
    assert v.fields[..0] == [];
  }

  lemma ExtensionLength(extensible: bool)
    ensures |Extension(extensible)| == if extensible then 1 else 0
  {}

  /** The value of a SEQUENCE that was written is one, of as many fields. */
  lemma SequenceValues(d: BitSeq, s: BitSeq, fields: seq<Field>, p: Params, v: Value)
    requires |s| <= |d| && Restored(d, s, SequenceType(fields), p, v)
    ensures v.SequenceValue? && |v.fields| == |fields|
    ensures FieldsRestored(d, s + Extension(p.valueExtensible) + Presence(fields, v.fields, |fields|), fields, v.fields, 0)
  {
    PutLeaf(s, SequenceType(fields), p, v);
    hide PutField, GetField, FieldsRestored, Presence, Extension;
  }

  lemma {:induction false} FieldsRestoredParts(d: BitSeq, s: BitSeq, fields: seq<Field>, vs: seq<Option<Value>>, i: nat)
    requires i <= |fields| == |vs| && |d| % 8 == 0 && |s| <= |d| && FieldsRestored(d, s, fields, vs, i)
    requires forall j | 0 <= j < |fields| :: TagsAlike(fields[j].ty, fields[j].params)
    ensures EveryField(d, |s|, fields, Presence(fields, vs, |fields|), vs[..i], true)
    decreases fields, 4, |fields| - i
  {
    hide Restored, EveryPart, Presence, Marked, FieldParams, TagsAlike, PutField, GetField;
    if i < |fields| {
      assert vs[..i + 1] == vs[..i] + [vs[i]];
      if Marked(fields, Presence(fields, vs, |fields|), i) {
        var p, v := FieldParams(fields, vs[..i]).value, vs[i].value;
        FieldTags(fields, vs[..i]);
        WrittenHere(d, s, fields[i].ty, p, v);
        RestoredParts(d, s, fields[i].ty, p, v);
        FieldsRestoredParts(d, PutField(s, fields[i].ty, p, v).value, fields, vs, i + 1);
      } else {
        FieldsRestoredParts(d, s, fields, vs, i + 1);
      }
    }
  }

  lemma ChoiceValues(d: BitSeq, s: BitSeq, alts: seq<Field>, p: Params, v: Value)
    requires Restored(d, s, ChoiceType(alts), p, v)
    ensures v.ChoiceValue? && 1 <= v.present <= |alts|
  {
    PutLeaf(s, ChoiceType(alts), p, v);
    hide PutField, GetField, OctetsRestored, PutChoiceIndex, OpenTypeOctets, Extension;
  }

  lemma {:induction false} IndexedRestored(d: BitSeq, s: BitSeq, alts: seq<Field>, p: Params, v: Value)
    requires |d| % 8 == 0 && !p.openType && TagsAlike(ChoiceType(alts), p) && Restored(d, s, ChoiceType(alts), p, v)
    ensures After(|s|, ChoiceType(alts), p) <= |d|
    ensures EveryAlternative(d, After(|s|, ChoiceType(alts), p), ChoiceType(alts), p, true)
    decreases ChoiceType(alts), 2, 0
  {
    hide GetField, PutField, Restored, TagsAlike, EveryPart, PutChoiceIndex, GetChoiceIndex, OctetsRestored, OpenTypeOctets, Extension;
    ChoiceValues(d, s, alts, p, v);
    ChoiceTags(alts, p, v.present);
    ChoiceRestoredParts(d, s, alts, p, v.present, v.alternative);
    var field, s0 := alts[v.present - 1], s + Extension(p.valueExtensible);
    var s1 := PutChoiceIndex(s0, v.present, p.valueExtensible, p.valueUpperBound).value;
    WrittenHere(d, s1, field.ty, field.params, v.alternative);
    PrefixThrough(s0, s1, d);
    ExtensionLength(p.valueExtensible);
    ChoiceIndexBack(s0, v.present, p.valueExtensible, p.valueUpperBound, d);
    RestoredParts(d, s1, field.ty, field.params, v.alternative);
  }

  lemma {:induction false} OpenTypeRestored(d: BitSeq, s: BitSeq, alts: seq<Field>, p: Params, v: Value)
    requires |d| % 8 == 0 && p.openType && TagsAlike(ChoiceType(alts), p) && Restored(d, s, ChoiceType(alts), p, v)
    ensures After(|s|, ChoiceType(alts), p) <= |d|
    ensures EveryAlternative(d, After(|s|, ChoiceType(alts), p), ChoiceType(alts), p, true)
    decreases ChoiceType(alts), 2, 0
  {
    hide GetField, PutField, Restored, TagsAlike, EveryPart, GetFragments, PutFragments, OctetsRestored, Extension, MatchingAlternative;
    hide FragmentsAgree, Unpack, Pack, Align, Extends;
    ChoiceValues(d, s, alts, p, v);
    ChoiceTags(alts, p, v.present);
    ChoiceRestoredParts(d, s, alts, p, v.present, v.alternative);
    OpenTypeDecided(d, s, alts, p, v.present, v.alternative);
    PutOpenType(s, alts, p, v.present, v.alternative);
    var field, s0 := alts[v.present - 1], s + Extension(p.valueExtensible);
    var content := OpenTypeOctets(field.ty, field.params, v.alternative).value;
    PrefixThrough(s0, PutFragments(s0, content, 0, |content|, 0, -1, 8).value, d);
    ExtensionLength(p.valueExtensible);
    OctetsOf(|content|);
    FragmentsBack(s0, content, 0, |content|, 0, -1, 8, d, NONE);
    WholeContent(GetFragments(d, |s0|, 0, -1, 8, NONE).value, content);
    RestoredParts(Unpack(content), [], field.ty, field.params, v.alternative);
  }

  lemma SliceValues(d: BitSeq, s: BitSeq, elem: Type, p: Params, v: Value)
    requires Restored(d, s, SliceType(elem), p, v)
    ensures v.SliceValue? && CountRestored(d, s, |v.elems|, p)
    ensures ElementsRestored(d, PutCount(s, |v.elems|, p.sizeExtensible, p.sizeLowerBound, p.sizeUpperBound).value,
                             elem, ElementParams(p), v.elems)
  {
    PutLeaf(s, SliceType(elem), p, v);
    hide PutField, GetField, ElementsRestored, PutCount, GetCount, CountForm, ElementParams;
  }

  lemma {:induction false} SliceRestored(d: BitSeq, s: BitSeq, elem: Type, p: Params, v: Value)
    requires |d| % 8 == 0 && TagsAlike(SliceType(elem), p) && Restored(d, s, SliceType(elem), p, v) && |s| <= |d|
    ensures After(|s|, SliceType(elem), p) <= |d|
    ensures
      var count := GetCount(d, After(|s|, SliceType(elem), p), Extended(d, |s|, SliceType(elem), p), p.sizeLowerBound, p.sizeUpperBound);
      count.Got? && EveryElement(d, count.pos, elem, ElementParams(p), count.value.n, true)
    decreases SliceType(elem), 2, 0
  {
    hide GetField, PutField, TagsAlike, Restored, PutCount, GetCount, ElementParams, ElementsRestored, EveryElement;
    SliceTags(elem, p);
    SliceValues(d, s, elem, p, v);
    var n := |v.elems|;
    CountFlag(d, s, n, p);
    ElementsRestoredParts(d, PutCount(s, n, p.sizeExtensible, p.sizeLowerBound, p.sizeUpperBound).value, elem, ElementParams(p), v.elems);
  }

  /** The extension bit of a count that was written is the one read. */
  lemma CountFlag(d: BitSeq, s: BitSeq, n: nat, p: Params)
    requires CountUsable(p.sizeExtensible, p.sizeUpperBound) && CountRestored(d, s, n, p)
    ensures PutCount(s, n, p.sizeExtensible, p.sizeLowerBound, p.sizeUpperBound).Ok?
    ensures
      var ext := p.sizeExtensible && |s| < |d| && d[|s|];
      var at := |s| + if p.sizeExtensible then 1 else 0;
      && at <= |d|
      && GetCount(d, at, ext, p.sizeLowerBound, p.sizeUpperBound)
         == Got(Count(n, None), |PutCount(s, n, p.sizeExtensible, p.sizeLowerBound, p.sizeUpperBound).value|)
  {
    hide GetCount, PutConstrained, Align, FromNat;
    var form := CountForm(n, p.sizeExtensible, p.sizeLowerBound, p.sizeUpperBound).value;
    var r := PutCount(s, n, p.sizeExtensible, p.sizeLowerBound, p.sizeUpperBound).value;
    assert s + form.extension <= r <= d;
    if p.sizeExtensible {
      assert form.extension == [form.extension[0]] && (s + form.extension)[|s|] == d[|s|];
    }
  }

  lemma {:induction false} ElementsRestoredParts(d: BitSeq, s: BitSeq, elem: Type, p: Params, elems: seq<Value>)
    requires |d| % 8 == 0 && TagsAlike(elem, p) && |s| <= |d| && ElementsRestored(d, s, elem, p, elems)
    ensures EveryElement(d, |s|, elem, p, |elems|, true)
    decreases elem, 4, |elems|
  {
    hide Restored, EveryPart, TagsAlike, PutField, GetField;
    if elems != [] {
      WrittenHere(d, s, elem, p, elems[0]);
      RestoredParts(d, s, elem, p, elems[0]);
      ElementsRestoredParts(d, PutField(s, elem, p, elems[0]).value, elem, p, elems[1..]);
    }
  }

  // ---------- main results ----------

  /** Every part of what was read is canonical in its own bits exactly when every part is written as it was read. */
  lemma {:induction false} PartsCanonical(d: BitSeq, pos: nat, t: Type, p: Params)
    requires pos <= |d| && |d| % 8 == 0 && TagsAlike(t, p)
    ensures EveryPart(d, pos, t, p, true) <==> EveryPart(d, pos, t, p, false)
    decreases t, 3, 0
  {
    hide GetField, PutField, TagsAlike, EveryField, EveryElement, EveryAlternative, OwnBitsCanonical;
    if GetField(d, pos, t, p).Got? {
      FieldFlags(d, pos, t, p);
      var at := After(pos, t, p);
      if t.SequenceType? {
        SequencePresence(d, pos, t.fields, p);
        SequenceTags(t.fields, p);
        var presence := GetPresence(d, at, t.fields);
        FieldsCanonical(d, presence.pos, t.fields, presence.value, []);
        if EveryField(d, presence.pos, t.fields, presence.value, [], true) {
          SequencePart(d, pos, t.fields, p, presence.value, presence.pos);
        }
      } else if t.ChoiceType? {
        AlternativeCanonical(d, at, t, p);
        if EveryAlternative(d, at, t, p, true) {
          if p.openType { OpenTypePart(d, pos, t.alternatives, p); } else { IndexedPart(d, pos, t.alternatives, p); }
        }
      } else if t.SliceType? {
        SliceTags(t.elem, p);
        SliceBody(d, at, t.elem, p, Extended(d, pos, t, p));
        var count := GetCount(d, at, Extended(d, pos, t, p), p.sizeLowerBound, p.sizeUpperBound);
        ElementsCanonical(d, count.pos, t.elem, ElementParams(p), count.value.n);
        if EveryElement(d, count.pos, t.elem, ElementParams(p), count.value.n, true) {
          SlicePart(d, pos, t.elem, p, count);
        }
      } else {
        LeafPart(d, pos, t, p);
      }
    }
  }

  lemma SequencePresence(d: BitSeq, pos: nat, fields: seq<Field>, p: Params)
    requires pos <= |d| && TagsAlike(SequenceType(fields), p) && GetField(d, pos, SequenceType(fields), p).Got?
    ensures After(pos, SequenceType(fields), p) <= |d| && GetPresence(d, After(pos, SequenceType(fields), p), fields).Got?
  {
    FieldFlags(d, pos, SequenceType(fields), p);
    hide GetField, GetFields, GetPresence, TagsAlike;
  }

  lemma SequenceTags(fields: seq<Field>, p: Params)
    requires TagsAlike(SequenceType(fields), p)
    ensures forall i | 0 <= i < |fields| :: TagsAlike(fields[i].ty, fields[i].params)
  {}

  lemma {:induction false} FieldsCanonical(d: BitSeq, pos: nat, fields: seq<Field>, presence: BitSeq, got: seq<Option<Value>>)
    requires pos <= |d| && |d| % 8 == 0 && |presence| == OptionalCount(fields) && |got| <= |fields|
    requires forall i | 0 <= i < |fields| :: TagsAlike(fields[i].ty, fields[i].params)
    ensures EveryField(d, pos, fields, presence, got, true) <==> EveryField(d, pos, fields, presence, got, false)
    decreases fields, 4, |fields| - |got|
  {
    hide GetField, TagsAlike, EveryPart, Marked, FieldParams;
    if |got| < |fields| {
      if !Marked(fields, presence, |got|) {
        FieldsCanonical(d, pos, fields, presence, got + [None]);
      } else if FieldParams(fields, got).Ok? {
        var q := FieldParams(fields, got).value;
        FieldTags(fields, got);
        PartsCanonical(d, pos, fields[|got|].ty, q);
        var r := GetField(d, pos, fields[|got|].ty, q);
        if r.Got? { FieldsCanonical(d, r.pos, fields, presence, got + [Some(r.value)]); }
      }
    }
  }

  lemma {:induction false} ElementsCanonical(d: BitSeq, pos: nat, elem: Type, p: Params, n: nat)
    requires pos <= |d| && |d| % 8 == 0 && TagsAlike(elem, p)
    ensures EveryElement(d, pos, elem, p, n, true) <==> EveryElement(d, pos, elem, p, n, false)
    decreases elem, 4, n
  {
    hide GetField, TagsAlike, EveryPart;
    if n > 0 {
      PartsCanonical(d, pos, elem, p);
      var r := GetField(d, pos, elem, p);
      if r.Got? { ElementsCanonical(d, r.pos, elem, p, n - 1); }
    }
  }

  lemma {:induction false} AlternativeCanonical(d: BitSeq, at: nat, t: Type, p: Params)
    requires at <= |d| && |d| % 8 == 0 && t.ChoiceType? && TagsAlike(t, p)
    ensures EveryAlternative(d, at, t, p, true) <==> EveryAlternative(d, at, t, p, false)
    decreases t, 1, 0
  {
    hide TagsAlike, EveryPart, MatchingAlternative, GetFragments, GetChoiceIndex, Unpack;
    if p.openType {
      if p.referenceFieldValue.Some? {
        var present := MatchingAlternative(t.alternatives, p.referenceFieldValue.value, 0);
        var c := GetFragments(d, at, 0, -1, 8, NONE);
        if present >= 1 && c.Got? {
          AlternativeTags(t, p, present);
          PartsCanonical(Unpack(c.value.bytes), 0, t.alternatives[present - 1].ty, t.alternatives[present - 1].params);
        }
      }
    } else {
      var index := GetChoiceIndex(d, at, false, p.valueUpperBound);
      if index.Got? && index.value <= |t.alternatives| {
        AlternativeTags(t, p, index.value);
        PartsCanonical(d, index.pos, t.alternatives[index.value - 1].ty, t.alternatives[index.value - 1].params);
      }
    }
  }

  lemma AlternativeTags(t: Type, p: Params, present: nat)
    requires t.ChoiceType? && TagsAlike(t, p) && 1 <= present <= |t.alternatives|
    ensures TagsAlike(t.alternatives[present - 1].ty, t.alternatives[present - 1].params)
  {
    hide OptionalCount;
  }

  /** Of the inputs the decoder accepts, those canonical in every part are written back bit for bit. */
  lemma ReadAndBack(d: BitSeq, pos: nat, t: Type, p: Params)
    requires pos <= |d| && |d| % 8 == 0 && TagsAlike(t, p) && EveryPart(d, pos, t, p, false)
    ensures GetField(d, pos, t, p).Got?
    ensures PutField(d[..pos], t, p, GetField(d, pos, t, p).value) == Ok(d[..GetField(d, pos, t, p).pos])
  {
    hide GetField, PutField, TagsAlike, EveryPart;
    PartsCanonical(d, pos, t, p);
    PartBack(d, pos, t, p);
  }

  /** What the encoder writes for a value the two sides agree on where it stands is canonical in every part. */
  lemma WrittenIsCanonical(s: BitSeq, t: Type, p: Params, v: Value, d: BitSeq)
    requires |d| % 8 == 0 && TagsAlike(t, p) && AgreesAt(s, t, p, v) && LastStart(s, t, p, v) < |d|
    requires PutField(s, t, p, v).Ok? && PutField(s, t, p, v).value <= d
    ensures |s| <= |d| && EveryPart(d, |s|, t, p, false)
  {
    hide GetField, PutField, TagsAlike, AgreesAt, LastStart, Restored, EveryPart;
    ExactRoundTrip(s, t, p, v, d);
    RestoredParts(d, s, t, p, v);
    PartsCanonical(d, |s|, t, p);
  }

  /** Marshal undoes Unmarshal on a message canonical in every part exactly when nothing but zeros up to the next octet
      follows the value. */
  lemma MessageReadAndBack(bytes: seq<bv8>, t: Type, p: Params)
    requires TagsAlike(t, p) && EveryPart(Unpack(bytes), 0, t, p, false)
    ensures Unmarshalled(bytes, t, p).Ok?
    ensures
      var end := GetField(Unpack(bytes), 0, t, p).pos;
      Marshalled(t, p, Unmarshalled(bytes, t, p).value) == Ok(bytes)
      <==> if end == 0 then bytes == [0] else Align(Unpack(bytes)[..end]) == Unpack(bytes)
  {
    hide GetField, PutField, TagsAlike, EveryPart, Align, Pack, Unpack;
    var d := Unpack(bytes);
    ReadAndBack(d, 0, t, p);
    assert d[..0] == [];
    var s := d[..GetField(d, 0, t, p).pos];
    if s != [] {
      UnpackPack(Align(s));
      if Align(s) == d { UnpackInjective(Pack(Align(s)), bytes); }
    }
  }
  /** Of all the inputs that decode to a value the encoder can give back, one is what the encoder writes: where
      its bits are there at all, they are exactly those that were read. */
  lemma OneEncoding(d: BitSeq, pos: nat, t: Type, p: Params, v: Value)
    requires pos <= |d| && |d| % 8 == 0 && GetField(d, pos, t, p).Got? && GetField(d, pos, t, p).value == v
    requires PutField(d[..pos], t, p, v).Ok? && AgreesAt(d[..pos], t, p, v)
    ensures PutField(d[..pos], t, p, v) == Ok(d[..GetField(d, pos, t, p).pos]) <==> PutField(d[..pos], t, p, v).value <= d
  {
    hide PutField, GetField, AgreesAt, LastStart;
    var r := PutField(d[..pos], t, p, v).value;
    if r <= d {
      FieldBack(d[..pos], t, p, v, d);
      assert r == d[..|r|];
    }
  }
}
