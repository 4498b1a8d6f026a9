/** The bits of the types made of others: which tag each part is written under, in which order, and what comes before
    it. */
module TypeLayouts {
  import opened Bits
  import opened Common
  import opened BitCopy
  import opened Encoding
  import opened Decoding
  import opened Layouts
  import opened ValueLayouts

  // ---------- SEQUENCE OF ----------

  /** The tag of a list, member by member, without its three size members. */
  function Unsized(p: Params): Params {
    Params(p.optional, false, p.valueExtensible, None, None, p.valueLowerBound, p.valueUpperBound, p.openType,
           p.referenceFieldName, p.referenceFieldValue)
  }

  /** The elements of a list, each from where the one before it ends. */
  predicate ElementsAt(cuts: seq<BitSeq>, elem: Type, p: Params, elems: seq<Value>) {
    && |cuts| == |elems| + 1
    && forall i | 0 <= i < |elems| :: PutField(cuts[i], elem, Unsized(p), elems[i]) == Ok(cuts[i + 1])
  }

  /** A SEQUENCE OF is its count and then each element in order under the list's own tag without the size members. */
  lemma SliceLayout(s: BitSeq, elem: Type, p: Params, elems: seq<Value>, r: BitSeq)
    ensures PutField(s, SliceType(elem), p, SliceValue(elems)) == Ok(r)
       <==> exists cuts | |cuts| == |elems| + 1 && ElementsAt(cuts, elem, p, elems) ::
              && PutCount(s, |elems|, p.sizeExtensible, p.sizeLowerBound, p.sizeUpperBound) == Ok(cuts[0])
              && cuts[|elems|] == r
  {
    PutSlice(s, elem, p, elems);
    hide PutField, PutCount, PutElements, ElementsAt;
    var count := PutCount(s, |elems|, p.sizeExtensible, p.sizeLowerBound, p.sizeUpperBound);
    assert ElementParams(p) == Unsized(p);
    if PutField(s, SliceType(elem), p, SliceValue(elems)) == Ok(r) {
      var cuts := ElementsCut(count.value, elem, p, elems, r);
    }
    forall cuts | |cuts| == |elems| + 1 && ElementsAt(cuts, elem, p, elems) && count == Ok(cuts[0]) && cuts[|elems|] == r
      ensures PutField(s, SliceType(elem), p, SliceValue(elems)) == Ok(r) {
      ElementsJoined(cuts, elem, p, elems);
    }
  }

  lemma {:induction false} ElementsCut(s: BitSeq, elem: Type, p: Params, elems: seq<Value>, r: BitSeq) returns (cuts: seq<BitSeq>)
    requires PutElements(s, elem, Unsized(p), elems) == Ok(r)
    ensures ElementsAt(cuts, elem, p, elems) && |cuts| == |elems| + 1 && cuts[0] == s && cuts[|elems|] == r
    decreases |elems|
  {
    hide PutField;
    if elems == [] {
      cuts := [s];
    } else {
      var s1 := PutField(s, elem, Unsized(p), elems[0]).value;
      var rest := ElementsCut(s1, elem, p, elems[1..], r);
      cuts := [s] + rest;
      forall i | 0 <= i < |elems| ensures PutField(cuts[i], elem, Unsized(p), elems[i]) == Ok(cuts[i + 1]) {
        if i > 0 { assert elems[i] == elems[1..][i - 1] && cuts[i] == rest[i - 1]; }
      }
    }
  }

  lemma {:induction false} ElementsJoined(cuts: seq<BitSeq>, elem: Type, p: Params, elems: seq<Value>)
    requires ElementsAt(cuts, elem, p, elems)
    ensures PutElements(cuts[0], elem, Unsized(p), elems) == Ok(cuts[|elems|])
  {
    hide PutField;
    if elems != [] {
      assert PutField(cuts[0], elem, Unsized(p), elems[0]) == Ok(cuts[1]);
      forall i | 0 <= i < |elems| - 1 ensures PutField(cuts[1..][i], elem, Unsized(p), elems[1..][i]) == Ok(cuts[1..][i + 1]) {
        assert elems[1..][i] == elems[i + 1] && cuts[1..][i] == cuts[i + 1];
      }
      ElementsJoined(cuts[1..], elem, p, elems[1..]);
    }
  }

  /** The elements of a list as the decoder reads them, each from where the one before it ends. */
  predicate ElementsReadAt(ats: seq<nat>, d: BitSeq, elem: Type, p: Params, elems: seq<Value>) {
    && |ats| == |elems| + 1
    && ats[0] <= |d|
    && forall i | 0 <= i < |elems| :: ats[i] <= |d| && GetField(d, ats[i], elem, Unsized(p)) == Got(elems[i], ats[i + 1])
  }

  /** A SEQUENCE OF is read as its count and then as many elements, under the same tag. */
  lemma SliceReadLayout(d: BitSeq, pos: nat, elem: Type, p: Params, sizeExt: bool, elems: seq<Value>, end: nat)
    requires pos <= |d|
    ensures GetBody(d, pos, SliceType(elem), p, sizeExt, false) == Got(SliceValue(elems), end)
       <==> exists ats | |ats| == |elems| + 1 && ElementsReadAt(ats, d, elem, p, elems) ::
              && var count := GetCount(d, pos, sizeExt, p.sizeLowerBound, p.sizeUpperBound);
              && count.Got? && count.pos == ats[0] && count.value.n == |elems| && (elems == [] ==> count.value.pending.None?)
              && ats[|elems|] == end
  {
    hide GetField, GetCount, GetElements, ElementsReadAt;
    var count := GetCount(d, pos, sizeExt, p.sizeLowerBound, p.sizeUpperBound);
    assert ElementParams(p) == Unsized(p);
    if GetBody(d, pos, SliceType(elem), p, sizeExt, false) == Got(SliceValue(elems), end) {
      var ats := ElementsRead(d, count.pos, elem, p, count.value.n, [], elems, end);
      assert elems[0..] == elems;
    }
    forall ats | |ats| == |elems| + 1 && ElementsReadAt(ats, d, elem, p, elems) && count.Got? && count.pos == ats[0]
                 && count.value.n == |elems| && (elems == [] ==> count.value.pending.None?) && ats[|elems|] == end
      ensures GetBody(d, pos, SliceType(elem), p, sizeExt, false) == Got(SliceValue(elems), end) {
      ElementsAllRead(ats, d, elem, p, [], elems);
      assert [] + elems == elems;
    }
  }

  lemma {:induction false} ElementsRead(d: BitSeq, pos: nat, elem: Type, p: Params, n: nat, got: seq<Value>, elems: seq<Value>,
      end: nat) returns (ats: seq<nat>)
    requires pos <= |d| && GetElements(d, pos, elem, Unsized(p), n, got) == Got(SliceValue(elems), end)
    ensures |elems| == |got| + n && elems[..|got|] == got
    ensures ElementsReadAt(ats, d, elem, p, elems[|got|..]) && |ats| == n + 1 && ats[0] == pos && ats[n] == end
    decreases n
  {
    hide GetField;
    if n == 0 {
      ats := [pos];
    } else {
      var r := GetField(d, pos, elem, Unsized(p));
      var rest := ElementsRead(d, r.pos, elem, p, n - 1, got + [r.value], elems, end);
      ats := [pos] + rest;
      var mine, others := elems[|got|..], elems[|got| + 1..];
      assert elems[..|got| + 1] == got + [r.value];
      assert elems[..|got|] == elems[..|got| + 1][..|got|] && elems[|got|] == elems[..|got| + 1][|got|];
      forall i | 0 <= i < n ensures ats[i] <= |d| && GetField(d, ats[i], elem, Unsized(p)) == Got(mine[i], ats[i + 1]) {
        if i > 0 { assert mine[i] == others[i - 1] && ats[i] == rest[i - 1]; }
      }
    }
  }

  lemma {:induction false} ElementsAllRead(ats: seq<nat>, d: BitSeq, elem: Type, p: Params, got: seq<Value>, elems: seq<Value>)
    requires ElementsReadAt(ats, d, elem, p, elems)
    ensures GetElements(d, ats[0], elem, Unsized(p), |elems|, got) == Got(SliceValue(got + elems), ats[|elems|])
    decreases |elems|
  {
    hide GetField;
    if elems == [] {
      assert got + elems == got;
    } else {
      assert GetField(d, ats[0], elem, Unsized(p)) == Got(elems[0], ats[1]);
      forall i | 0 <= i < |elems| - 1
        ensures ats[1..][i] <= |d| && GetField(d, ats[1..][i], elem, Unsized(p)) == Got(elems[1..][i], ats[1..][i + 1]) {
        assert elems[1..][i] == elems[i + 1] && ats[1..][i] == ats[i + 1];
      }
      ElementsAllRead(ats[1..], d, elem, p, got + [elems[0]], elems[1..]);
      assert got + [elems[0]] + elems[1..] == got + elems;
    }
  }

  // ---------- SEQUENCE ----------

  /** The presence bits, clause 19.2: one for each OPTIONAL field in order, set when the field is there. */
  function PresenceBits(fields: seq<Field>, vs: seq<Option<Value>>): BitSeq
    requires |fields| == |vs|
  {
    if fields == [] then []
    else (if fields[0].params.optional then [vs[0].Some?] else []) + PresenceBits(fields[1..], vs[1..])
  }

  /** One field from one place to another: an absent OPTIONAL one takes no bits. */
  predicate FieldAt(from: BitSeq, fields: seq<Field>, vs: seq<Option<Value>>, i: nat, to: BitSeq)
    requires i < |fields| == |vs|
  {
    if fields[i].params.optional && vs[i].None? then to == from
    else
      && vs[i].Some? && FieldParams(fields, vs[..i]).Ok?
      && PutField(from, fields[i].ty, FieldParams(fields, vs[..i]).value, vs[i].value) == Ok(to)
  }

  /** The fields from `i` on, each from where the one before it ends. */
  predicate FieldsAt(cuts: seq<BitSeq>, fields: seq<Field>, vs: seq<Option<Value>>, i: nat)
    requires |cuts| == |fields| + 1 == |vs| + 1
  {
    forall j | i <= j < |fields| :: FieldAt(cuts[j], fields, vs, j, cuts[j + 1])
  }

  /** A SEQUENCE is its extension bit, which is never set, its presence bits, and then its fields in order. */
  lemma SequenceLayout(s: BitSeq, fields: seq<Field>, p: Params, vs: seq<Option<Value>>, r: BitSeq)
    requires |vs| == |fields| && OptionalCount(fields) <= 64
    ensures PutField(s, SequenceType(fields), p, SequenceValue(vs)) == Ok(r)
       <==> exists cuts | |cuts| == |fields| + 1 && FieldsAt(cuts, fields, vs, 0) ::
              && cuts[0] == s + (if p.valueExtensible then [false] else []) + PresenceBits(fields, vs)
              && cuts[|fields|] == r
  {
    PutSequence(s, fields, p, vs);
    PresenceIs(fields, vs, |fields|);
    assert fields[..|fields|] == fields && vs[..|fields|] == vs;
    hide PutField, PutFields, Presence, PresenceBits, FieldsAt;
    var s0 := s + (if p.valueExtensible then [false] else []) + PresenceBits(fields, vs);
    if PutField(s, SequenceType(fields), p, SequenceValue(vs)) == Ok(r) {
      var cuts := FieldsCut(s0, fields, vs, 0, r);
    }
    forall cuts | |cuts| == |fields| + 1 && FieldsAt(cuts, fields, vs, 0) && cuts[0] == s0 && cuts[|fields|] == r
      ensures PutField(s, SequenceType(fields), p, SequenceValue(vs)) == Ok(r) {
      FieldsJoined(cuts, fields, vs, 0);
    }
  }

  lemma {:induction false} PresenceIs(fields: seq<Field>, vs: seq<Option<Value>>, i: nat)
    requires i <= |fields| == |vs| && OptionalCount(fields) <= 64
    ensures Presence(fields, vs, i) == PresenceBits(fields[..i], vs[..i])
  {
    if i > 0 {
      PresenceIs(fields, vs, i - 1);
      OptionalMonotone(fields, i - 1, |fields|);
      PresenceSnoc(fields[..i - 1], vs[..i - 1], fields[i - 1], vs[i - 1]);
      assert fields[..i] == fields[..i - 1] + [fields[i - 1]] && vs[..i] == vs[..i - 1] + [vs[i - 1]];
    }
  }

  lemma {:induction false} PresenceSnoc(fields: seq<Field>, vs: seq<Option<Value>>, f: Field, v: Option<Value>)
    requires |fields| == |vs|
    ensures PresenceBits(fields + [f], vs + [v]) == PresenceBits(fields, vs) + if f.params.optional then [v.Some?] else []
  {
    if fields == [] {
      assert fields + [f] == [f] && vs + [v] == [v];
      assert PresenceBits([f][1..], [v][1..]) == [];
    } else {
      PresenceSnoc(fields[1..], vs[1..], f, v);
      assert (fields + [f])[1..] == fields[1..] + [f] && (vs + [v])[1..] == vs[1..] + [v];
    }
  }

  lemma MarkedIs(fields: seq<Field>, vs: seq<Option<Value>>, i: nat)
    requires i < |fields| == |vs| && OptionalCount(fields) <= 64
    ensures Marked(fields, Presence(fields, vs, |fields|), i) <==> !fields[i].params.optional || vs[i].Some?
  {
    OptionalMonotone(fields, i, |fields|);
    if fields[i].params.optional { PresenceFlag(fields, vs, i, |fields|); }
  }

  lemma {:induction false} PresenceFlag(fields: seq<Field>, vs: seq<Option<Value>>, i: nat, n: nat)
    requires i < n <= |fields| == |vs| && OptionalCount(fields) <= 64 && fields[i].params.optional
    ensures OptionalBefore(fields, i) < OptionalBefore(fields, n)
    ensures Presence(fields, vs, n)[OptionalBefore(fields, i)] == vs[i].Some?
  {
    OptionalMonotone(fields, i, n);
    if i < n - 1 { PresenceFlag(fields, vs, i, n - 1); }
  }

  lemma FieldStep(s: BitSeq, fields: seq<Field>, vs: seq<Option<Value>>, i: nat, next: BitSeq)
    requires i < |fields| == |vs| && OptionalCount(fields) <= 64
    ensures FieldAt(s, fields, vs, i, next) ==> PutFields(s, fields, vs, i) == PutFields(next, fields, vs, i + 1)
    ensures PutFields(s, fields, vs, i).Ok? ==> exists to :: FieldAt(s, fields, vs, i, to)
  {
    PutNext(s, fields, vs, i);
    MarkedIs(fields, vs, i);
    hide Marked, Presence, FieldParams, PutField, PutFields, OptionalCount;
    if PutFields(s, fields, vs, i).Ok? {
      var to := if fields[i].params.optional && vs[i].None? then s
                else PutField(s, fields[i].ty, FieldParams(fields, vs[..i]).value, vs[i].value).value;
      assert FieldAt(s, fields, vs, i, to);
    }
  }

  lemma {:induction false} FieldsCut(s: BitSeq, fields: seq<Field>, vs: seq<Option<Value>>, i: nat, r: BitSeq) returns (cuts: seq<BitSeq>)
    requires i <= |fields| == |vs| && OptionalCount(fields) <= 64 && PutFields(s, fields, vs, i) == Ok(r)
    ensures |cuts| == |fields| + 1 && cuts[i] == s && cuts[|fields|] == r && FieldsAt(cuts, fields, vs, i)
    decreases |fields| - i
  {
    hide PutFields, FieldAt, OptionalCount;
    if i == |fields| {
      PutNone(s, fields, vs);
      cuts := seq(|fields| + 1, j => s);
    } else {
      FieldStep(s, fields, vs, i, s);
      var next :| FieldAt(s, fields, vs, i, next);
      FieldStep(s, fields, vs, i, next);
      var rest := FieldsCut(next, fields, vs, i + 1, r);
      cuts := rest[i := s];
    }
  }

  lemma {:induction false} FieldsJoined(cuts: seq<BitSeq>, fields: seq<Field>, vs: seq<Option<Value>>, i: nat)
    requires i <= |fields| == |vs| == |cuts| - 1 && OptionalCount(fields) <= 64 && FieldsAt(cuts, fields, vs, i)
    ensures PutFields(cuts[i], fields, vs, i) == Ok(cuts[|fields|])
    decreases |fields| - i
  {
    hide PutFields, FieldAt, OptionalCount;
    if i == |fields| {
      PutNone(cuts[i], fields, vs);
    } else {
      FieldStep(cuts[i], fields, vs, i, cuts[i + 1]);
      FieldsJoined(cuts, fields, vs, i + 1);
    }
  }

  // ---------- CHOICE, open types and whole messages ----------

  /** A CHOICE is its extension bit, which is never set, the index of the alternative from zero, and the alternative
      under its own tag. */
  lemma ChoiceLayout(s: BitSeq, alts: seq<Field>, p: Params, present: Int64, alt: Value)
    requires !p.openType && 1 <= present <= |alts|
    ensures PutField(s, ChoiceType(alts), p, ChoiceValue(present, alt))
         == var s1 := PutChoiceIndex(if p.valueExtensible then s + [false] else s, present, p.valueExtensible, p.valueUpperBound);
            if s1.Err? then s1 else PutField(s1.value, alts[present - 1].ty, alts[present - 1].params, alt)
  {
    hide PutChoiceIndex, PutFields, PutElements, PutFragments;
    assert s + [] == s;
  }

  /** An alternative past the last one, and none at all. */
  lemma NoAlternative(s: BitSeq, alts: seq<Field>, p: Params, present: Int64, alt: Value)
    ensures PutField(s, ChoiceType(alts), p, ChoiceValue(0, alt)) == Err(PresentZero)
    ensures present > |alts| ==> PutField(s, ChoiceType(alts), p, ChoiceValue(present, alt)) == Err(PresentTooBig)
  {
    hide PutChoiceIndex, PutFields, PutElements, PutFragments;
  }

  /** An open type is written in octets of its own, filled up with zeros, after the length of clause 10.2; the
      alternative has to carry the value of the field referred to. */
  lemma OpenTypeLayout(s: BitSeq, alts: seq<Field>, p: Params, present: Int64, alt: Value, inner: BitSeq, k: nat, octets: seq<bv8>)
    requires p.openType && 1 <= present <= |alts| && p.referenceFieldValue.Some?
    requires PutField([], alts[present - 1].ty, alts[present - 1].params, alt) == Ok(inner)
    requires k < 8 && Unpack(octets) == inner + seq(k, i => false)
    ensures alts[present - 1].params.referenceFieldValue == p.referenceFieldValue ==>
              PutField(s, ChoiceType(alts), p, ChoiceValue(present, alt))
              == PutFragments(if p.valueExtensible then s + [false] else s, octets, 0, |octets|, 0, -1, 8)
    ensures alts[present - 1].params.referenceFieldValue != p.referenceFieldValue ==>
              PutField(s, ChoiceType(alts), p, ChoiceValue(present, alt)) == Err(ReferenceMismatch)
  {
    hide PutChoiceIndex, PutFields, PutElements, PutFragments, Pack, Align, Unpack, Presence, Unsized, ElementParams;
    hide Encoding.PutBitString, PutOctetString, PutEnumerated, PutInteger, PutCount;
    OctetsAre(inner, k, octets);
    assert s + Extension(p.valueExtensible) == if p.valueExtensible then s + [false] else s;
  }

  lemma OctetsAre(inner: BitSeq, k: nat, octets: seq<bv8>)
    requires k < 8 && Unpack(octets) == inner + seq(k, i => false)
    ensures Pack(Align(inner)) == octets
  {
    AlignLayout(inner, k);
    PackUnpack(octets);
  }

  /** A message is the bits of its value, filled up with zeros to whole octets, and one zero octet when it has none. */
  lemma MessageLayout(t: Type, p: Params, v: Value, bits: BitSeq, k: nat, octets: seq<bv8>)
    requires PutField([], t, p, v) == Ok(bits) && k < 8 && Unpack(octets) == bits + seq(k, i => false)
    ensures Marshalled(t, p, v) == Ok(if bits == [] then [0] else octets)
  {
    OctetsAre(bits, k, octets);
    hide PutField, Pack, Align, Unpack;
  }

  // ---------- examples ----------

  function Flag(name: string, optional: bool): Field {
    Field(name, false, BoolType, UNTAGGED.(optional := optional))
  }

  /** An extensible sequence of flags, from cut to cut. */
  lemma FlagsWritten(s: BitSeq, fields: seq<Field>, p: Params, vs: seq<Option<Value>>, cuts: seq<BitSeq>)
    requires |fields| == |vs| == |cuts| - 1 && OptionalCount(fields) <= 64 && p.valueExtensible
    requires cuts[0] == s + [false] + PresenceBits(fields, vs)
    requires forall i | 0 <= i < |fields| ::
               && fields[i].ty == BoolType && !fields[i].params.openType
               && if fields[i].params.optional && vs[i].None? then cuts[i + 1] == cuts[i]
                  else vs[i].Some? && vs[i].value.BoolValue? && cuts[i + 1] == cuts[i] + [vs[i].value.b]
    ensures PutField(s, SequenceType(fields), p, SequenceValue(vs)) == Ok(cuts[|fields|])
  {
    hide PutField;
    forall i | 0 <= i < |fields| ensures FieldAt(cuts[i], fields, vs, i, cuts[i + 1]) {
      if vs[i].Some? { PutLeaf(cuts[i], BoolType, fields[i].params, vs[i].value); }
    }
    SequenceLayout(s, fields, p, vs, cuts[|fields|]);
  }

  /** A list of one extensible item: one count bit for 1..2, the item's extension bit, and its flag. */
  lemma ListExample()
    ensures PutField([], SliceType(SequenceType([Flag("b", false)])),
                     UNTAGGED.(valueExtensible := true, sizeLowerBound := Some(1), sizeUpperBound := Some(2)),
                     SliceValue([SequenceValue([Some(BoolValue(true))])])) == Ok([false, false, true])
  {
    hide PutField;
    var p := UNTAGGED.(valueExtensible := true, sizeLowerBound := Some(1), sizeUpperBound := Some(2));
    OneItem(Unsized(p));
    OneCounted();
    hide PutCount, Unsized;
    var elem, v := SequenceType([Flag("b", false)]), SequenceValue([Some(BoolValue(true))]);
    assert ElementsAt([[false], [false, false, true]], elem, p, [v]);
    SliceLayout([], elem, p, [v], [false, false, true]);
  }

  lemma OneCounted()
    ensures PutCount([], 1, false, Some(1), Some(2)) == Ok([false])
  {
    hide PutCount;
    CountLayout([], 1, false, 1, 2);
    ConstrainedLayout([], 2, 0, 1);
    assert FromNat(0, 1) == [false];
  }

  lemma OneItem(p: Params)
    requires p.valueExtensible
    ensures PutField([false], SequenceType([Flag("b", false)]), p, SequenceValue([Some(BoolValue(true))])) == Ok([false, false, true])
  {
    hide PutField;
    FlagsWritten([false], [Flag("b", false)], p, [Some(BoolValue(true))], [[false, false], [false, false, true]]);
  }

  /** An extensible sequence: its extension bit, the bits for "a" and "c", and the flags of "a" and "b". */
  lemma SequenceExample(a: bool, b: bool)
    ensures PutField([], SequenceType([Flag("a", true), Flag("b", false), Flag("c", true)]), UNTAGGED.(valueExtensible := true),
                     SequenceValue([Some(BoolValue(a)), Some(BoolValue(b)), None])) == Ok([false, true, false, a, b])
  {
    hide PutField, OptionalBefore;
    var fields, vs := [Flag("a", true), Flag("b", false), Flag("c", true)], [Some(BoolValue(a)), Some(BoolValue(b)), None];
    assert OptionalCount(fields) <= 64;
    assert PresenceBits([fields[2]], [vs[2]]) == [false] by { assert PresenceBits([fields[2]][1..], [vs[2]][1..]) == []; }
    assert fields[1..][1..] == [fields[2]] && vs[1..][1..] == [vs[2]];
    assert PresenceBits(fields[1..], vs[1..]) == [false];
    assert [] + [false] + PresenceBits(fields, vs) == [false, true, false];
    var s0 := [false, true, false];
    FlagsWritten([], fields, UNTAGGED.(valueExtensible := true), vs, [s0, s0 + [a], s0 + [a] + [b], s0 + [a] + [b]]);
    assert s0 + [a] + [b] == [false, true, false, a, b];
  }

  /** The third of four alternatives of an extensible choice: the extension bit, two index bits, the flag. */
  lemma ChoiceExample(b: bool)
    ensures PutField([], ChoiceType([Flag("p", false), Flag("q", false), Flag("r", false), Flag("s", false)]),
                     UNTAGGED.(valueExtensible := true, valueUpperBound := Some(3)), ChoiceValue(3, BoolValue(b)))
         == Ok([false, true, false, b])
  {
    hide PutField, PutChoiceIndex;
    var alts := [Flag("p", false), Flag("q", false), Flag("r", false), Flag("s", false)];
    ChoiceLayout([], alts, UNTAGGED.(valueExtensible := true, valueUpperBound := Some(3)), 3, BoolValue(b));
    ThirdIndex();
    PutLeaf([false, true, false], BoolType, alts[2].params, BoolValue(b));
    assert [false, true, false] + [b] == [false, true, false, b];
  }

  lemma ThirdIndex()
    ensures PutChoiceIndex([] + [false], 3, true, Some(3)) == Ok([false, true, false])
  {
    hide PutChoiceIndex;
    assert [] + [false] == [false];
    ChoiceIndexLayout([false], 3, true, 3);
    ConstrainedLayout([false], 4, 2, 2);
    assert FromNat(2, 2) == [true, false] by { assert FromNat(1, 1) == [true]; }
    assert [false] + [true, false] == [false, true, false];
  }
}
