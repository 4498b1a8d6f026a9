/** The NGAP envelope of lib/ngap: three kinds of message, each a procedure code, a criticality and an open type. */
module Ngap {
  import opened Bits
  import opened Common
  import opened BitCopy
  import opened Encoding
  import opened Decoding
  import opened RoundTrip
  import opened IntegerRoundTrip
  import opened WholeValue
  import Marshal
  import WritableValues
  import Aper

  // ---------- the types of lib/ngap/ngapType ----------

  const CODE_RANGE := PLAIN.(valueLowerBound := Some(0), valueUpperBound := Some(255))
  const CRITICALITY_RANGE := PLAIN.(valueLowerBound := Some(0), valueUpperBound := Some(2))
  const BY_CODE := PLAIN.(openType := true, referenceFieldName := "ProcedureCode")

  const PROCEDURE_CODE := SequenceType([Field("Value", false, IntType, CODE_RANGE)])
  const CRITICALITY := SequenceType([Field("Value", false, EnumeratedType, CRITICALITY_RANGE)])

  function MessageFields(bodies: seq<Field>): (r: seq<Field>)
    ensures |r| == 3
  {
    [Field("ProcedureCode", false, PROCEDURE_CODE, PLAIN), Field("Criticality", false, CRITICALITY, PLAIN),
     Field("Value", false, ChoiceType(bodies), BY_CODE)]
  }

  /** The bodies of the three kinds of message, each body tagged with its procedure code. */
  datatype Tables = Tables(initiating: seq<Field>, successful: seq<Field>, unsuccessful: seq<Field>) {
    function Of(kind: nat): seq<Field>
      requires 1 <= kind <= 3
    {
      if kind == 1 then initiating else if kind == 2 then successful else unsuccessful
    }

    function Kinds(): (r: seq<Field>)
      ensures |r| == 3
    {
      [Field("InitiatingMessage", true, SequenceType(MessageFields(initiating)), PLAIN),
       Field("SuccessfulOutcome", true, SequenceType(MessageFields(successful)), PLAIN),
       Field("UnsuccessfulOutcome", true, SequenceType(MessageFields(unsuccessful)), PLAIN)]
    }
  }

  /** The parameter string both wrappers pass: "valueExt,valueLB:0,valueUB:2". */
  const PDU := PLAIN.(valueExtensible := true, valueLowerBound := Some(0), valueUpperBound := Some(2))

  datatype Message = Message(kind: nat, code: nat, criticality: nat, present: nat, body: Value) {
    function Fields(): (r: seq<Option<Value>>)
      requires code < 256 && criticality < 3 && present < 65536
      ensures |r| == 3
    {
      [Some(SequenceValue([Some(IntValue(code))])), Some(SequenceValue([Some(EnumeratedValue(criticality))])),
       Some(ChoiceValue(present, body))]
    }

    /** The parameters of the body, its reference value resolved. */
    function BodyParams(): Params
      requires code < 256
    {
      BY_CODE.(referenceFieldValue := Some(code))
    }

    function Pdu(): Value
      requires 1 <= kind <= 3 && code < 256 && criticality < 3 && present < 65536
    {
      ChoiceValue(kind, SequenceValue(Fields()))
    }
  }

  /** The body is the first of its kind with the message's procedure code, and its octets can be written and read. */
  predicate WellFormed(tables: Tables, m: Message) {
    && 1 <= m.kind <= 3 && m.code < 256 && m.criticality < 3 && 1 <= m.present < 65536
    && var bodies := tables.Of(m.kind);
    && m.present <= |bodies| && OptionalCount(bodies) == 0
    && MatchingAlternative(bodies, m.code, 0) == m.present
    && Agrees(bodies[m.present - 1].ty, bodies[m.present - 1].params, m.body)
    && OpenTypeAgrees(bodies[m.present - 1].ty, bodies[m.present - 1].params, m.body)
  }

  /** The octets of the body. */
  function Body(tables: Tables, m: Message): seq<bv8>
    requires WellFormed(tables, m)
  {
    OpenTypeOctets(tables.Of(m.kind)[m.present - 1].ty, tables.Of(m.kind)[m.present - 1].params, m.body).value
  }

  // ---------- one field after another ----------

  lemma CodePut(s: BitSeq, code: nat)
    requires code < 256
    ensures
      var r := PutField(s, PROCEDURE_CODE, PLAIN, SequenceValue([Some(IntValue(code))]));
      r == Ok(Align(s) + FromNat(code, 8))
    ensures Agrees(PROCEDURE_CODE, PLAIN, SequenceValue([Some(IntValue(code))]))
  {
    hide Align, FromNat, PutField, Agrees, AgreesAt;
    OneFieldPut(s, PROCEDURE_CODE.fields, [Some(IntValue(code))]);
    CodeLeaf(s, code);
  }

  lemma CodeLeaf(s: BitSeq, code: nat)
    requires code < 256
    ensures PutField(s, IntType, CODE_RANGE, IntValue(code)) == Ok(Align(s) + FromNat(code, 8))
    ensures Agrees(IntType, CODE_RANGE, IntValue(code))
  {
    hide Align, FromNat, Pow2, PutField, PutRawInteger;
    PutLeaf(s, IntType, CODE_RANGE, IntValue(code));
    assert Pow2(8) == 256 by { Pow2Values(); }
    assert IntegerForm(code, false, Some(0), Some(255)) == Ok(IntForm(0, 256, []));
    assert s + [] == s;
  }

  lemma CriticalityPut(s: BitSeq, criticality: nat)
    requires criticality < 3
    ensures
      var r := PutField(s, CRITICALITY, PLAIN, SequenceValue([Some(EnumeratedValue(criticality))]));
      r == Ok(s + FromNat(criticality, 2))
    ensures Agrees(CRITICALITY, PLAIN, SequenceValue([Some(EnumeratedValue(criticality))]))
  {
    hide Align, FromNat, PutField, Agrees, AgreesAt;
    OneFieldPut(s, CRITICALITY.fields, [Some(EnumeratedValue(criticality))]);
    CriticalityLeaf(s, criticality);
  }

  lemma CriticalityLeaf(s: BitSeq, criticality: nat)
    requires criticality < 3
    ensures PutField(s, EnumeratedType, CRITICALITY_RANGE, EnumeratedValue(criticality)) == Ok(s + FromNat(criticality, 2))
    ensures Agrees(EnumeratedType, CRITICALITY_RANGE, EnumeratedValue(criticality))
  {
    hide PutConstrained;
    ThreePut(s, criticality);
  }

  lemma ThreePut(s: BitSeq, v: nat)
    requires v < 3
    ensures PutConstrained(s, 3, v) == Ok(s + FromNat(v, 2))
  {
    assert Pow2(2) == 4 by { Pow2Values(); }
    hide Align, FromNat, Pow2, Width;
    SmallWidths();
  }

  /** A struct of one plain field is its field. */
  lemma OneFieldPut(s: BitSeq, fields: seq<Field>, vs: seq<Option<Value>>)
    requires |fields| == |vs| == 1 && vs[0].Some? && !fields[0].params.optional && !fields[0].params.openType
    ensures PutField(s, SequenceType(fields), PLAIN, SequenceValue(vs))
         == PutField(s, fields[0].ty, fields[0].params, vs[0].value)
    ensures Agrees(SequenceType(fields), PLAIN, SequenceValue(vs)) == Agrees(fields[0].ty, fields[0].params, vs[0].value)
  {
    hide Agrees, AgreesAt, PutField;
    PutSequence(s, fields, PLAIN, vs);
    assert s + [] + [] == s;
    assert Presence(fields, vs, 1) == Presence(fields, vs, 0) == [];
    assert FieldParams(fields, vs[..0]) == Ok(fields[0].params);
    SequenceAgrees(fields, vs);
    assert FieldsAgree(fields, vs, 1);
  }

  lemma SequenceAgrees(fields: seq<Field>, vs: seq<Option<Value>>)
    requires |vs| == |fields|
    ensures Agrees(SequenceType(fields), PLAIN, SequenceValue(vs)) == FieldsAgree(fields, vs, 0)
  {
    hide FieldsAgree;
  }

  /** Content of any length can be fragmented when nothing bounds it. */
  lemma UnboundedPut(s: BitSeq, content: seq<bv8>, offset: nat)
    requires offset <= |content|
    ensures PutFragments(s, content, offset, |content| - offset, 0, -1, 8).Ok?
  {
    hide PutFragments;
    WritableValues.OctetsOnly(|content| - offset);
    WritableValues.FragmentsWritten(s, content, offset, |content| - offset, -1, 8);
  }

  /** The body's parameters: its reference value is the procedure code. */
  lemma ResolvedParams(tables: Tables, m: Message)
    requires WellFormed(tables, m)
    ensures FieldParams(MessageFields(tables.Of(m.kind)), m.Fields()[..2]) == Ok(m.BodyParams())
  {
    hide Agrees, AgreesAt, OpenTypeAgrees;
    var fields, before := MessageFields(tables.Of(m.kind)), m.Fields()[..2];
    assert FieldIndex(fields, "ProcedureCode", 0, 2) == 0;
    assert ReferenceValue(fields[0].ty, before[0].value) == ReferenceValue(IntType, IntValue(m.code));
  }

  lemma BodyPut(s: BitSeq, tables: Tables, m: Message)
    requires WellFormed(tables, m)
    ensures
      var p := m.BodyParams();
      var bodies := tables.Of(m.kind);
      && PutField(s, ChoiceType(bodies), p, ChoiceValue(m.present, m.body))
         == PutFragments(s, Body(tables, m), 0, |Body(tables, m)|, 0, -1, 8)
      && PutField(s, ChoiceType(bodies), p, ChoiceValue(m.present, m.body)).Ok?
      && Agrees(ChoiceType(bodies), p, ChoiceValue(m.present, m.body))
  {
    BodyAgrees(tables, m);
    var p, bodies := m.BodyParams(), tables.Of(m.kind);
    hide PutField, PutFragments, Pack, Align, Agrees, LastStart, FragmentsAgree, OptionalCount, MatchingAlternative;
    WritableValues.OpenPut(s, bodies, p, m.present, m.body);
    PutOpenType(s, bodies, p, m.present, m.body);
    assert s + [] == s;
  }

  lemma BodyAgrees(tables: Tables, m: Message)
    requires WellFormed(tables, m)
    ensures Agrees(ChoiceType(tables.Of(m.kind)), m.BodyParams(), ChoiceValue(m.present, m.body))
  {
    hide OptionalCount, MatchingAlternative, OpenTypeAgrees, FieldsAgree, LeafAgrees, CountAgrees, IntegerAgrees;
  }

  // ---------- whole messages ----------

  /** The bits before the body of a message that starts after `s`. */
  function Header(s: BitSeq, m: Message): BitSeq {
    Align(s) + FromNat(m.code, 8) + FromNat(m.criticality, 2)
  }

  lemma NoPresence(fields: seq<Field>, vs: seq<Option<Value>>)
    requires |fields| == |vs| == 3 && forall i | 0 <= i < 3 :: !fields[i].params.optional
    ensures OptionalCount(fields) == 0 && Presence(fields, vs, 3) == []
    ensures forall i | 0 <= i < 3 :: Marked(fields, [], i)
  {
    assert OptionalBefore(fields, 1) == 0 && OptionalBefore(fields, 2) == 0;
    assert Presence(fields, vs, 1) == [] && Presence(fields, vs, 2) == [];
  }

  /** Three fields that are all there, written one after another. */
  predicate Chain(s: BitSeq, fields: seq<Field>, vs: seq<Option<Value>>, p: Params, s1: BitSeq, s2: BitSeq, r: BitSeq)
  {
    && |fields| == |vs| == 3 && (forall i | 0 <= i < 3 :: !fields[i].params.optional && vs[i].Some?)
    && FieldParams(fields, vs[..0]) == Ok(PLAIN) && FieldParams(fields, vs[..1]) == Ok(PLAIN) && FieldParams(fields, vs[..2]) == Ok(p)
    && PutField(s, fields[0].ty, PLAIN, vs[0].value) == Ok(s1)
    && PutField(s1, fields[1].ty, PLAIN, vs[1].value) == Ok(s2)
    && PutField(s2, fields[2].ty, p, vs[2].value) == Ok(r)
  }

  lemma ChainPut(s: BitSeq, fields: seq<Field>, vs: seq<Option<Value>>, p: Params, s1: BitSeq, s2: BitSeq, r: BitSeq)
    requires Chain(s, fields, vs, p, s1, s2, r)
    ensures PutField(s, SequenceType(fields), PLAIN, SequenceValue(vs)) == Ok(r)
  {
    PutSequence(s, fields, PLAIN, vs);
    NoPresence(fields, vs);
    hide PutField, FieldParams, Marked, Presence;
    assert s + [] + [] == s;
    assert PutFields(r, fields, vs, 3) == Ok(r);
    assert PutFields(s2, fields, vs, 2) == Ok(r);
    assert PutFields(s1, fields, vs, 1) == Ok(r);
  }

  lemma ChainStart(s: BitSeq, fields: seq<Field>, vs: seq<Option<Value>>, p: Params, s1: BitSeq, s2: BitSeq, r: BitSeq)
    requires Chain(s, fields, vs, p, s1, s2, r)
    ensures LastStart(s, SequenceType(fields), PLAIN, SequenceValue(vs)) == LastStart(s2, fields[2].ty, p, vs[2].value)
  {
    NoPresence(fields, vs);
    SequenceStart(s, fields, vs);
    hide PutField, FieldParams, Marked, Presence, LastStart;
    assert s + [] + [] == s;
    var last := LastStart(s2, fields[2].ty, p, vs[2].value);
    assert LastFieldStart(r, fields, vs, 3, last) == last;
    forall l: nat ensures LastFieldStart(s2, fields, vs, 2, l) == last {}
    forall l: nat ensures LastFieldStart(s1, fields, vs, 1, l) == last {}
  }

  lemma SequenceStart(s: BitSeq, fields: seq<Field>, vs: seq<Option<Value>>)
    requires |fields| == |vs|
    ensures LastStart(s, SequenceType(fields), PLAIN, SequenceValue(vs))
         == LastFieldStart(s + [] + Presence(fields, vs, |fields|), fields, vs, 0, |s|)
  {
    hide LastFieldStart, Presence;
  }

  lemma ChainAgrees(s: BitSeq, fields: seq<Field>, vs: seq<Option<Value>>, p: Params, s1: BitSeq, s2: BitSeq, r: BitSeq)
    requires Chain(s, fields, vs, p, s1, s2, r)
    requires Agrees(fields[0].ty, PLAIN, vs[0].value) && Agrees(fields[1].ty, PLAIN, vs[1].value)
    requires Agrees(fields[2].ty, p, vs[2].value)
    ensures Agrees(SequenceType(fields), PLAIN, SequenceValue(vs))
  {
    NoPresence(fields, vs);
    SequenceAgrees(fields, vs);
    hide PutField, FieldParams, Marked, Presence, Agrees, AgreesAt;
    assert FieldsAgree(fields, vs, 3) && FieldsAgree(fields, vs, 2) && FieldsAgree(fields, vs, 1);
  }

  lemma MessageChain(s: BitSeq, tables: Tables, m: Message)
    requires WellFormed(tables, m)
    ensures
      var put := PutFragments(Header(s, m), Body(tables, m), 0, |Body(tables, m)|, 0, -1, 8);
      && put.Ok?
      && Chain(s, MessageFields(tables.Of(m.kind)), m.Fields(), m.BodyParams(), Align(s) + FromNat(m.code, 8), Header(s, m), put.value)
  {
    CodePut(s, m.code);
    CriticalityPut(Align(s) + FromNat(m.code, 8), m.criticality);
    BodyPut(Header(s, m), tables, m);
    ResolvedParams(tables, m);
    PlainParams(tables.Of(m.kind), m.Fields());
    Unfold(s, tables.Of(m.kind), m, PutFragments(Header(s, m), Body(tables, m), 0, |Body(tables, m)|, 0, -1, 8).value);
  }

  lemma Unfold(s: BitSeq, bodies: seq<Field>, m: Message, r: BitSeq)
    requires m.code < 256 && m.criticality < 3 && m.present < 65536
    requires PutField(s, PROCEDURE_CODE, PLAIN, SequenceValue([Some(IntValue(m.code))])) == Ok(Align(s) + FromNat(m.code, 8))
    requires PutField(Align(s) + FromNat(m.code, 8), CRITICALITY, PLAIN, SequenceValue([Some(EnumeratedValue(m.criticality))]))
          == Ok(Header(s, m))
    requires PutField(Header(s, m), ChoiceType(bodies), m.BodyParams(), ChoiceValue(m.present, m.body)) == Ok(r)
    requires FieldParams(MessageFields(bodies), m.Fields()[..0]) == Ok(PLAIN)
    requires FieldParams(MessageFields(bodies), m.Fields()[..1]) == Ok(PLAIN)
    requires FieldParams(MessageFields(bodies), m.Fields()[..2]) == Ok(m.BodyParams())
    ensures Chain(s, MessageFields(bodies), m.Fields(), m.BodyParams(), Align(s) + FromNat(m.code, 8), Header(s, m), r)
  {
    hide PutField, Align, FromNat, FieldParams, Header, m.BodyParams;
  }

  lemma MessageAgrees(tables: Tables, m: Message)
    requires WellFormed(tables, m)
    ensures
      var fields, p := MessageFields(tables.Of(m.kind)), m.BodyParams();
      && Agrees(fields[0].ty, PLAIN, m.Fields()[0].value) && Agrees(fields[1].ty, PLAIN, m.Fields()[1].value)
      && Agrees(fields[2].ty, p, m.Fields()[2].value)
  {
    CodePut([], m.code);
    CriticalityPut([], m.criticality);
    BodyPut([], tables, m);
    hide PutField, Agrees, AgreesAt, Align, FromNat, PutFragments, OpenTypeAgrees, Body;
  }

  lemma PlainParams(bodies: seq<Field>, vs: seq<Option<Value>>)
    requires |vs| == 3
    ensures FieldParams(MessageFields(bodies), vs[..0]) == Ok(PLAIN) && FieldParams(MessageFields(bodies), vs[..1]) == Ok(PLAIN)
  {}

  /** A message is its header and the fragments of its body, and its last field is the body. */
  lemma MessagePut(s: BitSeq, tables: Tables, m: Message)
    requires WellFormed(tables, m)
    ensures
      var t, v := SequenceType(MessageFields(tables.Of(m.kind))), SequenceValue(m.Fields());
      && PutField(s, t, PLAIN, v) == PutFragments(Header(s, m), Body(tables, m), 0, |Body(tables, m)|, 0, -1, 8)
      && PutField(s, t, PLAIN, v).Ok?
      && Agrees(t, PLAIN, v)
      && LastStart(s, t, PLAIN, v) == |Header(s, m)|
  {
    hide PutField, Agrees, AgreesAt, Align, FromNat, PutFragments, OpenTypeAgrees, Body, Chain;
    MessageChain(s, tables, m);
    MessageAgrees(tables, m);
    var fields, p := MessageFields(tables.Of(m.kind)), m.BodyParams();
    var r := PutFragments(Header(s, m), Body(tables, m), 0, |Body(tables, m)|, 0, -1, 8).value;
    ChainPut(s, fields, m.Fields(), p, Align(s) + FromNat(m.code, 8), Header(s, m), r);
    ChainStart(s, fields, m.Fields(), p, Align(s) + FromNat(m.code, 8), Header(s, m), r);
    ChainAgrees(s, fields, m.Fields(), p, Align(s) + FromNat(m.code, 8), Header(s, m), r);
    OpenStart(Header(s, m), tables.Of(m.kind), p, m.present, m.body);
  }

  lemma OpenStart(s: BitSeq, bodies: seq<Field>, p: Params, present: Int64, body: Value)
    requires p.openType
    ensures LastStart(s, ChoiceType(bodies), p, ChoiceValue(present, body)) == |s|
  {
    hide PutChoiceIndex;
  }

  /** The extension bit and the index of the kind. */
  function KindBits(m: Message): BitSeq
    requires m.kind >= 1
  {
    [false] + FromNat(m.kind - 1, 2)
  }

  lemma KindIndex(m: Message)
    requires 1 <= m.kind <= 3
    ensures PutChoiceIndex([] + [false], m.kind, true, Some(2)) == Ok(KindBits(m))
  {
    hide PutConstrained;
    ThreePut([false], m.kind - 1);
    assert [] + [false] == [false];
  }

  /** A PDU is the index of its kind and its message. */
  lemma PduPut(tables: Tables, m: Message)
    requires WellFormed(tables, m)
    ensures
      var t, v := ChoiceType(tables.Kinds()), m.Pdu();
      && PutField([], t, PDU, v) == PutFragments(Header(KindBits(m), m), Body(tables, m), 0, |Body(tables, m)|, 0, -1, 8)
      && PutField([], t, PDU, v).Ok?
      && Agrees(t, PDU, v)
      && LastStart([], t, PDU, v) == |Header(KindBits(m), m)|
  {
    MessagePut(KindBits(m), tables, m);
    KindIndex(m);
    KindOf(tables, m.kind);
    hide PutField, Agrees, AgreesAt, LastStart, PutFragments, Header, KindBits, Body, PutChoiceIndex, OpenTypeAgrees, OptionalCount,
         MatchingAlternative, MessageFields, tables.Kinds, m.Fields;
    IndexedPut(tables.Kinds(), m.kind, SequenceValue(m.Fields()), KindBits(m));
    IndexedStart(tables.Kinds(), m.kind, SequenceValue(m.Fields()), KindBits(m));
    IndexedAgrees(tables.Kinds(), m.kind, SequenceValue(m.Fields()));
  }

  lemma KindOf(tables: Tables, kind: nat)
    requires 1 <= kind <= 3
    ensures tables.Kinds()[kind - 1].ty == SequenceType(MessageFields(tables.Of(kind))) && tables.Kinds()[kind - 1].params == PLAIN
    ensures OptionalCount(tables.Kinds()) == 0
  {
    hide MessageFields;
    NoPresence(tables.Kinds(), [None, None, None]);
  }

  lemma IndexedPut(alts: seq<Field>, present: Int64, alt: Value, s1: BitSeq)
    requires 1 <= present <= |alts| && OptionalCount(alts) == 0
    requires PutChoiceIndex([] + [false], present, true, Some(2)) == Ok(s1)
    ensures PutField([], ChoiceType(alts), PDU, ChoiceValue(present, alt))
         == PutField(s1, alts[present - 1].ty, alts[present - 1].params, alt)
  {
    hide PutField, PutChoiceIndex;
    WritableValues.IndexedPut([], alts, PDU, present, alt);
  }

  lemma IndexedStart(alts: seq<Field>, present: Int64, alt: Value, s1: BitSeq)
    requires 1 <= present <= |alts| && OptionalCount(alts) == 0
    requires PutChoiceIndex([] + [false], present, true, Some(2)) == Ok(s1)
    ensures LastStart([], ChoiceType(alts), PDU, ChoiceValue(present, alt))
         == LastStart(s1, alts[present - 1].ty, alts[present - 1].params, alt)
  {
    hide PutChoiceIndex, PutFragments, PutFields, PutElements, OptionalCount, Agrees, AgreesAt, PutField, Align, Pack;
  }

  lemma IndexedAgrees(alts: seq<Field>, present: Int64, alt: Value)
    requires 1 <= present <= |alts| && OptionalCount(alts) == 0
    ensures Agrees(ChoiceType(alts), PDU, ChoiceValue(present, alt)) == Agrees(alts[present - 1].ty, alts[present - 1].params, alt)
  {
    hide PutChoiceIndex, PutFragments, PutFields, PutElements, OptionalCount, PutField, LastStart;
  }

  /** Every well-formed message is encoded, and decoded to itself. */
  lemma NgapRoundTrip(tables: Tables, m: Message)
    requires WellFormed(tables, m)
    ensures
      var t := ChoiceType(tables.Kinds());
      var r := Marshalled(t, PDU, m.Pdu());
      r.Ok? && Unmarshalled(r.value, t, PDU) == Ok(m.Pdu())
  {
    var t, s := ChoiceType(tables.Kinds()), Header(KindBits(m), m);
    PduPut(tables, m);
    hide PutField, Agrees, AgreesAt, LastStart, Align, Pack, PutFragments, Header, KindBits, Body, OpenTypeAgrees;
    AgreesHere([], t, PDU, m.Pdu());
    MessageRoundTrip(t, PDU, m.Pdu());
  }

  /** The octets of a message whose body has one length octet: kind, procedure code, criticality, length, body. */
  lemma ShortLayout(tables: Tables, m: Message)
    requires WellFormed(tables, m) && |Body(tables, m)| <= 127
    ensures
      Marshalled(ChoiceType(tables.Kinds()), PDU, m.Pdu()) == Ok(ShortMessage(m, Body(tables, m)))
  {
    PduPut(tables, m);
    var body, s := Body(tables, m), Header(KindBits(m), m);
    ShortFragments(s, body);
    ShortOctets(m, body);
    hide PutField, PutFragments, Body, Header, KindBits, WellFormed, Agrees, AgreesAt, LastStart, Marshalled, Align, tables.Kinds, m.Pdu, Unpack;
    MarshalledIs(ChoiceType(tables.Kinds()), m.Pdu(), ShortMessage(m, body));
  }

  function ShortMessage(m: Message, body: seq<bv8>): seq<bv8>
    requires 1 <= m.kind <= 3 && m.code < 256 && m.criticality < 3 && |body| <= 127
  {
    [(32 * (m.kind - 1)) as bv8, m.code as bv8, (64 * m.criticality) as bv8, |body| as bv8] + body
  }

  lemma ShortOctets(m: Message, body: seq<bv8>)
    requires 1 <= m.kind <= 3 && m.code < 256 && m.criticality < 3 && |body| <= 127
    ensures Align(Header(KindBits(m), m)) + FromNat(|body|, 8) + Unpack(body) == Unpack(ShortMessage(m, body))
  {
    HeaderOctets(m);
    hide Header, KindBits, Align, Unpack, FromNat;
    ByteFromNat(|body|);
    JoinOctets((32 * (m.kind - 1)) as bv8, m.code as bv8, (64 * m.criticality) as bv8, |body| as bv8, body);
  }

  lemma JoinOctets(a: bv8, b: bv8, c: bv8, d: bv8, body: seq<bv8>)
    ensures Unpack([a, b, c]) + Unpack([d]) + Unpack(body) == Unpack([a, b, c, d] + body)
  {
    hide Unpack;
    UnpackAppend([a, b, c], [d]);
    assert [a, b, c] + [d] == [a, b, c, d];
    UnpackAppend([a, b, c, d], body);
  }

  lemma MarshalledIs(t: Type, v: Value, bytes: seq<bv8>)
    requires |bytes| > 0 && PutField([], t, PDU, v) == Ok(Unpack(bytes))
    ensures Marshalled(t, PDU, v) == Ok(bytes)
  {
    hide PutField, Pack, Unpack;
    UnpackPack(Unpack(bytes));
    UnpackInjective(Pack(Unpack(bytes)), bytes);
    assert Align(Unpack(bytes)) == Unpack(bytes);
  }

  lemma ShortFragments(s: BitSeq, content: seq<bv8>)
    requires |content| <= 127
    ensures PutFragments(s, content, 0, |content|, 0, -1, 8) == Ok(Align(s) + FromNat(|content|, 8) + Unpack(content))
  {
    hide FromNat, Unpack, PutLength, Align, PutFragments;
    var n := |content|;
    var a := Align(s) + FromNat(n, 8);
    ShortLength(s, n);
    AlignedAlready(a);
    OnlyTurn(s, content);
    assert Unpack(content)[..8 * n] == Unpack(content);
    if n == 0 { assert a + Unpack(content) == a; }
  }

  /** The one turn of the fragment loop over short content. */
  lemma OnlyTurn(s: BitSeq, content: seq<bv8>)
    requires |content| <= 127 && PutLength(s, -1, |content|).Ok?
    ensures
      var s1 := PutLength(s, -1, |content|).value;
      PutFragments(s, content, 0, |content|, 0, -1, 8)
      == Ok(if content == [] then s1 else Align(s1) + Unpack(content)[..8 * |content|])
  {
    hide Unpack, PutLength, Align, FragmentSize, BytesOf, BitsOf;
    OneShortFragment(|content|);
    assert content[0..|content|] == content;
  }

  lemma OneShortFragment(n: nat)
    requires n <= 127
    ensures FragmentSize(n) == n && BytesOf(n, 8) == n && BitsOf(n, 8) == 8 * n
  {}

  lemma ShortLength(s: BitSeq, n: nat)
    requires n <= 127
    ensures PutLength(s, -1, n) == Ok(Align(s) + FromNat(n, 8))
  {
    assert Pow2(8) == 256 by { Pow2Values(); }
    hide Align, FromNat, Pow2;
  }

  lemma HeaderOctets(m: Message)
    requires 1 <= m.kind <= 3 && m.code < 256 && m.criticality < 3
    ensures Align(Header(KindBits(m), m)) == Unpack([(32 * (m.kind - 1)) as bv8, m.code as bv8, (64 * m.criticality) as bv8])
  {
    hide Unpack;
    var a, b, c := [(32 * (m.kind - 1)) as bv8], [m.code as bv8], [(64 * m.criticality) as bv8];
    KindOctet(m);
    CriticalityOctet(m);
    ByteFromNat(32 * (m.kind - 1));
    ByteFromNat(m.code);
    ByteFromNat(64 * m.criticality);
    UnpackAppend(a, b);
    UnpackAppend(a + b, c);
    assert a + b + c == [a[0], b[0], c[0]];
    hide FromNat;
    assert Align(KindBits(m)) == KindBits(m) + Zeros(5);
    assert Align(Header(KindBits(m), m)) == Header(KindBits(m), m) + Zeros(6);
  }

  lemma KindOctet(m: Message)
    requires 1 <= m.kind <= 3
    ensures FromNat(32 * (m.kind - 1), 8) == KindBits(m) + Zeros(5)
  {
    hide FromNat, Zeros, Pow2;
    TrailingZeros(m.kind - 1, 3, 5);
    Pow2Values();
    ThreeBits(m.kind - 1);
  }

  lemma ThreeBits(k: nat)
    requires k < 3
    ensures FromNat(k, 3) == [false] + FromNat(k, 2)
  {
    assert k == 0 || k == 1 || k == 2;
  }

  /** A number shifted to the left ends in zeros. */
  lemma {:induction false} TrailingZeros(v: nat, n: nat, z: nat)
    ensures FromNat(v * Pow2(z), n + z) == FromNat(v, n) + Zeros(z)
  {
    if z == 0 {
      assert FromNat(v, n) + Zeros(0) == FromNat(v, n);
    } else {
      TrailingZeros(v, n, z - 1);
      assert v * Pow2(z) == 2 * (v * Pow2(z - 1));
      assert Zeros(z) == Zeros(z - 1) + [false];
    }
  }

  lemma CriticalityOctet(m: Message)
    requires m.criticality < 3
    ensures FromNat(64 * m.criticality, 8) == FromNat(m.criticality, 2) + Zeros(6)
  {
    hide FromNat, Zeros, Pow2;
    TrailingZeros(m.criticality, 2, 6);
    Pow2Values();
  }

  /** The smallest message, of each kind and criticality: a body of one BOOLEAN. */
  lemma SmallestMessage(kind: nat, code: nat, criticality: nat, b: bool)
    requires 1 <= kind <= 3 && code < 256 && criticality < 3
    ensures
      var bodies := [Field("Body", true, BoolType, PLAIN.(referenceFieldValue := Some(code)))];
      var tables := if kind == 1 then Tables(bodies, [], []) else if kind == 2 then Tables([], bodies, []) else Tables([], [], bodies);
      var m := Message(kind, code, criticality, 1, BoolValue(b));
      && WellFormed(tables, m)
      && Marshalled(ChoiceType(tables.Kinds()), PDU, m.Pdu())
         == Ok([if kind == 1 then 0 else if kind == 2 then 0x20 else 0x40, code as bv8,
                if criticality == 0 then 0 else if criticality == 1 then 0x40 else 0x80, 1, if b then 0x80 else 0])
  {
    var bodies := [Field("Body", true, BoolType, PLAIN.(referenceFieldValue := Some(code)))];
    var tables := if kind == 1 then Tables(bodies, [], []) else if kind == 2 then Tables([], bodies, []) else Tables([], [], bodies);
    var m := Message(kind, code, criticality, 1, BoolValue(b));
    SmallestBody(tables, m, bodies, b);
    hide WellFormed, Body, Marshalled, tables.Kinds, tables.Of, m.Pdu, ShortMessage;
    ShortLayout(tables, m);
    SmallestOctets(m, if b then 0x80 else 0);
  }

  lemma SmallestBody(tables: Tables, m: Message, bodies: seq<Field>, b: bool)
    requires 1 <= m.kind <= 3 && m.code < 256 && m.criticality < 3 && m.present == 1 && m.body == BoolValue(b)
    requires bodies == [Field("Body", true, BoolType, PLAIN.(referenceFieldValue := Some(m.code)))]
    requires tables.Of(m.kind) == bodies
    ensures WellFormed(tables, m) && Body(tables, m) == [if b then 0x80 else 0]
  {
    OneBit(b);
    hide Pack, Align;
    assert OptionalCount(bodies) == OptionalBefore(bodies, 1) == OptionalBefore(bodies, 0);
    assert [] + [b] == [b];
    assert OpenTypeOctets(BoolType, bodies[0].params, BoolValue(b)) == Ok([if b then 0x80 else 0]);
  }

  lemma SmallestOctets(m: Message, x: bv8)
    requires 1 <= m.kind <= 3 && m.code < 256 && m.criticality < 3
    ensures ShortMessage(m, [x])
         == [if m.kind == 1 then 0 else if m.kind == 2 then 0x20 else 0x40, m.code as bv8,
             if m.criticality == 0 then 0 else if m.criticality == 1 then 0x40 else 0x80, 1, x]
  {
    KindOctets();
    assert |[x]| == 1;
  }

  lemma KindOctets()
    ensures (0 as nat) as bv8 == 0 && (1 as nat) as bv8 == 1 && (32 as nat) as bv8 == 0x20 && (64 as nat) as bv8 == 0x40
    ensures (128 as nat) as bv8 == 0x80
  {}

  lemma OneBit(b: bool)
    ensures Pack(Align([b])) == [if b then 0x80 else 0]
  {
    var octet: bv8 := if b then 0x80 else 0;
    hide Pack, Unpack, Bit;
    assert Align([b]) == [b] + Zeros(7);
    TopBit(b);
    UnpackIs([octet], Align([b]));
    UnpackPack(Align([b]));
    UnpackInjective(Pack(Align([b])), [octet]);
  }

  lemma TopBit(b: bool)
    ensures
      var octet: bv8 := if b then 0x80 else 0;
      forall k: nat | k < 8 :: Bit(octet, k) == (k == 0 && b)
  {}

  // ---------- the two wrappers ----------

  method Encoder(tables: Tables, pdu: Value) returns (r: Result<seq<bv8>>)
    ensures r == Marshalled(ChoiceType(tables.Kinds()), PDU, pdu)
  {
    r := Marshal.MarshalWithParams(ChoiceType(tables.Kinds()), PDU, pdu);
  }

  method Decoder(tables: Tables, b: seq<bv8>) returns (r: Result<Value>)
    ensures r == Unmarshalled(b, ChoiceType(tables.Kinds()), PDU)
  {
    r := Aper.UnmarshalWithParams(b, ChoiceType(tables.Kinds()), PDU);
  }
}
