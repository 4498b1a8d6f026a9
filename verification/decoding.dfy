/** What the decoder reads, as functions of the bits received and the position of the cursor. */
module Decoding {
  import opened Bits
  import opened Common
  import opened BitCopy
  import opened Encoding

  // ---------- bits, values, alignment ----------

  function GetBits(d: BitSeq, pos: nat, n: nat): (r: Read<BitSeq>)
    requires pos <= |d|
    ensures pos <= r.pos <= |d|
  {
    if n > |d| - pos then Fail(BitsOverflow, pos)
    else if n == 0 then Fail(Panic, pos)
    else Got(d[pos..pos + n], pos + n)
  }

  /** A run of bits left-justified in bytes. */
  function GetPacked(d: BitSeq, pos: nat, n: nat): (r: Read<seq<bv8>>)
    requires pos <= |d|
    ensures pos <= r.pos <= |d|
    ensures r.Got? ==> |r.value| == CeilDiv8(n)
  {
    var (bits, p) :- GetBits(d, pos, n);
    Got(Pack(Padded(bits)), p)
  }

  function GetValue(d: BitSeq, pos: nat, n: nat): (r: Read<nat>)
    requires pos <= |d|
    ensures pos <= r.pos <= |d|
    ensures r.Got? ==> r.value < TWO_64 && r.value < Pow2(n) && r.pos == pos + n
  {
    var (bits, p) :- GetBits(d, pos, n);
    ToNatBound(bits);
    Got(ToNat(bits) % TWO_64, p)
  }

  function SkipAlign(d: BitSeq, pos: nat): (r: Read<()>)
    requires pos <= |d|
    ensures pos <= r.pos <= |d|
    ensures r.Got? ==> r.pos % 8 == 0 && r.pos < pos + 8
  {
    if pos % 8 == 0 then Got((), pos)
    else
      var (value, p) :- GetValue(d, pos, 8 - pos % 8);
      if value != 0 then Fail(AlignNotZero, p) else Got((), p)
  }

  function GetConstrained(d: BitSeq, pos: nat, range: int): (r: Read<nat>)
    requires pos <= |d|
    ensures pos <= r.pos <= |d|
    ensures r.Got? ==> r.value < 65536
  {
    Pow2Values();
    if range < 0 then Fail(RangeNegative, pos)
    else if range <= 255 then GetValue(d, pos, Width(range))
    else if range <= 65536 then
      var (_, p) :- SkipAlign(d, pos);
      GetValue(d, p, if range == 256 then 8 else 16)
    else Fail(RangeTooLarge, pos)
  }

  /** A length and whether more fragments follow it. */
  datatype Length = Length(n: nat, repeat: bool)

  function GetLength(d: BitSeq, pos: nat, sizeRange: int): (r: Read<Length>)
    requires pos <= |d|
    ensures pos <= r.pos <= |d|
    ensures r.Got? ==> pos < r.pos
  {
    if Bounded(sizeRange) then
      var (n, p) :- GetConstrained(d, pos, sizeRange);
      Got(Length(n, false), p)
    else
      var (_, p0) :- SkipAlign(d, pos);
      var (first, p1) :- GetValue(d, p0, 8);
      if first < 128 then Got(Length(first, false), p1)
      else if first < 192 then
        var (second, p2) :- GetValue(d, p1, 8);
        Got(Length(first % 64 * 256 + second, false), p2)
      else if 1 <= first % 64 <= 4 then Got(Length(16384 * (first % 64), true), p1)
      else Fail(LengthOutOfConstraint, p1)
  }

  // ---------- strings ----------

  /** A decoded string: its bytes and how many of its units they hold. */
  datatype Content = Content(bytes: seq<bv8>, n: nat)

  /** One fragment, and whether another follows it. */
  function GetFragment(d: BitSeq, pos: nat, lb: nat, sizeRange: int, unit: Unit): (r: Read<(Content, bool)>)
    requires pos <= |d|
    ensures pos <= r.pos <= |d|
    ensures r.Got? ==> pos < r.pos && BitsOf(r.value.0.n, unit) <= 8 * |r.value.0.bytes|
  {
    hide GetLength, SkipAlign, Pack;
    var (length, p1) :- GetLength(d, pos, sizeRange);
    var n := length.n + lb;
    if n == 0 then Got((Content([], 0), false), p1)
    else
      var (_, p2) :- SkipAlign(d, p1);
      var end := p2 + 8 * BytesOf(n, unit);
      if end > |d| then Fail(DataOutOfRange, p2)
      else Got((Content(Pack(d[p2..end]), n), length.repeat), p2 + BitsOf(n, unit))
  }

  function GetFragments(d: BitSeq, pos: nat, lb: nat, sizeRange: int, unit: Unit, got: Content): (r: Read<Content>)
    requires pos <= |d|
    ensures pos <= r.pos <= |d|
    ensures r.Got? ==> pos < r.pos
    ensures r.Got? && BitsOf(got.n, unit) <= 8 * |got.bytes| ==> BitsOf(r.value.n, unit) <= 8 * |r.value.bytes|
    decreases |d| - pos
  {
    var ((piece, repeat), p) :- GetFragment(d, pos, lb, sizeRange, unit);
    var more := Content(got.bytes + piece.bytes, got.n + piece.n);
    if repeat then GetFragments(d, p, lb, sizeRange, unit, more) else Got(more, p)
  }

  function GetFixed(d: BitSeq, pos: nat, unit: Unit, ub: nat): (r: Read<Content>)
    requires pos <= |d|
    ensures pos <= r.pos <= |d|
    ensures r.Got? ==> r.value.n == ub && BitsOf(r.value.n, unit) <= 8 * |r.value.bytes|
  {
    if BytesOf(ub, unit) > 2 then
      var (_, p) :- SkipAlign(d, pos);
      var end := p + 8 * BytesOf(ub, unit);
      if end > |d| then Fail(DataOutOfRange, p)
      else Got(Content(Pack(d[p..end]), ub), p + BitsOf(ub, unit))
    else
      var (bytes, p) :- GetPacked(d, pos, BitsOf(ub, unit));
      Got(Content(bytes, ub), p)
  }

  function GetString(d: BitSeq, pos: nat, unit: Unit, extended: bool, lb: Option<Size>,
      ub: Option<Size>): (r: Read<Content>)
    requires pos <= |d|
    ensures pos <= r.pos <= |d|
    ensures r.Got? ==> BitsOf(r.value.n, unit) <= 8 * |r.value.bytes|
  {
    var low := if !extended && lb.Some? then lb.value else 0;
    var range := if !extended && ub.Some? && ub.value <= 65535 then ub.value - low + 1 else -1;
    if range == 1 then GetFixed(d, pos, unit, ub.value)
    else GetFragments(d, pos, low, range, unit, Content([], 0))
  }

  // ---------- INTEGER and ENUMERATED ----------

  /** The decoder's octet count of a value range above 65536; its loop stops at a quotient of zero. */
  function GetByteLen(byteLen: nat, u: nat): (r: nat)
    requires 1 <= byteLen <= 128
    ensures byteLen <= r <= 128
    decreases 128 - byteLen
  {
    if byteLen == 128 || u / 256 == 0 then byteLen else GetByteLen(byteLen + 1, u / 256)
  }

  /** An octet string of `n` octets, `raw` modulo 2^64, read as two's complement. */
  function Signed(raw: nat, n: nat): Int64
    requires n >= 1
  {
    if n <= 8 && raw / Pow2(8 * n - 1) % 2 == 1 then WrapInt64(raw % Pow2(8 * n - 1) - Pow2(8 * n - 1))
    else WrapInt64(raw)
  }

  /** The rest of an integer once its octet count is known. */
  function GetRawInteger(d: BitSeq, pos: nat, n: nat, lb: Int64, range: Int64): (r: Read<Int64>)
    requires pos <= |d|
    ensures pos <= r.pos <= |d|
    ensures r.Got? ==> r.pos == pos + 8 * n
  {
    var (raw, p) :- GetValue(d, pos, 8 * n);
    assert n >= 1;
    Got(if range < 0 && n <= 8 && raw / Pow2(8 * n - 1) % 2 == 1 then Signed(raw, n) else WrapInt64(WrapInt64(raw) + lb), p)
  }

  function GetInteger(d: BitSeq, pos: nat, extended: bool, lb: Option<Int64>, ub: Option<Int64>): (r: Read<Int64>)
    requires pos <= |d|
    ensures pos <= r.pos <= |d|
  {
    var low: Int64 := if !extended && lb.Some? then lb.value else 0;
    var range: Int64 := if extended || lb.None? then -1
                        else if ub.None? then 0
                        else WrapInt64(ub.value - low + 1);
    if range == 1 then Got(ub.value, pos)
    else if range <= 0 then GetUnbounded(d, pos, low, range)
    else if range <= 65536 then
      var (raw, p) :- GetConstrained(d, pos, range);
      Got(WrapInt64(raw + low), p)
    else GetCounted(d, pos, low, range)
  }

  /** An integer after a length octet. */
  function GetUnbounded(d: BitSeq, pos: nat, low: Int64, range: Int64): (r: Read<Int64>)
    requires pos <= |d|
    ensures pos <= r.pos <= |d|
  {
    var (_, p0) :- SkipAlign(d, pos);
    if p0 == |d| then Fail(DataOutOfRange, p0)
    else
      var (n, p1) :- GetValue(d, p0, 8);
      GetRawInteger(d, p1, n, low, range)
  }

  /** An integer after an octet count whose width its range decides. */
  function GetCounted(d: BitSeq, pos: nat, low: Int64, range: Int64): (r: Read<Int64>)
    requires pos <= |d| && range > 65536
    ensures pos <= r.pos <= |d|
  {
    var (n, p0) :- GetValue(d, pos, Width(GetByteLen(1, range - 1)));
    var (_, p1) :- SkipAlign(d, p0);
    GetRawInteger(d, p1, n + 1, low, range)
  }

  function GetEnumerated(d: BitSeq, pos: nat, extended: bool, lb: Option<Int64>, ub: Option<Int64>): (r: Read<Uint64>)
    requires pos <= |d|
    ensures pos <= r.pos <= |d|
  {
    if extended then Fail(UnsupportedExtension, pos)
    else if lb.None? || ub.None? then Fail(ConstraintMissing, pos)
    else
      var range := WrapInt64(ub.value - lb.value + 1);
      if range > 1 then GetConstrained(d, pos, range) else Got(0, pos)
  }

  // ---------- CHOICE index and SEQUENCE OF count ----------

  function GetChoiceIndex(d: BitSeq, pos: nat, extended: bool, ub: Option<Int64>): (r: Read<nat>)
    requires pos <= |d|
    ensures pos <= r.pos <= |d|
    ensures r.Got? ==> 1 <= r.value <= 65536
  {
    if extended then Fail(UnsupportedExtension, pos)
    else if ub.None? || ub.value < 0 then Fail(ConstraintMissing, pos)
    else
      var (raw, p) :- GetConstrained(d, pos, WrapInt64(ub.value + 1));
      Got(raw + 1, p)
  }

  /** A count, and the error still pending when the count itself could not be read:
      the decoder then goes on with the lower bound and lets the elements decide. */
  datatype Count = Count(n: nat, pending: Option<Error>)

  function GetCount(d: BitSeq, pos: nat, extended: bool, lb: Option<Size>, ub: Option<Size>): (r: Read<Count>)
    requires pos <= |d|
    ensures pos <= r.pos <= |d|
  {
    var low := if lb.Some? && lb.value < 65536 then lb.value else 0;
    var range := if !extended && ub.Some? && ub.value < 65536 then ub.value - low + 1 else -1;
    if range == 1 then Got(Count(low, None), pos)
    else if range > 1 then
      var n := GetConstrained(d, pos, range);
      Got(if n.Got? then Count(n.value + low, None) else Count(low, Some(n.error)), n.pos)
    else
      var (_, p0) :- SkipAlign(d, pos);
      if p0 == |d| then Fail(DataOutOfRange, p0)
      else
        var (n, p1) :- GetValue(d, p0, 8);
        Got(Count(n, None), p1)
  }

  /** The first alternative carrying the reference value, counted from one; zero when there is none. */
  function MatchingAlternative(alts: seq<Field>, ref: Int64, from: nat): (r: nat)
    requires from <= |alts|
    ensures r <= |alts|
    ensures r == 0 ==> forall j | from <= j < |alts| :: alts[j].params.referenceFieldValue != Some(ref)
    ensures r != 0 ==> from < r && alts[r - 1].params.referenceFieldValue == Some(ref)
    ensures r != 0 ==> forall j | from <= j < r - 1 :: alts[j].params.referenceFieldValue != Some(ref)
    decreases |alts| - from
  {
    if from == |alts| then 0
    else if alts[from].params.referenceFieldValue == Some(ref) then from + 1
    else MatchingAlternative(alts, ref, from + 1)
  }

  // ---------- whole values ----------

  function GetFlag(d: BitSeq, pos: nat, wanted: bool): (r: Read<bool>)
    requires pos <= |d|
    ensures pos <= r.pos <= |d|
  {
    if !wanted then Got(false, pos)
    else
      var (bit, p) :- GetValue(d, pos, 1);
      Got(bit != 0, p)
  }

  function GetField(d: BitSeq, pos: nat, t: Type, p: Params): (r: Read<Value>)
    requires pos <= |d|
    ensures pos <= r.pos <= |d|
    decreases t, 3, 0
  {
    if pos == |d| then Fail(SequenceTruncated, pos)
    else
      var (sizeExt, p1) :- GetFlag(d, pos, p.sizeExtensible);
      var (valueExt, p2) :- GetFlag(d, p1, p.valueExtensible && !t.SliceType? && !t.OctetStringType?);
      GetBody(d, p2, t, p, sizeExt, valueExt)
  }

  /** A value after its extension bits. */
  function GetBody(d: BitSeq, pos: nat, t: Type, p: Params, sizeExt: bool, valueExt: bool): (r: Read<Value>)
    requires pos <= |d|
    ensures pos <= r.pos <= |d|
    decreases t, 2, 0
  {
    match t
    case BitStringType =>
      var (c, p1) :- GetString(d, pos, 1, sizeExt, p.sizeLowerBound, p.sizeUpperBound);
      Got(BitStringValue(Unpack(c.bytes)[..c.n]), p1)
    case OctetStringType =>
      var (c, p1) :- GetString(d, pos, 8, sizeExt, p.sizeLowerBound, p.sizeUpperBound);
      Got(OctetStringValue(c.bytes), p1)
    case PrintableStringType =>
      var (c, p1) :- GetString(d, pos, 8, sizeExt, p.sizeLowerBound, p.sizeUpperBound);
      Got(PrintableStringValue(c.bytes), p1)
    case ObjectIdentifierType => Fail(UnsupportedType, pos)
    case EnumeratedType =>
      var (n, p1) :- GetEnumerated(d, pos, valueExt, p.valueLowerBound, p.valueUpperBound);
      Got(EnumeratedValue(n), p1)
    case BoolType =>
      var (bit, p1) :- GetValue(d, pos, 1);
      Got(BoolValue(bit == 1), p1)
    case IntType =>
      var (i, p1) :- GetInteger(d, pos, valueExt, p.valueLowerBound, p.valueUpperBound);
      Got(IntValue(i), p1)
    case SequenceType(fields) =>
      var (presence, p1) :- GetPresence(d, pos, fields);
      GetFields(d, p1, fields, presence, [])
    case ChoiceType(alts) =>
      var (_, p1) :- GetPresence(d, pos, alts);
      if p.openType then GetOpenType(d, p1, t, p.referenceFieldValue)
      else GetChoice(d, p1, t, valueExt, p.valueUpperBound)
    case SliceType(elem) =>
      var (count, p1) :- GetCount(d, pos, sizeExt, p.sizeLowerBound, p.sizeUpperBound);
      if count.n == 0 && count.pending.Some? then Fail(count.pending.value, p1)
      else GetElements(d, p1, elem, ElementParams(p), count.n, [])
  }

  function GetChoice(d: BitSeq, pos: nat, t: Type, extended: bool, ub: Option<Int64>): (r: Read<Value>)
    requires pos <= |d| && t.ChoiceType?
    ensures pos <= r.pos <= |d|
    decreases t, 1, 0
  {
    var index := GetChoiceIndex(d, pos, extended, ub);
    if index.Fail? then Fail(PresentZero, index.pos)
    else if index.value > |t.alternatives| then Fail(PresentTooBig, index.pos)
    else
      var alt := t.alternatives[index.value - 1];
      var (v, p1) :- GetField(d, index.pos, alt.ty, alt.params);
      Got(ChoiceValue(index.value, v), p1)
  }

  function GetOpenType(d: BitSeq, pos: nat, t: Type, ref: Option<Int64>): (r: Read<Value>)
    requires pos <= |d| && t.ChoiceType?
    ensures pos <= r.pos <= |d|
    decreases t, 1, 0
  {
    if ref.None? then Fail(ReferenceEmpty, pos)
    else
      var present := MatchingAlternative(t.alternatives, ref.value, 0);
      if present == 0 then Fail(ReferenceMismatch, pos)
      else
        var alt := t.alternatives[present - 1];
        var (c, p1) :- GetFragments(d, pos, 0, -1, 8, Content([], 0));
        var (v, _) :- AtPosition(GetField(Unpack(c.bytes), 0, alt.ty, alt.params), p1);
        Got(ChoiceValue(WrapInt64(present), v), p1)
  }

  /** The outcome of reading an open type's own octets leaves the outer cursor where it was. */
  function AtPosition(r: Read<Value>, pos: nat): Read<Value> {
    match r
    case Got(v, _) => Got(v, pos)
    case Fail(e, _) => Fail(e, pos)
  }

  function GetPresence(d: BitSeq, pos: nat, fields: seq<Field>): (r: Read<BitSeq>)
    requires pos <= |d|
    ensures pos <= r.pos <= |d|
    ensures r.Got? ==> |r.value| == OptionalCount(fields)
  {
    if OptionalCount(fields) == 0 then Got([], pos) else GetBits(d, pos, OptionalCount(fields))
  }

  function GetElements(d: BitSeq, pos: nat, elem: Type, p: Params, n: nat, got: seq<Value>): (r: Read<Value>)
    requires pos <= |d|
    ensures pos <= r.pos <= |d|
    decreases elem, 4, n
  {
    if n == 0 then Got(SliceValue(got), pos)
    else
      var (v, p1) :- GetField(d, pos, elem, p);
      GetElements(d, p1, elem, p, n - 1, got + [v])
  }

  /** The fields after those already read. */
  function GetFields(d: BitSeq, pos: nat, fields: seq<Field>, presence: BitSeq, got: seq<Option<Value>>): (r: Read<Value>)
    requires pos <= |d|
    requires |presence| == OptionalCount(fields) && |got| <= |fields|
    ensures pos <= r.pos <= |d|
    decreases fields, 4, |fields| - |got|
  {
    if |got| == |fields| then Got(SequenceValue(got), pos)
    else if !Marked(fields, presence, |got|) then GetFields(d, pos, fields, presence, got + [None])
    else
      match FieldParams(fields, got)
      case Err(e) => Fail(e, pos)
      case Ok(p) =>
        var (v, p1) :- GetField(d, pos, fields[|got|].ty, p);
        GetFields(d, p1, fields, presence, got + [Some(v)])
  }

  /** A SEQUENCE looks at neither extension bit. */
  lemma SequenceIs(d: BitSeq, pos: nat, fields: seq<Field>, p: Params, sizeExt: bool, valueExt: bool)
    requires pos <= |d|
    ensures GetBody(d, pos, SequenceType(fields), p, sizeExt, valueExt)
         == var presence := GetPresence(d, pos, fields);
            if presence.Fail? then Fail(presence.error, presence.pos) else GetFields(d, presence.pos, fields, presence.value, [])
  {
    hide GetFields, GetPresence;
  }

  /** A CHOICE or open type looks at the value extension bit only. */
  lemma ChoiceIs(d: BitSeq, pos: nat, t: Type, p: Params, sizeExt: bool, valueExt: bool)
    requires pos <= |d| && t.ChoiceType?
    ensures GetBody(d, pos, t, p, sizeExt, valueExt)
         == var presence := GetPresence(d, pos, t.alternatives);
            if presence.Fail? then Fail(presence.error, presence.pos)
            else if p.openType then GetOpenType(d, presence.pos, t, p.referenceFieldValue)
            else GetChoice(d, presence.pos, t, valueExt, p.valueUpperBound)
  {
    hide GetPresence, GetOpenType, GetChoice;
  }

  lemma AllRead(d: BitSeq, pos: nat, fields: seq<Field>, presence: BitSeq, got: seq<Option<Value>>)
    requires pos <= |d| && |presence| == OptionalCount(fields) && |got| == |fields|
    ensures GetFields(d, pos, fields, presence, got) == Got(SequenceValue(got), pos)
  {}

  /** One more field: absent, or read after its parameters. */
  lemma NextField(d: BitSeq, pos: nat, fields: seq<Field>, presence: BitSeq, got: seq<Option<Value>>)
    requires pos <= |d| && |presence| == OptionalCount(fields) && |got| < |fields|
    ensures !Marked(fields, presence, |got|) ==>
              GetFields(d, pos, fields, presence, got) == GetFields(d, pos, fields, presence, got + [None])
    ensures Marked(fields, presence, |got|) ==>
              GetFields(d, pos, fields, presence, got)
              == var p := FieldParams(fields, got);
                 if p.Err? then Fail(p.error, pos)
                 else
                   var v := GetField(d, pos, fields[|got|].ty, p.value);
                   if v.Fail? then Fail(v.error, v.pos) else GetFields(d, v.pos, fields, presence, got + [Some(v.value)])
  {
    hide Marked, FieldParams, GetField;
  }

  /** The value at the head of a message; what follows it is not looked at. */
  function Unmarshalled(bytes: seq<bv8>, t: Type, p: Params): Result<Value> {
    match GetField(Unpack(bytes), 0, t, p)
    case Got(v, _) => Ok(v)
    case Fail(e, _) => Err(e)
  }
}
