/** What the decoder makes of any bits: which it accepts, what it reads from them, and with which error it refuses the
    rest. */
module ReadLayouts {
  import opened Bits
  import opened Common
  import opened BitCopy
  import opened Encoding
  import opened Decoding
  import opened IntegerRoundTrip
  import opened Layouts
  import opened TypeLayouts

  // ---------- numbers and lengths ----------

  /** The number in the next bits, up to 64 of them; asking for none fails, and so does asking for more than there are. */
  lemma NumberRead(d: BitSeq, pos: nat, n: nat)
    requires pos <= |d|
    ensures n == 0 ==> GetValue(d, pos, n) == Fail(Panic, pos)
    ensures n > |d| - pos ==> GetValue(d, pos, n) == Fail(BitsOverflow, pos)
    ensures 1 <= n <= 64 && n <= |d| - pos ==> GetValue(d, pos, n) == Got(ToNat(d[pos..pos + n]), pos + n)
  {
    hide ToNat, Pow2;
    if 1 <= n <= 64 && n <= |d| - pos {
      var x := d[pos..pos + n];
      ToNatBound(x);
      Pow2Monotone(n, 64);
      Pow2Values();
      SmallMod(ToNat(x), TWO_64);
    }
  }

  /** Padding up to the next octet has to be zeros. */
  lemma AlignRead(d: BitSeq, pos: nat, k: nat)
    requires pos <= |d| && k < 8 && (pos + k) % 8 == 0
    ensures k == 0 ==> SkipAlign(d, pos) == Got((), pos)
    ensures pos + k > |d| ==> SkipAlign(d, pos) == Fail(BitsOverflow, pos)
    ensures k > 0 && pos + k <= |d| && d[pos..pos + k] == seq(k, i => false) ==> SkipAlign(d, pos) == Got((), pos + k)
    ensures k > 0 && pos + k <= |d| && d[pos..pos + k] != seq(k, i => false) ==> SkipAlign(d, pos) == Fail(AlignNotZero, pos + k)
  {
    if k == 0 {
      assert pos % 8 == 0;
    } else {
      assert pos % 8 != 0 && 8 - pos % 8 == k;
      NumberRead(d, pos, k);
      hide ToNat, GetValue;
      ToNatZeros(k);
      assert Zeros(k) == seq(k, i => false);
      if pos + k <= |d| && ToNat(d[pos..pos + k]) == 0 { ZeroOnlyZeros(d[pos..pos + k]); }
    }
  }

  /** A constrained whole number is any number its bits can hold, within the range or not. */
  lemma ConstrainedRead(d: BitSeq, pos: nat, range: int, w: nat)
    requires pos <= |d|
    requires range <= 2 ==> w == 1
    requires 3 <= range <= 4 ==> w == 2
    requires 5 <= range <= 8 ==> w == 3
    requires 9 <= range <= 16 ==> w == 4
    requires 17 <= range <= 32 ==> w == 5
    requires 33 <= range <= 64 ==> w == 6
    requires 65 <= range <= 128 ==> w == 7
    requires 129 <= range <= 256 ==> w == 8
    requires 257 <= range ==> w == 16
    ensures 0 <= range <= 255 && w <= |d| - pos ==> GetConstrained(d, pos, range) == Got(ToNat(d[pos..pos + w]), pos + w)
    ensures 0 <= range <= 255 && w > |d| - pos ==> GetConstrained(d, pos, range) == Fail(BitsOverflow, pos)
    ensures 256 <= range <= 65536 ==>
              GetConstrained(d, pos, range)
              == var aligned := SkipAlign(d, pos);
                 if aligned.Fail? then Fail(aligned.error, aligned.pos)
                 else if w > |d| - aligned.pos then Fail(BitsOverflow, aligned.pos)
                 else Got(ToNat(d[aligned.pos..aligned.pos + w]), aligned.pos + w)
    ensures range < 0 ==> GetConstrained(d, pos, range) == Fail(RangeNegative, pos)
    ensures range > 65536 ==> GetConstrained(d, pos, range) == Fail(RangeTooLarge, pos)
  {
    hide GetValue, SkipAlign, ToNat, WidthFrom;
    if 0 <= range <= 255 {
      Pow2Values();
      LeastWidth(1, range, w);
      NumberRead(d, pos, w);
    } else if 256 <= range <= 65536 {
      var aligned := SkipAlign(d, pos);
      NumberRead(d, aligned.pos, w);
    }
  }

  /** A length outside a small range: seven bits, fourteen bits, or one to four fragments; lengths that would fit fewer
      octets are read all the same. */
  lemma LengthRead(d: BitSeq, pos: nat, range: int, p: nat)
    requires pos <= |d| && (range <= 0 || range > 65536) && SkipAlign(d, pos) == Got((), p)
    ensures p + 8 > |d| ==> GetLength(d, pos, range) == Fail(BitsOverflow, p)
    ensures p + 8 <= |d| ==>
              GetLength(d, pos, range)
              == var first := ToNat(d[p..p + 8]);
                 if first < 128 then Got(Length(first, false), p + 8)
                 else if first < 192 then
                   if p + 16 > |d| then Fail(BitsOverflow, p + 8)
                   else Got(Length((first - 128) * 256 + ToNat(d[p + 8..p + 16]), false), p + 16)
                 else if first in {193, 194, 195, 196} then Got(Length(16384 * (first - 192), true), p + 8)
                 else Fail(LengthOutOfConstraint, p + 8)
  {
    hide GetValue, SkipAlign, ToNat, Pow2;
    NumberRead(d, p, 8);
    if p + 8 <= |d| {
      NumberRead(d, p + 8, 8);
      ToNatBound(d[p..p + 8]);
      Pow2Values();
    }
  }

  /** In a small range a length is a constrained whole number, after which no fragment follows. */
  lemma BoundedLengthRead(d: BitSeq, pos: nat, range: int)
    requires pos <= |d| && 1 <= range <= 65536
    ensures GetLength(d, pos, range)
         == var n := GetConstrained(d, pos, range);
            if n.Fail? then Fail(n.error, n.pos) else Got(Length(n.value, false), n.pos)
  {
    hide GetConstrained, SkipAlign, GetValue;
  }

  // ---------- strings ----------

  /** A fragment of octets: none of zero length, and otherwise aligned and wholly there. */
  lemma OctetsRead(d: BitSeq, pos: nat, lb: nat, range: int, length: Length, at: nat, p: nat)
    requires pos <= |d| && GetLength(d, pos, range) == Got(length, at) && SkipAlign(d, at) == Got((), p)
    ensures length.n + lb == 0 ==> GetFragment(d, pos, lb, range, 8) == Got((Content([], 0), false), at)
    ensures length.n + lb > 0 && p + 8 * (length.n + lb) > |d| ==> GetFragment(d, pos, lb, range, 8) == Fail(DataOutOfRange, p)
    ensures length.n + lb > 0 && p + 8 * (length.n + lb) <= |d| ==>
              var end := p + 8 * (length.n + lb);
              GetFragment(d, pos, lb, range, 8) == Got((Content(Pack(d[p..end]), length.n + lb), length.repeat), end)
  {
    hide GetLength, SkipAlign, Pack;
  }

  /** The bounds of an OCTET STRING: none once the extension bit is set, none of an upper bound above 65535, and no
      length at all of a size that is fixed. */
  lemma StringBounds(d: BitSeq, pos: nat, lb: Size, ub: Size)
    requires pos <= |d| && lb <= ub
    ensures GetString(d, pos, 8, true, Some(lb), Some(ub)) == GetFragments(d, pos, 0, -1, 8, Content([], 0))
    ensures GetString(d, pos, 8, false, None, None) == GetFragments(d, pos, 0, -1, 8, Content([], 0))
    ensures GetString(d, pos, 8, false, Some(lb), None) == GetFragments(d, pos, lb, -1, 8, Content([], 0))
    ensures ub > 65535 ==> GetString(d, pos, 8, false, Some(lb), Some(ub)) == GetFragments(d, pos, lb, -1, 8, Content([], 0))
    ensures lb < ub <= 65535 ==>
              GetString(d, pos, 8, false, Some(lb), Some(ub)) == GetFragments(d, pos, lb, ub - lb + 1, 8, Content([], 0))
    ensures lb == ub <= 65535 ==> GetString(d, pos, 8, false, Some(lb), Some(ub)) == GetFixed(d, pos, 8, ub)
  {
    hide GetFragments, GetFixed;
  }

  /** A fixed size: up to two octets from where the cursor is, more from the next octet on. */
  lemma FixedRead(d: BitSeq, pos: nat, size: nat)
    requires pos <= |d| && size > 0
    ensures size <= 2 && pos + 8 * size > |d| ==> GetFixed(d, pos, 8, size) == Fail(BitsOverflow, pos)
    ensures size <= 2 && pos + 8 * size <= |d| ==>
              GetFixed(d, pos, 8, size) == Got(Content(Pack(d[pos..pos + 8 * size]), size), pos + 8 * size)
    ensures size > 2 ==>
              GetFixed(d, pos, 8, size)
              == var aligned := SkipAlign(d, pos);
                 if aligned.Fail? then Fail(aligned.error, aligned.pos)
                 else
                   var end := aligned.pos + 8 * size;
                   if end > |d| then Fail(DataOutOfRange, aligned.pos) else Got(Content(Pack(d[aligned.pos..end]), size), end)
  {
    hide SkipAlign, Pack;
    if size <= 2 && pos + 8 * size <= |d| {
      var bits := d[pos..pos + 8 * size];
      assert Padded(bits) == bits;
    }
  }

  // ---------- INTEGER, ENUMERATED and CHOICE indices ----------

  /** The octets of an integer: two's complement without a lower bound, an offset from it otherwise. */
  lemma IntegerOctetsRead(d: BitSeq, pos: nat, n: nat, lb: Int64, range: Int64)
    requires pos <= |d| && n <= 8
    ensures n == 0 ==> GetRawInteger(d, pos, n, lb, range) == Fail(Panic, pos)
    ensures 8 * n > |d| - pos ==> GetRawInteger(d, pos, n, lb, range) == Fail(BitsOverflow, pos)
    ensures 1 <= n && 8 * n <= |d| - pos && range < 0 && lb == 0 ==>
              var x := ToNat(d[pos..pos + 8 * n]);
              x < Pow2(8 * n)
              && (x < Pow2(8 * n - 1) ==> GetRawInteger(d, pos, n, lb, range) == Got(x, pos + 8 * n))
              && (x >= Pow2(8 * n - 1) ==> GetRawInteger(d, pos, n, lb, range) == Got(x - Pow2(8 * n), pos + 8 * n))
    ensures 1 <= n && 8 * n <= |d| - pos && range >= 0 && ToNat(d[pos..pos + 8 * n]) + lb < 0x8000_0000_0000_0000 ==>
              GetRawInteger(d, pos, n, lb, range) == Got(ToNat(d[pos..pos + 8 * n]) + lb, pos + 8 * n)
  {
    hide GetValue, ToNat, Pow2, WrapInt64;
    NumberRead(d, pos, 8 * n);
    if 1 <= n && 8 * n <= |d| - pos {
      var x := ToNat(d[pos..pos + 8 * n]);
      ToNatBound(d[pos..pos + 8 * n]);
      if range >= 0 {
        WrappedSum(x, lb);
      } else if lb == 0 {
        TwosComplement(x, n);
      }
    }
  }

  lemma WrappedSum(x: nat, lb: Int64)
    requires x < TWO_64
    ensures x + lb < 0x8000_0000_0000_0000 ==> WrapInt64(WrapInt64(x) + lb) == x + lb
  {}

  lemma TwosComplement(x: nat, n: nat)
    requires 1 <= n <= 8 && x < Pow2(8 * n)
    ensures Pow2(8 * n) == 2 * Pow2(8 * n - 1) && Pow2(8 * n) <= TWO_64
    ensures x < Pow2(8 * n - 1) ==> x / Pow2(8 * n - 1) % 2 == 0 && WrapInt64(WrapInt64(x)) == x
    ensures x >= Pow2(8 * n - 1) ==> x / Pow2(8 * n - 1) % 2 == 1 && Signed(x, n) == x - Pow2(8 * n)
  {
    hide WrapInt64, Pow2;
    OctetPowers(n);
    var m := Pow2(8 * n - 1);
    Halved(x, m);
    Unwrapped(x);
    Unwrapped(x - 2 * m);
  }

  lemma OctetPowers(n: nat)
    requires 1 <= n <= 8
    ensures Pow2(8 * n) == 2 * Pow2(8 * n - 1) && Pow2(8 * n) <= TWO_64
  {
    Pow2Monotone(8 * n, 64);
    Pow2Values();
  }

  lemma Halved(x: nat, m: nat)
    requires m > 0 && x < 2 * m
    ensures x < m ==> x / m % 2 == 0
    ensures x >= m ==> x / m % 2 == 1 && x % m == x - m
  {
    if x < m { ModUnique(x, m, 0, x); } else { ModUnique(x, m, 1, x - m); }
  }

  lemma Unwrapped(x: int)
    ensures -0x8000_0000_0000_0000 <= x < 0x8000_0000_0000_0000 ==> WrapInt64(x) == x
  {}

  /** An integer with no more than 65536 values, of a single one, and out of its range under a set extension bit. */
  lemma IntegerRead(d: BitSeq, pos: nat, lb: Int64, ub: Int64)
    requires pos <= |d| && lb <= ub <= lb + 65535
    ensures lb == ub ==> GetInteger(d, pos, false, Some(lb), Some(ub)) == Got(ub, pos)
    ensures lb < ub ==>
              var raw := GetConstrained(d, pos, ub - lb + 1);
              && (raw.Fail? ==> GetInteger(d, pos, false, Some(lb), Some(ub)) == Fail(raw.error, raw.pos))
              && (raw.Got? && raw.value + lb < 0x8000_0000_0000_0000 ==>
                    GetInteger(d, pos, false, Some(lb), Some(ub)) == Got(raw.value + lb, raw.pos))
    ensures GetInteger(d, pos, true, Some(lb), Some(ub)) == GetInteger(d, pos, false, None, None)
  {
    hide GetConstrained, GetUnbounded, GetCounted;
  }

  /** With more values the octet count takes two bits up to 2^32 of them and three above; without an upper bound it is
      an octet. */
  lemma LargeIntegerRead(d: BitSeq, pos: nat, lb: Int64, ub: Int64, w: nat)
    requires pos <= |d| && 65536 <= ub - lb < 0x7fff_ffff_ffff_ffff && w == if ub - lb < 0x1_0000_0000 then 2 else 3
    ensures GetInteger(d, pos, false, Some(lb), Some(ub))
         == if w > |d| - pos then Fail(BitsOverflow, pos)
            else
              var aligned := SkipAlign(d, pos + w);
              if aligned.Fail? then Fail(aligned.error, aligned.pos)
              else GetRawInteger(d, aligned.pos, ToNat(d[pos..pos + w]) + 1, lb, ub - lb + 1)
  {
    hide GetValue, ToNat, SkipAlign, GetRawInteger, Width, GetByteLen, GetConstrained, GetUnbounded;
    GetByteLenIs(ub - lb);
    SmallWidths();
    NumberRead(d, pos, w);
  }

  lemma UnboundedIntegerRead(d: BitSeq, pos: nat, lb: Int64, ub: Option<Int64>, p: nat)
    requires pos <= |d| && SkipAlign(d, pos) == Got((), p)
    ensures p == |d| ==> GetInteger(d, pos, false, None, ub) == Fail(DataOutOfRange, p)
    ensures p + 8 <= |d| ==>
              && GetInteger(d, pos, false, None, ub) == GetRawInteger(d, p + 8, ToNat(d[p..p + 8]), 0, -1)
              && GetInteger(d, pos, false, Some(lb), None) == GetRawInteger(d, p + 8, ToNat(d[p..p + 8]), lb, 0)
  {
    hide GetValue, ToNat, SkipAlign, GetRawInteger, GetConstrained, GetCounted;
    NumberRead(d, p, 8);
  }

  /** An enumeration is any number its bits hold, and zero when it has a single name; an extension is refused. */
  lemma EnumeratedRead(d: BitSeq, pos: nat, lb: Int64, ub: Int64)
    requires pos <= |d| && lb <= ub <= lb + 65535
    ensures GetEnumerated(d, pos, true, Some(lb), Some(ub)) == Fail(UnsupportedExtension, pos)
    ensures GetEnumerated(d, pos, false, Some(lb), None) == GetEnumerated(d, pos, false, None, Some(ub)) == Fail(ConstraintMissing, pos)
    ensures lb == ub ==> GetEnumerated(d, pos, false, Some(lb), Some(ub)) == Got(0, pos)
    ensures lb < ub ==> GetEnumerated(d, pos, false, Some(lb), Some(ub)) == GetConstrained(d, pos, ub - lb + 1)
  {
    hide GetConstrained;
  }

  lemma ChoiceIndexRead(d: BitSeq, pos: nat, ub: Int64)
    requires pos <= |d| && 0 <= ub < 0x7fff_ffff_ffff_ffff
    ensures GetChoiceIndex(d, pos, true, Some(ub)) == Fail(UnsupportedExtension, pos)
    ensures GetChoiceIndex(d, pos, false, None) == Fail(ConstraintMissing, pos)
    ensures
      var raw := GetConstrained(d, pos, ub + 1);
      GetChoiceIndex(d, pos, false, Some(ub)) == if raw.Fail? then Fail(raw.error, raw.pos) else Got(raw.value + 1, raw.pos)
  {
    hide GetConstrained;
  }

  /** A count in bounds, after an extension, and without an upper bound; one whose own bits are missing stands at the
      lower bound, its error put off. */
  lemma CountRead(d: BitSeq, pos: nat, lb: Size, ub: Size, p: nat)
    requires pos <= |d| && lb <= ub < 65536 && SkipAlign(d, pos) == Got((), p)
    ensures lb == ub ==> GetCount(d, pos, false, Some(lb), Some(ub)) == Got(Count(lb, None), pos)
    ensures lb < ub ==>
              var raw := GetConstrained(d, pos, ub - lb + 1);
              GetCount(d, pos, false, Some(lb), Some(ub))
              == Got(if raw.Got? then Count(raw.value + lb, None) else Count(lb, Some(raw.error)), raw.pos)
    ensures p == |d| ==> GetCount(d, pos, true, Some(lb), Some(ub)) == Fail(DataOutOfRange, p)
    ensures p + 8 <= |d| ==> GetCount(d, pos, true, Some(lb), Some(ub)) == Got(Count(ToNat(d[p..p + 8]), None), p + 8)
    ensures GetCount(d, pos, false, Some(lb), None) == GetCount(d, pos, false, None, None) == GetCount(d, pos, true, Some(lb), Some(ub))
  {
    hide GetConstrained, GetValue, SkipAlign, ToNat;
    NumberRead(d, p, 8);
  }

  // ---------- whole values ----------

  /** The bits before a value: none at the end of the data, then a size extension bit and a value extension bit where
      the tag has them, the second one not before a list or an OCTET STRING. */
  lemma FieldRead(d: BitSeq, pos: nat, t: Type, p: Params)
    requires pos <= |d|
    ensures pos == |d| ==> GetField(d, pos, t, p) == Fail(SequenceTruncated, pos)
    ensures pos < |d| && !p.sizeExtensible && !p.valueExtensible ==> GetField(d, pos, t, p) == GetBody(d, pos, t, p, false, false)
    ensures pos < |d| && p.sizeExtensible && !p.valueExtensible ==> GetField(d, pos, t, p) == GetBody(d, pos + 1, t, p, d[pos], false)
    ensures pos < |d| && !p.sizeExtensible && p.valueExtensible ==>
              GetField(d, pos, t, p) == if t.SliceType? || t.OctetStringType? then GetBody(d, pos, t, p, false, false)
                                        else GetBody(d, pos + 1, t, p, false, d[pos])
    ensures pos + 1 < |d| && p.sizeExtensible && p.valueExtensible ==>
              GetField(d, pos, t, p) == if t.SliceType? || t.OctetStringType? then GetBody(d, pos + 1, t, p, d[pos], false)
                                        else GetBody(d, pos + 2, t, p, d[pos], d[pos + 1])
  {
    hide GetBody, GetFlag;
    if pos < |d| { FlagRead(d, pos); }
    if pos + 1 < |d| { FlagRead(d, pos + 1); }
    assert pos < |d| ==> GetFlag(d, pos, false) == Got(false, pos) by { NoFlag(d, pos); }
    if pos < |d| { NoFlag(d, pos + 1); }
  }

  lemma FlagRead(d: BitSeq, pos: nat)
    requires pos < |d|
    ensures GetFlag(d, pos, true) == Got(d[pos], pos + 1) && GetValue(d, pos, 1) == Got(if d[pos] then 1 else 0, pos + 1)
  {
    NumberRead(d, pos, 1);
    assert d[pos..pos + 1] == [d[pos]] && [d[pos]][..0] == [];
    assert ToNat([d[pos]]) == if d[pos] then 1 else 0;
    hide GetValue, ToNat;
  }

  lemma NoFlag(d: BitSeq, pos: nat)
    requires pos <= |d|
    ensures GetFlag(d, pos, false) == Got(false, pos)
  {}

  /** A flag is one bit. */
  lemma BoolRead(d: BitSeq, pos: nat, p: Params, sizeExt: bool, valueExt: bool)
    requires pos <= |d|
    ensures pos < |d| ==> GetBody(d, pos, BoolType, p, sizeExt, valueExt) == Got(BoolValue(d[pos]), pos + 1)
    ensures pos == |d| ==> GetBody(d, pos, BoolType, p, sizeExt, valueExt) == Fail(BitsOverflow, pos)
  {
    if pos < |d| { FlagRead(d, pos); }
    NumberRead(d, pos, 1);
    hide GetValue;
  }

  /** One field from one place to another: an absent OPTIONAL one takes no bits. */
  predicate FieldReadAt(d: BitSeq, from: nat, fields: seq<Field>, vs: seq<Option<Value>>, i: nat, to: nat)
    requires i < |fields| == |vs|
  {
    if vs[i].None? then fields[i].params.optional && to == from
    else
      && from <= |d| && FieldParams(fields, vs[..i]).Ok?
      && GetField(d, from, fields[i].ty, FieldParams(fields, vs[..i]).value) == Got(vs[i].value, to)
  }

  /** The fields from `i` on, each from where the one before it ends. */
  predicate FieldsReadAt(ats: seq<nat>, d: BitSeq, fields: seq<Field>, vs: seq<Option<Value>>, i: nat)
    requires |ats| == |fields| + 1 == |vs| + 1
  {
    forall j | i <= j < |fields| :: FieldReadAt(d, ats[j], fields, vs, j, ats[j + 1])
  }

  /** A SEQUENCE is read as its presence bits and then the fields they mark, in order. */
  lemma SequenceReadLayout(d: BitSeq, pos: nat, fields: seq<Field>, p: Params, sizeExt: bool, valueExt: bool,
      vs: seq<Option<Value>>, end: nat)
    requires pos <= |d| && |vs| == |fields| && OptionalCount(fields) <= 64
    ensures GetBody(d, pos, SequenceType(fields), p, sizeExt, valueExt) == Got(SequenceValue(vs), end)
       <==> exists ats | |ats| == |fields| + 1 && FieldsReadAt(ats, d, fields, vs, 0) ::
              && var presence := PresenceBits(fields, vs);
              && pos + |presence| <= |d| && d[pos..pos + |presence|] == presence && ats[0] == pos + |presence|
              && ats[|fields|] == end
  {
    hide GetBody, PresenceBits, FieldsReadAt, OptionalCount;
    if GetBody(d, pos, SequenceType(fields), p, sizeExt, valueExt) == Got(SequenceValue(vs), end) {
      var ats := SequenceCut(d, pos, fields, p, sizeExt, valueExt, vs, end);
    }
    forall ats | |ats| == |fields| + 1 && FieldsReadAt(ats, d, fields, vs, 0) && pos + |PresenceBits(fields, vs)| <= |d|
                 && d[pos..pos + |PresenceBits(fields, vs)|] == PresenceBits(fields, vs)
                 && ats[0] == pos + |PresenceBits(fields, vs)| && ats[|fields|] == end
      ensures GetBody(d, pos, SequenceType(fields), p, sizeExt, valueExt) == Got(SequenceValue(vs), end) {
      SequenceJoined(d, pos, fields, p, sizeExt, valueExt, vs, ats);
    }
  }

  lemma SequenceCut(d: BitSeq, pos: nat, fields: seq<Field>, p: Params, sizeExt: bool, valueExt: bool,
      vs: seq<Option<Value>>, end: nat) returns (ats: seq<nat>)
    requires pos <= |d| && |vs| == |fields| && OptionalCount(fields) <= 64
    requires GetBody(d, pos, SequenceType(fields), p, sizeExt, valueExt) == Got(SequenceValue(vs), end)
    ensures |ats| == |fields| + 1 && FieldsReadAt(ats, d, fields, vs, 0) && ats[|fields|] == end
    ensures
      var presence := PresenceBits(fields, vs);
      pos + |presence| <= |d| && d[pos..pos + |presence|] == presence && ats[0] == pos + |presence|
  {
    PresenceIs(fields, vs, |fields|);
    assert fields[..|fields|] == fields && vs[..|fields|] == vs;
    hide GetBody, GetFields, GetPresence, Presence, PresenceBits, FieldsReadAt, Marked, OptionalCount;
    SequenceIs(d, pos, fields, p, sizeExt, valueExt);
    PresenceRead(d, pos, fields);
    var r := GetPresence(d, pos, fields);
    ats := FieldsRead(d, r.pos, fields, r.value, [], vs, end);
    MarksArePresence(fields, vs, r.value);
  }

  lemma SequenceJoined(d: BitSeq, pos: nat, fields: seq<Field>, p: Params, sizeExt: bool, valueExt: bool,
      vs: seq<Option<Value>>, ats: seq<nat>)
    requires pos <= |d| && |ats| - 1 == |vs| == |fields| && OptionalCount(fields) <= 64 && FieldsReadAt(ats, d, fields, vs, 0)
    requires
      var presence := PresenceBits(fields, vs);
      pos + |presence| <= |d| && d[pos..pos + |presence|] == presence && ats[0] == pos + |presence|
    ensures GetBody(d, pos, SequenceType(fields), p, sizeExt, valueExt) == Got(SequenceValue(vs), ats[|fields|])
  {
    PresenceIs(fields, vs, |fields|);
    assert fields[..|fields|] == fields && vs[..|fields|] == vs;
    hide GetBody, GetFields, GetPresence, Presence, PresenceBits, FieldsReadAt;
    SequenceIs(d, pos, fields, p, sizeExt, valueExt);
    PresenceRead(d, pos, fields);
    FieldsAllRead(ats, d, fields, vs, 0);
    assert vs[..0] == [];
  }

  lemma PresenceRead(d: BitSeq, pos: nat, fields: seq<Field>)
    requires pos <= |d|
    ensures
      var n := OptionalCount(fields);
      GetPresence(d, pos, fields) == if pos + n <= |d| then Got(d[pos..pos + n], pos + n) else Fail(BitsOverflow, pos)
  {
    hide OptionalBefore;
  }

  /** One turn of the loop over the fields: the field at hand is read to some place, or absent. */
  lemma FieldStepRead(d: BitSeq, pos: nat, fields: seq<Field>, presence: BitSeq, got: seq<Option<Value>>, v: Option<Value>, to: nat)
    requires pos <= |d| && |presence| == OptionalCount(fields) && |got| < |fields|
    requires v.Some? <==> Marked(fields, presence, |got|)
    requires v.Some? ==> FieldParams(fields, got).Ok?
                         && GetField(d, pos, fields[|got|].ty, FieldParams(fields, got).value) == Got(v.value, to)
    requires v.None? ==> to == pos
    ensures to <= |d| && GetFields(d, pos, fields, presence, got) == GetFields(d, to, fields, presence, got + [v])
  {
    NextField(d, pos, fields, presence, got);
  }

  /** When all the fields are read, so is the one at hand. */
  lemma FieldStepFound(d: BitSeq, pos: nat, fields: seq<Field>, presence: BitSeq, got: seq<Option<Value>>) returns (v: Option<Value>, to: nat)
    requires pos <= |d| && |presence| == OptionalCount(fields) && |got| < |fields| && GetFields(d, pos, fields, presence, got).Got?
    ensures v.Some? <==> Marked(fields, presence, |got|)
    ensures v.Some? ==> FieldParams(fields, got).Ok?
                        && GetField(d, pos, fields[|got|].ty, FieldParams(fields, got).value) == Got(v.value, to)
    ensures v.None? ==> fields[|got|].params.optional && to == pos
    ensures to <= |d| && GetFields(d, pos, fields, presence, got) == GetFields(d, to, fields, presence, got + [v])
  {
    NextField(d, pos, fields, presence, got);
    Unmarked(fields, presence, |got|);
    hide GetFields, GetField, Marked, FieldParams, OptionalCount;
    if Marked(fields, presence, |got|) {
      var r := GetField(d, pos, fields[|got|].ty, FieldParams(fields, got).value);
      v, to := Some(r.value), r.pos;
    } else {
      v, to := None, pos;
    }
  }

  lemma {:induction false} FieldsRead(d: BitSeq, pos: nat, fields: seq<Field>, presence: BitSeq, got: seq<Option<Value>>,
      vs: seq<Option<Value>>, end: nat) returns (ats: seq<nat>)
    requires pos <= |d| && |presence| == OptionalCount(fields) && |got| <= |fields| == |vs|
    requires GetFields(d, pos, fields, presence, got) == Got(SequenceValue(vs), end)
    ensures vs[..|got|] == got && |ats| == |fields| + 1 && ats[|got|] == pos && ats[|fields|] == end
    ensures FieldsReadAt(ats, d, fields, vs, |got|)
    ensures forall j | |got| <= j < |fields| :: vs[j].Some? <==> Marked(fields, presence, j)
    decreases |fields| - |got|
  {
    var i := |got|;
    if i == |fields| {
      AllRead(d, pos, fields, presence, got);
      ats := seq(|fields| + 1, j => pos);
    } else {
      hide GetFields, GetField, Marked, FieldParams, OptionalCount;
      var v, to := FieldStepFound(d, pos, fields, presence, got);
      var rest := FieldsRead(d, to, fields, presence, got + [v], vs, end);
      assert vs[..i] == vs[..i + 1][..i] == got && vs[i] == vs[..i + 1][i] == v;
      assert FieldReadAt(d, pos, fields, vs, i, to);
      hide FieldReadAt;
      ats := rest[i := pos];
    }
  }

  lemma Unmarked(fields: seq<Field>, presence: BitSeq, i: nat)
    requires i < |fields| && |presence| == OptionalCount(fields)
    ensures !Marked(fields, presence, i) ==> fields[i].params.optional
  {
    OptionalMonotone(fields, i, |fields|);
  }

  lemma MarksArePresence(fields: seq<Field>, vs: seq<Option<Value>>, presence: BitSeq)
    requires |fields| == |vs| && |presence| == OptionalCount(fields) <= 64
    requires forall j | 0 <= j < |fields| :: vs[j].Some? <==> Marked(fields, presence, j)
    ensures Presence(fields, vs, |fields|) == presence
  {
    MarksUpTo(fields, vs, presence, |fields|);
  }

  lemma {:induction false} MarksUpTo(fields: seq<Field>, vs: seq<Option<Value>>, presence: BitSeq, i: nat)
    requires i <= |fields| == |vs| && |presence| == OptionalCount(fields) <= 64
    requires forall j | 0 <= j < |fields| :: vs[j].Some? <==> Marked(fields, presence, j)
    ensures OptionalBefore(fields, i) <= |presence| && Presence(fields, vs, i) == presence[..OptionalBefore(fields, i)]
  {
    OptionalMonotone(fields, i, |fields|);
    if i > 0 {
      MarksUpTo(fields, vs, presence, i - 1);
      if fields[i - 1].params.optional { MarkBit(fields, presence, i - 1); }
      hide Marked, OptionalCount;
    }
  }

  lemma MarkBit(fields: seq<Field>, presence: BitSeq, i: nat)
    requires i < |fields| && |presence| == OptionalCount(fields) <= 64 && fields[i].params.optional
    ensures OptionalBefore(fields, i) < |presence| && (Marked(fields, presence, i) <==> presence[OptionalBefore(fields, i)])
  {
    OptionalMonotone(fields, i, |fields|);
  }

  lemma {:induction false} FieldsAllRead(ats: seq<nat>, d: BitSeq, fields: seq<Field>, vs: seq<Option<Value>>, i: nat)
    requires i <= |fields| == |vs| == |ats| - 1 && OptionalCount(fields) <= 64 && ats[i] <= |d|
    requires FieldsReadAt(ats, d, fields, vs, i)
    ensures GetFields(d, ats[i], fields, Presence(fields, vs, |fields|), vs[..i]) == Got(SequenceValue(vs), ats[|fields|])
    decreases |fields| - i
  {
    var presence := Presence(fields, vs, |fields|);
    if i == |fields| {
      assert vs[..i] == vs;
      AllRead(d, ats[i], fields, presence, vs);
    } else {
      MarkedIs(fields, vs, i);
      hide GetFields, GetField, Marked, FieldParams, Presence, OptionalCount;
      assert FieldReadAt(d, ats[i], fields, vs, i, ats[i + 1]);
      FieldStepRead(d, ats[i], fields, presence, vs[..i], vs[i], ats[i + 1]);
      assert vs[..i] + [vs[i]] == vs[..i + 1];
      hide FieldReadAt;
      FieldsAllRead(ats, d, fields, vs, i + 1);
    }
  }

  /** A CHOICE none of whose alternatives is OPTIONAL: the index and the alternative under its own tag. */
  lemma ChoiceReadLayout(d: BitSeq, pos: nat, alts: seq<Field>, p: Params, sizeExt: bool, valueExt: bool)
    requires pos <= |d| && !p.openType && OptionalCount(alts) == 0
    ensures
      var index := GetChoiceIndex(d, pos, valueExt, p.valueUpperBound);
      var r := GetBody(d, pos, ChoiceType(alts), p, sizeExt, valueExt);
      && (index.Fail? ==> r == Fail(PresentZero, index.pos))
      && (index.Got? && index.value > |alts| ==> r == Fail(PresentTooBig, index.pos))
      && (index.Got? && index.value <= |alts| ==>
            var v := GetField(d, index.pos, alts[index.value - 1].ty, alts[index.value - 1].params);
            r == if v.Fail? then Fail(v.error, v.pos) else Got(ChoiceValue(index.value, v.value), v.pos))
  {
    hide GetBody, GetField, GetChoiceIndex, GetPresence, GetOpenType, GetChoice, OptionalCount;
    ChoiceIs(d, pos, ChoiceType(alts), p, sizeExt, valueExt);
    PresenceRead(d, pos, alts);
    AlternativeRead(d, pos, ChoiceType(alts), valueExt, p.valueUpperBound);
  }

  lemma AlternativeRead(d: BitSeq, pos: nat, t: Type, extended: bool, ub: Option<Int64>)
    requires pos <= |d| && t.ChoiceType?
    ensures
      var index := GetChoiceIndex(d, pos, extended, ub);
      var r := GetChoice(d, pos, t, extended, ub);
      && (index.Fail? ==> r == Fail(PresentZero, index.pos))
      && (index.Got? && index.value > |t.alternatives| ==> r == Fail(PresentTooBig, index.pos))
      && (index.Got? && index.value <= |t.alternatives| ==>
            var alt := t.alternatives[index.value - 1];
            var v := GetField(d, index.pos, alt.ty, alt.params);
            r == if v.Fail? then Fail(v.error, v.pos) else Got(ChoiceValue(index.value, v.value), v.pos))
  {
    hide GetField, GetChoiceIndex;
  }

  /** An open type: the first alternative with the reference value, read from the octets of its own; the cursor goes
      past those octets whatever the alternative leaves of them. */
  lemma OpenTypeReadLayout(d: BitSeq, pos: nat, alts: seq<Field>, p: Params, sizeExt: bool, valueExt: bool, k: nat,
      octets: Content, end: nat)
    requires pos <= |d| && p.openType && OptionalCount(alts) == 0 && p.referenceFieldValue.Some?
    requires k < |alts| < 0x7fff_ffff_ffff_ffff && alts[k].params.referenceFieldValue == p.referenceFieldValue
    requires forall j | 0 <= j < k :: alts[j].params.referenceFieldValue != p.referenceFieldValue
    requires GetFragments(d, pos, 0, -1, 8, Content([], 0)) == Got(octets, end)
    ensures
      var v := GetField(Unpack(octets.bytes), 0, alts[k].ty, alts[k].params);
      GetBody(d, pos, ChoiceType(alts), p, sizeExt, valueExt)
      == if v.Fail? then Fail(v.error, end) else Got(ChoiceValue(k + 1, v.value), end)
  {
    hide GetBody, GetField, GetFragments, GetPresence, GetChoice, Unpack, MatchingAlternative, OptionalCount;
    ChoiceIs(d, pos, ChoiceType(alts), p, sizeExt, valueExt);
    PresenceRead(d, pos, alts);
    var present := MatchingAlternative(alts, p.referenceFieldValue.value, 0);
    assert present == k + 1;
    assert WrapInt64(k + 1) == k + 1;
  }
}
