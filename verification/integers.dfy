/** Reading back INTEGER and ENUMERATED values, CHOICE indices and SEQUENCE OF counts. */
module IntegerRoundTrip {
  import opened Bits
  import opened Common
  import opened BitCopy
  import opened Encoding
  import opened Decoding
  import opened RoundTrip

  // ---------- octet counts ----------

  lemma {:induction false} OctetsExact(u: nat)
    ensures u < Pow2(8 * Octets(u))
    ensures Octets(u) > 0 ==> Pow2(8 * (Octets(u) - 1)) <= u
  {
    if u == 0 {
      Pow2Values();
    } else {
      var k := Octets(u / 256);
      OctetsExact(u / 256);
      OctetPower(k);
      if k > 0 { OctetPower(k - 1); }
      hide Pow2;
      assert u / 256 == 0 ==> k == 0;
    }
  }

  lemma OctetPower(k: nat)
    ensures Pow2(0) == 1 && Pow2(8 * (k + 1)) == 256 * Pow2(8 * k)
  {
    Pow2Add(8 * k, 8);
    Pow2Values();
  }

  /** The range of `n` octets of two's complement. */
  predicate FitsSigned(value: int, n: nat)
    requires n >= 1
  {
    -(Pow2(8 * n - 1) as int) <= value < Pow2(8 * n - 1)
  }

  /** Section 10.8 of X.691: an unconstrained integer takes the fewest octets of two's complement. */
  lemma SignedOctetsMinimal(value: Int64, range: Int64)
    requires range <= 0
    ensures FitsSigned(value, RawLength(value, range))
    ensures forall m | 1 <= m < RawLength(value, range) :: !FitsSigned(value, m)
  {
    hide Octets, Pow2;
    var u := Magnitude(value) / 128;
    var k := Octets(u);
    OctetsExact(u);
    Pow2Values();
    Pow2Add(8 * k, 7);
    if k > 0 {
      Pow2Add(8 * (k - 1), 7);
      assert 8 * (k - 1) + 7 == 8 * k - 1;
      var p := Pow2(8 * (k - 1));
      assert Pow2(8 * k - 1) == p * 128;
      assert Magnitude(value) >= Pow2(8 * k - 1);
      forall m | 1 <= m < k + 1 ensures !FitsSigned(value, m) {
        Pow2Monotone(8 * m - 1, 8 * k - 1);
      }
    }
  }

  /** A range above 65536 takes the fewest unsigned octets, at least one. */
  lemma UnsignedOctetsMinimal(value: Int64, range: Int64)
    requires range > 65536 && value >= 0
    ensures value < Pow2(8 * RawLength(value, range))
    ensures forall m: nat | 1 <= m < RawLength(value, range) :: value >= Pow2(8 * m)
  {
    hide Octets, Pow2;
    var u := value / 256;
    var k := Octets(u);
    OctetsExact(u);
    OctetPower(k);
    if k > 0 {
      OctetPower(k - 1);
      forall m: nat | 1 <= m < k + 1 ensures value >= Pow2(8 * m) {
        Pow2Monotone(8 * m, 8 * k);
      }
    }
  }

  // ---------- the width of the octet count ----------

  /** The ranges for which both sides give the octet count the same width. */
  predicate WidthsMatch(range: int) {
    !(0x1_0000 <= range - 1 < 0x2_0000) && !(0x1_0000_0000 <= range - 1 < 0x2_0000_0000)
  }

  lemma PutByteLenIs(u: nat)
    requires 0x1_0000 <= u < 0x8000_0000_0000_0000
    ensures PutByteLen(1, u) == if u < 0x2_0000 then 2 else if u < 0x200_0000 then 3 else if u < 0x2_0000_0000 then 4
                                else if u < 0x200_0000_0000 then 5 else if u < 0x2_0000_0000_0000 then 6
                                else if u < 0x200_0000_0000_0000 then 7 else 8
  {
    var u1 := u / 256; var u2 := u1 / 256; var u3 := u2 / 256; var u4 := u3 / 256;
    var u5 := u4 / 256; var u6 := u5 / 256; var u7 := u6 / 256;
    assert PutByteLen(1, u) == PutByteLen(2, u1);
    if u2 > 1 { assert PutByteLen(2, u1) == PutByteLen(3, u2); }
    if u3 > 1 { assert PutByteLen(3, u2) == PutByteLen(4, u3); }
    if u4 > 1 { assert PutByteLen(4, u3) == PutByteLen(5, u4); }
    if u5 > 1 { assert PutByteLen(5, u4) == PutByteLen(6, u5); }
    if u6 > 1 { assert PutByteLen(6, u5) == PutByteLen(7, u6); }
    if u7 > 1 { assert PutByteLen(7, u6) == PutByteLen(8, u7); }
  }

  lemma GetByteLenIs(u: nat)
    requires 0x1_0000 <= u < 0x8000_0000_0000_0000
    ensures GetByteLen(1, u) == if u < 0x100_0000 then 3 else if u < 0x1_0000_0000 then 4
                                else if u < 0x100_0000_0000 then 5 else if u < 0x1_0000_0000_0000 then 6
                                else if u < 0x100_0000_0000_0000 then 7 else 8
  {
    var u1 := u / 256; var u2 := u1 / 256; var u3 := u2 / 256; var u4 := u3 / 256;
    var u5 := u4 / 256; var u6 := u5 / 256; var u7 := u6 / 256;
    assert GetByteLen(1, u) == GetByteLen(2, u1);
    assert GetByteLen(2, u1) == GetByteLen(3, u2);
    if u3 > 0 { assert GetByteLen(3, u2) == GetByteLen(4, u3); }
    if u4 > 0 { assert GetByteLen(4, u3) == GetByteLen(5, u4); }
    if u5 > 0 { assert GetByteLen(5, u4) == GetByteLen(6, u5); }
    if u6 > 0 { assert GetByteLen(6, u5) == GetByteLen(7, u6); }
    if u7 > 0 { assert GetByteLen(7, u6) == GetByteLen(8, u7); }
  }

  lemma SmallWidths()
    ensures Width(2) == 1 && Width(3) == 2 && Width(4) == 2
    ensures Width(5) == 3 && Width(6) == 3 && Width(7) == 3 && Width(8) == 3
  {
    Pow2Values();
    assert WidthFrom(1, 2) == 1;
    assert WidthFrom(1, 3) == WidthFrom(2, 3) == 2 && WidthFrom(1, 4) == WidthFrom(2, 4) == 2;
    assert WidthFrom(1, 5) == WidthFrom(2, 5) == WidthFrom(3, 5) == 3;
    assert WidthFrom(1, 6) == WidthFrom(2, 6) == WidthFrom(3, 6) == 3;
    assert WidthFrom(1, 7) == WidthFrom(2, 7) == WidthFrom(3, 7) == 3;
    assert WidthFrom(1, 8) == WidthFrom(2, 8) == WidthFrom(3, 8) == 3;
  }

  /** The two loops disagree on the width exactly in two families of ranges, and then by one bit. */
  lemma OctetCountWidths(range: Int64)
    requires range > 65536
    ensures Width(GetByteLen(1, range - 1)) == Width(PutByteLen(1, range - 1)) + (if WidthsMatch(range) then 0 else 1)
    ensures Width(PutByteLen(1, range - 1)) <= 3
  {
    hide Width, PutByteLen, GetByteLen;
    PutByteLenIs(range - 1);
    GetByteLenIs(range - 1);
    SmallWidths();
  }

  // ---------- two's complement ----------

  lemma SignRecovered(value: Int64, n: nat)
    requires 1 <= n <= 8 && FitsSigned(value, n)
    ensures
      var raw := value % Pow2(8 * n);
      && 0 <= raw < TWO_64
      && raw < Pow2(8 * n)
      && (raw / Pow2(8 * n - 1) % 2 == 1 <==> value < 0)
      && (value < 0 ==> Signed(raw, n) == value)
      && (value >= 0 ==> WrapInt64(raw) == value)
  {
    var h := Pow2(8 * n - 1);
    assert Pow2(8 * n) == 2 * h;
    assert 2 * h <= TWO_64 by {
      Pow2Values();
      Pow2Monotone(8 * n, 64);
    }
    hide Pow2;
    if value >= 0 {
      ModUnique(value, 2 * h, 0, value);
      ModUnique(value, h, 0, value);
      ModUnique(value, TWO_64, 0, value);
    } else {
      var raw := value + 2 * h;
      ModUnique(value, 2 * h, -1, raw);
      ModUnique(raw, h, 1, raw - h);
      ModUnique(value, TWO_64, -1, value + TWO_64);
    }
  }

  lemma OffsetRecovered(value: Int64, lb: Int64)
    ensures WrapInt64(WrapInt64(WrapUint64(value - lb)) + lb) == value
  {}

  lemma ModBound(x: int, m: nat)
    requires m > 0
    ensures 0 <= x % m < m
  {}

  /** The octets of an integer, once their count is known: written at `s`, read back unless a lower
      bound is added to a value that was written as two's complement. */
  lemma RawOctetsBack(s: BitSeq, value: Int64, n: nat, lb: Int64, range: Int64, r: Result<BitSeq>, d: BitSeq)
    requires 1 <= n <= 8 && (range < 0 ==> FitsSigned(value, n))
    requires Pow2(8 * n) > 0 && value % Pow2(8 * n) >= 0
    requires r == if range < 0 then PutValue(s, value % Pow2(8 * n), 8 * n) else PutValue(s, WrapUint64(value - lb), 8 * n)
    requires r.Ok? && r.value <= d
    ensures GetRawInteger(d, |s|, n, lb, range).pos == |r.value| == |s| + 8 * n
    ensures GetRawInteger(d, |s|, n, lb, range)
         == Got(if range < 0 && value >= 0 then WrapInt64(value + lb) else value, |r.value|)
  {
    hide PutValue, GetValue, Signed;
    if range < 0 {
      SignRecovered(value, n);
      ValueBack(s, value % Pow2(8 * n), 8 * n, d);
    } else {
      OffsetRecovered(value, lb);
      ValueBack(s, WrapUint64(value - lb), 8 * n, d);
    }
  }

  // ---------- INTEGER ----------

  /** A value constraint the two sides read alike: an extension marker comes with both bounds. */
  predicate ValueUsable(extensible: bool, lb: Option<Int64>, ub: Option<Int64>) {
    extensible ==> lb.Some? && ub.Some?
  }

  /** The integers the two sides agree on wherever they are written. */
  predicate IntegerAgrees(value: Int64, extensible: bool, lb: Option<Int64>, ub: Option<Int64>) {
    var form := IntegerForm(value, extensible, lb, ub);
    && form.Ok?
    && (form.value.range > 65536 ==> WidthsMatch(form.value.range))
    && SignAgrees(value, form.value)
  }

  /** The integers the two sides agree on where they are written. */
  predicate IntegerAgreesAt(s: BitSeq, value: Int64, extensible: bool, lb: Option<Int64>, ub: Option<Int64>) {
    var form := IntegerForm(value, extensible, lb, ub);
    && form.Ok?
    && (form.value.range > 65536 ==> CountReadable(s, value, form.value))
    && SignAgrees(value, form.value)
  }

  /** A range of 2^63 or more wraps to a negative one: two's complement, but the decoder still adds the lower bound. */
  predicate SignAgrees(value: Int64, form: IntForm) {
    form.range < 0 && form.extension != [true] ==> value < 0 || form.lb == 0
  }

  /** Where the octet count ends, one bit short of an octet or not, decides whether a wider count can be read. */
  predicate CountReadable(s: BitSeq, value: Int64, form: IntForm)
    requires form.range > 65536
  {
    || WidthsMatch(form.range)
    || (RawLength(value, form.range) == 1 && (|s| + |form.extension| + Width(PutByteLen(1, form.range - 1))) % 8 != 0)
  }

  lemma UnboundedBack(s: BitSeq, value: Int64, form: IntForm, d: BitSeq, low: Int64)
    requires form.range <= 0
    requires PutRawInteger(s, value, form).Ok? && PutRawInteger(s, value, form).value <= d
    requires form.range == 0 ==> low == form.lb
    ensures GetUnbounded(d, |s|, low, form.range)
         == Got(if form.range < 0 && value >= 0 then WrapInt64(value + low) else value, |PutRawInteger(s, value, form).value|)
  {
    hide PutValue, GetValue, Align, SkipAlign, GetRawInteger, RawLength, FromNat, FitsSigned;
    var n := RawLength(value, form.range);
    var a := Align(s);
    var s1 := a + FromNat(n, 8);
    var r := PutRawInteger(s, value, form).value;
    SignedOctetsMinimal(value, form.range);
    ModBound(value, Pow2(8 * n));
    assert Align(s1) == s1 by { AlignedAlready(s1); }
    PrefixThrough(s1, r, d);
    PrefixThrough(a, s1, d);
    AlignBack(s, d);
    assert PutValue(a, n, 8) == Ok(s1) by { OneOctet(a, n); }
    ValueBack(a, n, 8, d);
    RawOctetsBack(s1, value, n, low, form.range,
                  if form.range < 0 then PutValue(s1, value % Pow2(8 * n), 8 * n) else PutValue(s1, WrapUint64(value - form.lb), 8 * n), d);
  }

  lemma OneOctet(s: BitSeq, n: nat)
    requires n < 256
    ensures PutValue(s, n, 8) == Ok(s + FromNat(n, 8))
  {
    Pow2Values();
  }

  lemma AlignedAlready(s: BitSeq)
    requires |s| % 8 == 0
    ensures Align(s) == s
  {}

  /** Where the two sides give the octet count the same width. */
  lemma CountedBack(s: BitSeq, value: Int64, form: IntForm, d: BitSeq)
    requires form.range > 65536 && WidthsMatch(form.range)
    requires PutRawInteger(s, value, form).Ok? && PutRawInteger(s, value, form).value <= d
    ensures GetCounted(d, |s|, form.lb, form.range) == Got(value, |PutRawInteger(s, value, form).value|)
  {
    hide PutValue, GetValue, Align, SkipAlign, GetRawInteger, RawLength, Width, PutByteLen, GetByteLen;
    var n := RawLength(value, form.range);
    var w := Width(PutByteLen(1, form.range - 1));
    OctetCountWidths(form.range);
    var s1 := PutValue(s, n - 1, w).value;
    var s2 := Align(s1);
    ModBound(value, Pow2(8 * n));
    PrefixThrough(s2, PutRawInteger(s, value, form).value, d);
    PrefixThrough(s1, s2, d);
    ValueBack(s, n - 1, w, d);
    AlignBack(s1, d);
    RawOctetsBack(s2, value, n, form.lb, form.range, PutValue(s2, WrapUint64(value - form.lb), 8 * n), d);
  }

  /** In the two families of ranges where the widths differ, the decoder sees the count doubled,
      plus the bit that follows it; only a single octet survives that, and only before padding. */
  lemma MiscountedBack(s: BitSeq, value: Int64, form: IntForm, d: BitSeq)
    requires form.range > 65536 && !WidthsMatch(form.range)
    requires PutRawInteger(s, value, form).Ok? && PutRawInteger(s, value, form).value <= d
    ensures GetCounted(d, |s|, form.lb, form.range) == Got(value, |PutRawInteger(s, value, form).value|)
            <==> RawLength(value, form.range) == 1 && (|s| + Width(PutByteLen(1, form.range - 1))) % 8 != 0
  {
    hide PutValue, GetValue, Align, SkipAlign, GetRawInteger, RawLength, Width, PutByteLen, GetByteLen;
    var n := RawLength(value, form.range);
    var w := Width(PutByteLen(1, form.range - 1));
    OctetCountWidths(form.range);
    var s1 := PutValue(s, n - 1, w).value;
    var s2 := Align(s1);
    PrefixThrough(s2, PutRawInteger(s, value, form).value, d);
    PrefixThrough(s1, s2, d);
    WiderCount(s, n - 1, w, d);
    if |s1| % 8 != 0 {
      PaddingIsZero(s1, d);
      SkipRest(s1, d);
      if n == 1 {
        ModBound(value, Pow2(8 * n));
        RawOctetsBack(s2, value, n, form.lb, form.range, PutValue(s2, WrapUint64(value - form.lb), 8 * n), d);
      }
    } else {
      AlignedAlready(s1);
    }
  }

  lemma PaddingIsZero(s: BitSeq, d: BitSeq)
    requires |s| % 8 != 0 && Align(s) <= d
    ensures |s| < |d| && !d[|s|]
  {
    assert d[|s|] == Align(s)[|s|];
  }

  /** Reading one bit more than was written shifts that bit in. */
  lemma WiderCount(s: BitSeq, k: Uint64, w: nat, d: BitSeq)
    requires 1 <= w <= 3 && PutValue(s, k, w).Ok? && PutValue(s, k, w).value <= d && |s| + w < |d|
    ensures GetValue(d, |s|, w + 1) == Got(2 * k + (if d[|s| + w] then 1 else 0), |s| + w + 1)
  {
    hide ToNat, FromNat, Pow2;
    var r := PutValue(s, k, w).value;
    assert r[|s|..] == FromNat(k, w);
    assert d[|s|..|s| + w + 1] == FromNat(k, w) + [d[|s| + w]];
    ToNatSnoc(FromNat(k, w), d[|s| + w]);
    ToNatFromNat(k, w);
    Pow2Values();
    Pow2Monotone(w, 3);
  }

  /** From one bit into the padding, alignment still ends where the writer's does. */
  lemma SkipRest(s: BitSeq, d: BitSeq)
    requires |s| % 8 != 0 && Align(s) <= d
    ensures SkipAlign(d, |s| + 1) == Got((), |Align(s)|)
  {
    AlignOneMore(s);
    hide SkipAlign, Align;
    AlignBack(s + [false], d);
  }

  lemma AlignOneMore(s: BitSeq)
    requires |s| % 8 != 0
    ensures Align(s + [false]) == Align(s)
  {
    var left := 7 - |s| % 8;
    PadOneMore(|s|);
    ZerosOneMore(left);
    hide Zeros;
    assert s + [false] + Zeros(left) == s + ([false] + Zeros(left));
  }

  lemma PadOneMore(n: nat)
    requires n % 8 != 0
    ensures (8 - (n + 1) % 8) % 8 == 7 - n % 8 && (8 - n % 8) % 8 == 8 - n % 8
  {}

  lemma ZerosOneMore(n: nat)
    ensures Zeros(n + 1) == [false] + Zeros(n)
  {}

  /** An INTEGER comes back, and the cursor stops where the encoder did, exactly when its octet count
      can be read and no lower bound is added to a value that was written without one. */
  lemma IntegerBack(s: BitSeq, value: Int64, extensible: bool, lb: Option<Int64>, ub: Option<Int64>, d: BitSeq)
    requires ValueUsable(extensible, lb, ub)
    requires PutInteger(s, value, extensible, lb, ub).Ok? && PutInteger(s, value, extensible, lb, ub).value <= d
    ensures
      var form := IntegerForm(value, extensible, lb, ub).value;
      GetInteger(d, |s| + |form.extension|, form.extension == [true], lb, ub)
        == Got(value, |PutInteger(s, value, extensible, lb, ub).value|)
      <==> SignAgrees(value, form) && (form.range > 65536 ==> CountReadable(s, value, form))
  {
    hide PutRawInteger, GetUnbounded, GetCounted, PutConstrained, GetConstrained, RawLength, Width, PutByteLen;
    hide WrapInt64, WrapUint64, WidthsMatch;
    var form := IntegerForm(value, extensible, lb, ub).value;
    var s0 := s + form.extension;
    if 1 < form.range <= 65536 {
      OffsetRecovered(value, form.lb);
      ConstrainedBack(s0, form.range, WrapUint64(value - form.lb), d);
      SmallOffset(value, form.lb);
    } else if form.range <= 0 {
      var low: Int64 := if form.extension != [true] then form.lb else 0;
      UnboundedBack(s0, value, form, d, low);
      SumWraps(value, low);
    } else if form.range > 65536 {
      if WidthsMatch(form.range) { CountedBack(s0, value, form, d); } else { MiscountedBack(s0, value, form, d); }
    } else {
      OneValue(lb.value, ub.value);
    }
  }

  lemma SumWraps(value: Int64, lb: Int64)
    ensures WrapInt64(value + lb) == value <==> lb == 0
  {}

  lemma OneValue(lb: Int64, ub: Int64)
    requires lb <= ub && WrapInt64(ub - lb + 1) == 1
    ensures lb == ub
  {}

  lemma SmallOffset(value: Int64, lb: Int64)
    requires WrapUint64(value - lb) < 65536
    ensures WrapInt64(WrapUint64(value - lb) + lb) == value
  {}

  /** What an integer is written with has room for it: the octets are counted for the value, and the value less
      its lower bound goes into them; above 65536 the count itself has to fit its width. */
  predicate IntegerFits(value: Int64, form: IntForm) {
    && (form.range == 0 || form.range > 65536 ==> value - form.lb < Pow2(8 * RawLength(value, form.range)))
    && (form.range > 65536 ==> RawLength(value, form.range) <= Pow2(Width(PutByteLen(1, form.range - 1))))
  }

  /** An integer within its bounds is written exactly when it fits, whatever the bounds and wherever it stands. */
  lemma IntegerWritten(s: BitSeq, value: Int64, extensible: bool, lb: Option<Int64>, ub: Option<Int64>)
    ensures PutInteger(s, value, extensible, lb, ub).Ok?
            <==> IntegerForm(value, extensible, lb, ub).Ok? && IntegerFits(value, IntegerForm(value, extensible, lb, ub).value)
  {
    hide PutRawInteger, PutConstrained, IntegerFits, Width, PutByteLen, RawLength;
    var r := IntegerForm(value, extensible, lb, ub);
    if r.Ok? {
      var form := r.value;
      FormRange(value, extensible, lb, ub);
      if 1 < form.range <= 65536 {
        RangeWritten(s + form.extension, form.range, value - form.lb);
        NothingToFit(value, form);
      } else if form.range == 1 {
        NothingToFit(value, form);
      } else {
        RawWritten(s + form.extension, value, form);
      }
    }
  }

  /** The value less the lower bound, in 64 bits, is the difference itself, and a positive range is not wrapped. */
  lemma FormRange(value: Int64, extensible: bool, lb: Option<Int64>, ub: Option<Int64>)
    requires IntegerForm(value, extensible, lb, ub).Ok?
    ensures
      var form := IntegerForm(value, extensible, lb, ub).value;
      && (form.range >= 0 ==> 0 <= value - form.lb && WrapUint64(value - form.lb) == value - form.lb)
      && (form.range > 0 ==> value - form.lb < form.range)
  {}

  lemma NothingToFit(value: Int64, form: IntForm)
    requires 0 < form.range <= 65536
    ensures IntegerFits(value, form)
  {}

  lemma RangeWritten(s: BitSeq, range: int, value: nat)
    requires 0 < range <= 65536 && value < range
    ensures PutConstrained(s, range, value).Ok?
  {
    hide Align, Width;
    Pow2Values();
  }

  lemma RawWritten(s: BitSeq, value: Int64, form: IntForm)
    requires form.range <= 0 || form.range > 65536
    requires form.range >= 0 ==> 0 <= value - form.lb && WrapUint64(value - form.lb) == value - form.lb
    ensures PutRawInteger(s, value, form).Ok? <==> IntegerFits(value, form)
  {
    hide Octets, Width, PutByteLen, RawLength, Align, FromNat, WrapUint64;
    Pow2Positive(8 * RawLength(value, form.range));
    ModBound(value, Pow2(8 * RawLength(value, form.range)));
    hide Pow2;
  }

  lemma Pow2Positive(n: nat)
    ensures Pow2(n) > 0
  {}

  /** Without bounds every integer is written, and so is every one within bounds no more than 65536 apart. */
  lemma AlwaysWritten(s: BitSeq, value: Int64, extensible: bool, lb: Option<Int64>, ub: Option<Int64>)
    requires lb.None? || (ub.Some? && lb.value <= value <= ub.value && ub.value - lb.value < 65536)
    ensures PutInteger(s, value, extensible, lb, ub).Ok?
  {
    hide PutInteger, RawLength, Width, PutByteLen;
    IntegerWritten(s, value, extensible, lb, ub);
  }

  /** From zero on, every integer up to the bound is written when the widths match; in the two
      other families only those whose octet count is within the narrower width. */
  lemma WrittenFromZero(s: BitSeq, value: Int64, extensible: bool, ub: Int64)
    requires 0 <= value <= ub && 65536 <= ub < 0x7fff_ffff_ffff_ffff
    ensures PutInteger(s, value, extensible, Some(0), Some(ub)).Ok?
            <==> WidthsMatch(ub + 1) || RawLength(value, ub + 1) <= Pow2(Width(PutByteLen(1, ub)))
  {
    hide PutInteger, Octets, Width, PutByteLen, RawLength, Pow2;
    UnsignedOctetsMinimal(value, ub + 1);
    if WidthsMatch(ub + 1) { CapacityMatches(value, ub); }
    IntegerWritten(s, value, extensible, Some(0), Some(ub));
  }

  lemma CapacityMatches(value: Int64, ub: Int64)
    requires 0 <= value <= ub && 65536 <= ub < 0x7fff_ffff_ffff_ffff && WidthsMatch(ub + 1)
    ensures RawLength(value, ub + 1) <= Pow2(Width(PutByteLen(1, ub)))
  {
    hide Octets, Width, PutByteLen;
    PutByteLenIs(ub);
    SmallWidths();
    Pow2Values();
    Pow2Add(16, 8);
    if ub < 0x100_0000 {
      OctetsBound(value / 256, 2);
    } else if ub < 0x1_0000_0000 {
      OctetsBound(value / 256, 3);
    }
  }

  // ---------- ENUMERATED, CHOICE index, SEQUENCE OF count ----------

  /** A range of one value carries no bits and is read as zero. */
  predicate EnumeratedAgrees(value: Uint64, lb: Option<Int64>, ub: Option<Int64>) {
    lb.Some? && ub.Some? && (WrapInt64(ub.value - lb.value + 1) > 1 || value == 0)
  }

  lemma EnumeratedBack(s: BitSeq, value: Uint64, extensible: bool, lb: Option<Int64>, ub: Option<Int64>, d: BitSeq)
    requires PutEnumerated(s, value, extensible, lb, ub).Ok? && PutEnumerated(s, value, extensible, lb, ub).value <= d
    ensures GetEnumerated(d, |s| + (if extensible then 1 else 0), false, lb, ub)
              == Got(value, |PutEnumerated(s, value, extensible, lb, ub).value|)
            <==> EnumeratedAgrees(value, lb, ub)
  {
    hide PutConstrained, GetConstrained;
    var range := WrapInt64(ub.value - lb.value + 1);
    if range > 1 {
      ConstrainedBack(if extensible then s + [false] else s, range, value, d);
    }
  }

  lemma ChoiceIndexBack(s: BitSeq, present: Int64, extensible: bool, ub: Option<Int64>, d: BitSeq)
    requires PutChoiceIndex(s, present, extensible, ub).Ok? && PutChoiceIndex(s, present, extensible, ub).value <= d
    ensures GetChoiceIndex(d, |s|, false, ub) == Got(present, |PutChoiceIndex(s, present, extensible, ub).value|)
  {
    hide PutConstrained, GetConstrained;
    ConstrainedBack(s, WrapInt64(ub.value + 1), WrapUint64(present - 1), d);
  }

  /** A SEQUENCE OF count without a usable upper bound is one octet. */
  predicate CountAgrees(n: nat, extensible: bool, lb: Option<Size>, ub: Option<Size>) {
    var form := CountForm(n, extensible, lb, ub);
    form.Ok? && (form.value.sizeRange <= 0 ==> n <= 255)
  }

  /** The extension bit of a count is read whenever the tag says so, written only next to an upper bound below 65536. */
  predicate CountUsable(extensible: bool, ub: Option<Size>) {
    extensible ==> ub.Some? && ub.value < 65536
  }

  lemma CountBack(s: BitSeq, n: nat, extensible: bool, lb: Option<Size>, ub: Option<Size>, d: BitSeq)
    requires CountUsable(extensible, ub)
    requires PutCount(s, n, extensible, lb, ub).Ok? && PutCount(s, n, extensible, lb, ub).value <= d
    ensures
      var extension := CountForm(n, extensible, lb, ub).value.extension;
      GetCount(d, |s| + |extension|, extension == [true], lb, ub)
        == Got(Count(n, None), |PutCount(s, n, extensible, lb, ub).value|)
      <==> CountAgrees(n, extensible, lb, ub)
  {
    hide PutConstrained, GetConstrained, Align, SkipAlign, PutValue, GetValue, FromNat;
    var form := CountForm(n, extensible, lb, ub).value;
    var s0 := s + form.extension;
    if form.sizeRange > 1 {
      ConstrainedBack(s0, form.sizeRange, n - form.lb, d);
    } else if form.sizeRange <= 0 {
      var a := Align(s0);
      PrefixThrough(a, a + FromNat(n % 256, 8), d);
      AlignBack(s0, d);
      OneOctet(a, n % 256);
      ValueBack(a, n % 256, 8, d);
    }
  }
}
