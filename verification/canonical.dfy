/** The other direction: which of the inputs the decoder accepts are those the encoder writes. */
module CanonicalForms {
  import opened Bits
  import opened Common
  import opened BitCopy
  import opened Encoding
  import opened Decoding
  import opened RoundTrip
  import opened IntegerRoundTrip
  import opened WholeValue

  // ---------- numbers ----------

  /** A number read from up to 64 bits is written as those bits. */
  lemma ValueCanonical(d: BitSeq, pos: nat, n: nat)
    requires pos <= |d| && n <= 64 && GetValue(d, pos, n).Got?
    ensures PutValue(d[..pos], GetValue(d, pos, n).value, n) == Ok(d[..pos + n])
  {
    ReadNumber(d, pos, n);
    WrittenNumber(d[..pos], d[pos..pos + n]);
    hide PutValue, GetValue, ToNat;
    assert d[..pos + n] == d[..pos] + d[pos..pos + n];
  }

  lemma ReadNumber(d: BitSeq, pos: nat, n: nat)
    requires pos <= |d| && n <= 64 && GetValue(d, pos, n).Got?
    ensures 0 < n <= |d| - pos && GetValue(d, pos, n).value == ToNat(d[pos..pos + n])
  {
    hide ToNat, Pow2;
    ToNatBound(d[pos..pos + n]);
    Pow2Values();
    Pow2Monotone(n, 64);
  }

  lemma WrittenNumber(s: BitSeq, bits: BitSeq)
    requires bits != []
    ensures PutValue(s, ToNat(bits), |bits|) == Ok(s + bits)
  {
    hide ToNat, FromNat, Pow2;
    ToNatBound(bits);
    FromNatToNat(bits);
  }

  /** Padding the decoder skips is the encoder's. */
  lemma AlignCanonical(d: BitSeq, pos: nat)
    requires pos <= |d| && SkipAlign(d, pos).Got?
    ensures Align(d[..pos]) == d[..SkipAlign(d, pos).pos]
  {
    hide GetValue;
    if pos % 8 == 0 {
      AlignedAlready(d[..pos]);
    } else {
      var k := 8 - pos % 8;
      ZeroBits(d, pos, k);
      assert (8 - pos % 8) % 8 == k;
    }
  }

  lemma ZeroBits(d: BitSeq, pos: nat, k: nat)
    requires pos <= |d| && 0 < k <= 8 && GetValue(d, pos, k).Got? && GetValue(d, pos, k).value == 0
    ensures d[..pos + k] == d[..pos] + Zeros(k)
  {
    hide GetValue;
    ValueCanonical(d, pos, k);
    FromNatZero(k);
  }

  /** A constrained whole number has one encoding: nothing but what the encoder writes is accepted. */
  lemma ConstrainedCanonical(d: BitSeq, pos: nat, range: int)
    requires pos <= |d| && GetConstrained(d, pos, range).Got?
    ensures PutConstrained(d[..pos], range, GetConstrained(d, pos, range).value) == Ok(d[..GetConstrained(d, pos, range).pos])
  {
    hide GetValue, SkipAlign, PutValue, Align, Width;
    if range <= 255 {
      ValueCanonical(d, pos, Width(range));
    } else {
      AlignCanonical(d, pos);
      ValueCanonical(d, SkipAlign(d, pos).pos, if range == 256 then 8 else 16);
    }
  }

  /** A length that takes no more octets than it needs. */
  predicate FewestOctets(d: BitSeq, pos: nat, sizeRange: int)
    requires pos <= |d|
  {
    var length := GetLength(d, pos, sizeRange);
    length.Got? && (Bounded(sizeRange) || length.value.n >= 128 || length.pos == SkipAlign(d, pos).pos + 8)
  }

  /** A length determinant is the encoder's unless it takes two octets for what one holds. */
  lemma LengthCanonical(d: BitSeq, pos: nat, sizeRange: int)
    requires pos <= |d| && GetLength(d, pos, sizeRange).Got?
    ensures
      var length := GetLength(d, pos, sizeRange);
      PutLength(d[..pos], sizeRange, length.value.n) == Ok(d[..length.pos]) <==> FewestOctets(d, pos, sizeRange)
  {
    hide GetValue, SkipAlign, PutValue, Align, GetConstrained, PutConstrained;
    if Bounded(sizeRange) {
      ConstrainedCanonical(d, pos, sizeRange);
    } else {
      AlignCanonical(d, pos);
      var p0 := SkipAlign(d, pos).pos;
      ValueCanonical(d, p0, 8);
      var first := GetValue(d, p0, 8).value;
      OctetRead(d, p0);
      if 128 <= first < 192 {
        TwoOctets(d, p0);
        LongForm(first, GetValue(d, p0 + 8, 8).value);
      } else if first >= 192 {
        FragmentForm(first);
      }
    }
  }

  lemma OctetRead(d: BitSeq, pos: nat)
    requires pos <= |d| && GetValue(d, pos, 8).Got?
    ensures GetValue(d, pos, 8).pos == pos + 8 <= |d| && GetValue(d, pos, 8).value < 256
  {
    Pow2Values();
  }

  lemma LongForm(first: nat, second: nat)
    requires 128 <= first < 192 && second < 256
    ensures first % 64 * 256 + second <= 16383 && first % 64 * 256 + second + 0x8000 == first * 256 + second
  {}

  lemma FragmentForm(first: nat)
    requires 192 <= first < 256
    ensures 16384 * (first % 64) / 16384 == first % 64 && OrC0(first % 64) == first
  {}

  lemma TwoOctets(d: BitSeq, p0: nat)
    requires p0 <= |d| && GetValue(d, p0, 8).Got? && p0 + 8 <= |d| && GetValue(d, p0 + 8, 8).Got?
    ensures p0 + 16 <= |d| && GetValue(d, p0 + 8, 8).value < 256
    ensures PutValue(d[..p0], GetValue(d, p0, 8).value * 256 + GetValue(d, p0 + 8, 8).value, 16) == Ok(d[..p0 + 16])
  {
    hide ToNat, PutValue, GetValue, Pow2;
    OctetRead(d, p0 + 8);
    ReadNumber(d, p0, 8);
    ReadNumber(d, p0 + 8, 8);
    var high, low, bits := d[p0..p0 + 8], d[p0 + 8..p0 + 16], d[p0..p0 + 16];
    assert bits == high + low && d[..p0 + 16] == d[..p0] + bits;
    ToNatAppend(high, low);
    Pow2Values();
    WrittenNumber(d[..p0], bits);
  }

  // ---------- INTEGER ----------

  /** The octet count the decoder finds before an integer that has one. */
  function CountRead(d: BitSeq, pos: nat, range: Int64): nat
    requires pos <= |d|
    requires range <= 0 || range > 65536
  {
    if range <= 0 then
      var p0 := SkipAlign(d, pos).pos;
      var n := GetValue(d, p0, 8);
      if n.Got? then n.value else 0
    else
      var n := GetValue(d, pos, Width(GetByteLen(1, range - 1)));
      if n.Got? then n.value + 1 else 0
  }

  /** An integer read from as many octets as the encoder would use is written as those octets, unless the decoder
      added a lower bound to two's complement, which it does not to a negative number. */
  lemma OctetsCanonical(d: BitSeq, pos: nat, n: nat, value: Int64, low: Int64, range: Int64)
    requires pos <= |d| && 1 <= n <= 8 && GetRawInteger(d, pos, n, low, range) == Got(value, pos + 8 * n)
    requires range < 0 ==> FitsSigned(value, n)
    requires Pow2(8 * n) > 0 && value % Pow2(8 * n) >= 0
    ensures (if range < 0 then PutValue(d[..pos], value % Pow2(8 * n), 8 * n) else PutValue(d[..pos], WrapUint64(value - low), 8 * n))
              == Ok(d[..pos + 8 * n])
            <==> (range < 0 && low != 0 ==> d[pos])
  {
    hide GetValue, PutValue, Pow2, FitsSigned, Signed, WrapInt64, WrapUint64;
    ValueCanonical(d, pos, 8 * n);
    var raw := GetValue(d, pos, 8 * n).value;
    RawBound(d, pos, n);
    if range >= 0 {
      OffsetCanonical(raw, low);
    } else {
      FirstBit(d, pos, 8 * n);
      if d[pos] || low == 0 {
        SignedCanonical(raw, n);
      } else if PutValue(d[..pos], value % Pow2(8 * n), 8 * n) == Ok(d[..pos + 8 * n]) {
        SignWritten(d, pos, n, value);
        SumWraps(value, low);
      }
    }
  }

  lemma RawBound(d: BitSeq, pos: nat, n: nat)
    requires pos <= |d| && 1 <= n <= 8 && GetValue(d, pos, 8 * n).Got?
    ensures GetValue(d, pos, 8 * n).value < TWO_64 && GetValue(d, pos, 8 * n).value < Pow2(8 * n)
    ensures pos < |d| && pos + 8 * n <= |d|
  {
    hide ToNat, Pow2;
  }

  /** Two's complement begins with its sign. */
  lemma SignWritten(d: BitSeq, pos: nat, n: nat, value: Int64)
    requires pos < |d| && 1 <= n <= 8 && pos + 8 * n <= |d| && FitsSigned(value, n)
    requires Pow2(8 * n) > 0 && value % Pow2(8 * n) >= 0
    requires PutValue(d[..pos], value % Pow2(8 * n), 8 * n) == Ok(d[..pos + 8 * n])
    ensures GetValue(d, pos, 8 * n) == Got(value % Pow2(8 * n), pos + 8 * n)
    ensures d[pos] <==> value < 0
    ensures value >= 0 ==> WrapInt64(GetValue(d, pos, 8 * n).value) == value
  {
    hide GetValue, PutValue, Pow2, FitsSigned, Signed, WrapInt64;
    SignRecovered(value, n);
    ValueBack(d[..pos], value % Pow2(8 * n), 8 * n, d);
    FirstBit(d, pos, 8 * n);
  }

  /** The first of the bits a number is read from is its highest. */
  lemma FirstBit(d: BitSeq, pos: nat, n: nat)
    requires pos <= |d| && 0 < n <= 64 && GetValue(d, pos, n).Got?
    ensures pos < |d| && (GetValue(d, pos, n).value / Pow2(n - 1) % 2 == 1 <==> d[pos])
  {
    ReadNumber(d, pos, n);
    hide GetValue, ToNat, Pow2;
    var rest := d[pos + 1..pos + n];
    assert d[pos..pos + n] == [d[pos]] + rest;
    LeadingBit(d[pos], rest);
  }

  lemma LeadingBit(b: bool, rest: BitSeq)
    ensures ToNat([b] + rest) / Pow2(|rest|) % 2 == 1 <==> b
  {
    hide ToNat, Pow2;
    LeadingValue(b, rest);
    ToNatBound(rest);
    HighBit(Pow2(|rest|), b, ToNat(rest));
  }

  lemma LeadingValue(b: bool, rest: BitSeq)
    ensures ToNat([b] + rest) == if b then Pow2(|rest|) + ToNat(rest) else ToNat(rest)
  {
    hide ToNat, Pow2;
    OneBit(b);
    ToNatAppend([b], rest);
    if b { assert ToNat([b]) == 1; } else { assert ToNat([b]) == 0; }
  }

  lemma OneBit(b: bool)
    ensures ToNat([b]) == if b then 1 else 0
  {
    ToNatSnoc([], b);
    assert [] + [b] == [b];
  }

  lemma HighBit(p: nat, b: bool, r: nat)
    requires r < p
    ensures (if b then p + r else r) / p % 2 == 1 <==> b
  {
    if b { ModUnique(p + r, p, 1, r); } else { ModUnique(r, p, 0, r); }
  }

  lemma OffsetCanonical(raw: nat, low: Int64)
    requires raw < TWO_64
    ensures WrapUint64(WrapInt64(WrapInt64(raw) + low) - low) == raw
  {}

  lemma SignedCanonical(raw: nat, n: nat)
    requires 1 <= n <= 8 && raw < Pow2(8 * n)
    ensures
      var value := if raw / Pow2(8 * n - 1) % 2 == 1 then Signed(raw, n) else WrapInt64(WrapInt64(raw) + 0);
      Pow2(8 * n) > 0 && value % Pow2(8 * n) == raw
  {
    HalfRange(n);
    hide Pow2, WrapInt64;
    HalvesCanonical(raw, Pow2(8 * n - 1));
  }

  lemma HalfRange(n: nat)
    requires 1 <= n <= 8
    ensures Pow2(8 * n) == 2 * Pow2(8 * n - 1) && 0 < 2 * Pow2(8 * n - 1) <= TWO_64
  {
    Pow2Values();
    Pow2Monotone(8 * n, 64);
  }

  /** Two's complement of a number below twice `h`, taken modulo that, is the number. */
  lemma HalvesCanonical(raw: nat, h: nat)
    requires 0 < 2 * h <= TWO_64 && raw < 2 * h
    ensures raw / h % 2 == 1 ==> WrapInt64(raw % h - h) % (2 * h) == raw
    ensures raw / h % 2 != 1 ==> WrapInt64(WrapInt64(raw) + 0) % (2 * h) == raw
  {
    if raw >= h {
      ModUnique(raw, h, 1, raw - h);
      WrapSmall(raw - 2 * h);
      ModUnique(raw - 2 * h, 2 * h, -1, raw);
    } else {
      ModUnique(raw, h, 0, raw);
      WrapSmall(raw);
      ModUnique(raw, 2 * h, 0, raw);
    }
  }

  lemma WrapSmall(x: int)
    requires -0x8000_0000_0000_0000 <= x < 0x8000_0000_0000_0000
    ensures WrapInt64(x) == x
  {}

  /** Whether the octets after a length octet begin with a set bit. */
  predicate SignBitRead(d: BitSeq, pos: nat)
    requires pos <= |d|
  {
    var p0 := SkipAlign(d, pos).pos;
    p0 + 8 < |d| && d[p0 + 8]
  }

  /** An unconstrained or semi-constrained integer is the encoder's exactly when its octet count is the one the
      encoder takes for the value, and no lower bound was added to two's complement. */
  lemma UnboundedCanonical(d: BitSeq, pos: nat, value: Int64, form: IntForm, low: Int64)
    requires pos <= |d| && form.range <= 0 && (form.range == 0 ==> low == form.lb)
    requires GetUnbounded(d, pos, low, form.range).Got? && GetUnbounded(d, pos, low, form.range).value == value
    ensures PutRawInteger(d[..pos], value, form) == Ok(d[..GetUnbounded(d, pos, low, form.range).pos])
            <==> CountRead(d, pos, form.range) == RawLength(value, form.range)
                 && (form.range < 0 && low != 0 ==> SignBitRead(d, pos))
  {
    hide GetValue, SkipAlign, PutValue, Align, GetRawInteger, RawLength, Pow2, FromNat, FitsSigned;
    var p0 := SkipAlign(d, pos).pos;
    var n, m := GetValue(d, p0, 8).value, RawLength(value, form.range);
    AlignCanonical(d, pos);
    OctetRead(d, p0);
    ValueCanonical(d, p0, 8);
    OneOctet(d[..p0], n);
    OneOctet(d[..p0], m);
    AlignedStart(d, pos);
    AlignedAlready(d[..p0] + FromNat(m, 8));
    if n == m {
      Pow2Positive(8 * n);
      ModBound(value, Pow2(8 * n));
      SignedOctetsMinimal(value, form.range);
      OctetsCanonical(d, p0 + 8, n, value, low, form.range);
    }
  }

  /** So is one above a range of 65536, when the two sides give its octet count the same width. */
  lemma CountedCanonical(d: BitSeq, pos: nat, value: Int64, form: IntForm)
    requires pos <= |d| && form.range > 65536 && WidthsMatch(form.range)
    requires GetCounted(d, pos, form.lb, form.range).Got? && GetCounted(d, pos, form.lb, form.range).value == value
    ensures PutRawInteger(d[..pos], value, form) == Ok(d[..GetCounted(d, pos, form.lb, form.range).pos])
            <==> CountRead(d, pos, form.range) == RawLength(value, form.range)
  {
    hide GetValue, SkipAlign, PutValue, Align, GetRawInteger, RawLength, Pow2, FromNat, Width, GetByteLen, PutByteLen;
    OctetCountWidths(form.range);
    var w := Width(PutByteLen(1, form.range - 1));
    var n, m := GetValue(d, pos, w).value, RawLength(value, form.range);
    ValueCanonical(d, pos, w);
    var p0 := GetValue(d, pos, w).pos;
    AlignCanonical(d, p0);
    if n + 1 == m {
      Pow2Positive(8 * m);
      ModBound(value, Pow2(8 * m));
      OctetsCanonical(d, SkipAlign(d, p0).pos, m, value, form.lb, form.range);
    } else if PutRawInteger(d[..pos], value, form) == Ok(d[..GetCounted(d, pos, form.lb, form.range).pos]) {
      OtherCount(d, pos, value, form, w);
    }
  }

  /** The encoder's count is the one it wrote. */
  lemma OtherCount(d: BitSeq, pos: nat, value: Int64, form: IntForm, w: nat)
    requires pos <= |d| && form.range > 65536 && w == Width(PutByteLen(1, form.range - 1))
    requires PutRawInteger(d[..pos], value, form).Ok? && PutRawInteger(d[..pos], value, form).value <= d
    ensures GetValue(d, pos, w).Got? && GetValue(d, pos, w).value + 1 == RawLength(value, form.range)
  {
    hide GetValue, PutValue, Align, RawLength, Width, PutByteLen;
    var m := RawLength(value, form.range);
    var s1 := PutValue(d[..pos], m - 1, w).value;
    PrefixThrough(s1, PutRawInteger(d[..pos], value, form).value, d);
    ValueBack(d[..pos], m - 1, w, d);
  }

  /** When the decoder's width is one bit more, only a count of one that is followed by padding is the encoder's. */
  lemma MiscountedCanonical(d: BitSeq, pos: nat, value: Int64, form: IntForm)
    requires pos <= |d| && form.range > 65536 && !WidthsMatch(form.range)
    requires GetCounted(d, pos, form.lb, form.range).Got? && GetCounted(d, pos, form.lb, form.range).value == value
    ensures PutRawInteger(d[..pos], value, form) == Ok(d[..GetCounted(d, pos, form.lb, form.range).pos])
            <==> CountRead(d, pos, form.range) == RawLength(value, form.range) == 1
                 && (pos + Width(PutByteLen(1, form.range - 1))) % 8 != 0
  {
    hide GetValue, SkipAlign, PutValue, Align, GetRawInteger, RawLength, Pow2, Zeros, Width, GetByteLen, PutByteLen;
    OctetCountWidths(form.range);
    var w := Width(PutByteLen(1, form.range - 1));
    var r := PutRawInteger(d[..pos], value, form);
    if CountRead(d, pos, form.range) == RawLength(value, form.range) == 1 && (pos + w) % 8 != 0 {
      OneBeforePadding(d, pos, w);
      AlignCanonical(d, pos + w + 1);
      Pow2Positive(8);
      ModBound(value, Pow2(8));
      OctetsCanonical(d, SkipAlign(d, pos + w + 1).pos, 1, value, form.lb, form.range);
    } else if r == Ok(d[..GetCounted(d, pos, form.lb, form.range).pos]) {
      MiscountedBack(d[..pos], value, form, d);
      PaddedCount(d, pos, value, form, w);
    }
  }

  /** The encoder's count of one, read with the padding bit after it. */
  lemma PaddedCount(d: BitSeq, pos: nat, value: Int64, form: IntForm, w: nat)
    requires pos <= |d| && form.range > 65536 && !WidthsMatch(form.range) && w == Width(PutByteLen(1, form.range - 1))
    requires PutRawInteger(d[..pos], value, form).Ok? && PutRawInteger(d[..pos], value, form).value <= d
    requires RawLength(value, form.range) == 1 && (pos + w) % 8 != 0
    ensures CountRead(d, pos, form.range) == 1
  {
    hide GetValue, PutValue, Align, RawLength, Width, PutByteLen, GetByteLen;
    OctetCountWidths(form.range);
    var s1 := PutValue(d[..pos], 0, w).value;
    PrefixThrough(Align(s1), PutRawInteger(d[..pos], value, form).value, d);
    PrefixThrough(s1, Align(s1), d);
    PaddingIsZero(s1, d);
    WiderCount(d[..pos], 0, w, d);
  }

  /** A count of none in `w` bits and the padding bit after it are `w + 1` zero bits. */
  lemma OneBeforePadding(d: BitSeq, pos: nat, w: nat)
    requires pos <= |d| && 1 <= w <= 3 && (pos + w) % 8 != 0
    requires GetValue(d, pos, w + 1).Got? && GetValue(d, pos, w + 1).value == 0
    ensures pos + w + 1 <= |d| && GetValue(d, pos, w + 1).pos == pos + w + 1
    ensures PutValue(d[..pos], 0, w) == Ok(d[..pos + w]) && Align(d[..pos + w]) == Align(d[..pos + w + 1])
  {
    hide GetValue, FromNat, Pow2, Align;
    ReadNumber(d, pos, w + 1);
    ZeroBits(d, pos, w + 1);
    FromNatZero(w);
    Pow2Positive(w);
    assert d[..pos + w] == d[..pos] + Zeros(w);
    assert d[..pos + w + 1] == d[..pos + w] + [false];
    AlignOneMore(d[..pos + w]);
  }

  /** The octet count read, when there is one, is that which the encoder takes for the value. */
  predicate IntegerCanonicalHere(d: BitSeq, pos: nat, value: Int64, form: IntForm)
    requires pos <= |d|
  {
    form.range <= 0 || form.range > 65536 ==> CountRead(d, pos, form.range) == RawLength(value, form.range)
  }

  /** The extension bit read, when the tag has one. */
  function ExtensionRead(extensible: bool, extended: bool): (bits: BitSeq)
    ensures |bits| == if extensible then 1 else 0
  {
    if extensible then [extended] else []
  }

  /** An accepted integer is within its bounds, under the extension bit the encoder would choose, in as many octets
      as it would count and with the count as it would write it; and no lower bound was added to two's complement. */
  predicate IntegerIsEncoders(s: BitSeq, d: BitSeq, value: Int64, extended: bool, extensible: bool, lb: Option<Int64>,
      ub: Option<Int64>)
    requires |s| + |ExtensionRead(extensible, extended)| <= |d|
  {
    var r, ext := IntegerForm(value, extensible, lb, ub), ExtensionRead(extensible, extended);
    && r.Ok? && r.value.extension == ext
    && IntegerCanonicalHere(d, |s| + |ext|, value, r.value)
    && (r.value.range > 65536 ==> CountReadable(s, value, r.value))
    && (r.value.range < 0 && !extended && r.value.lb != 0 ==> SignBitRead(d, |s| + |ext|))
  }

  /** The integers accepted that are the encoder's: the decoder looks at no bound, takes any octet count, and either
      value of the extension bit. */
  lemma IntegerCanonical(s: BitSeq, d: BitSeq, extended: bool, extensible: bool, lb: Option<Int64>, ub: Option<Int64>)
    requires ValueUsable(extensible, lb, ub) && (extended ==> extensible)
    requires s + ExtensionRead(extensible, extended) <= d
    requires GetInteger(d, |s| + |ExtensionRead(extensible, extended)|, extended, lb, ub).Got?
    ensures
      var r := GetInteger(d, |s| + |ExtensionRead(extensible, extended)|, extended, lb, ub);
      PutInteger(s, r.value, extensible, lb, ub) == Ok(d[..r.pos])
      <==> IntegerIsEncoders(s, d, r.value, extended, extensible, lb, ub)
  {
    hide PutRawInteger, GetUnbounded, GetCounted, PutConstrained, GetConstrained, RawLength, CountRead, SignBitRead;
    hide WrapUint64, WidthsMatch, Width, PutByteLen;
    var s0 := s + ExtensionRead(extensible, extended);
    var value := GetInteger(d, |s0|, extended, lb, ub).value;
    var form := IntegerForm(value, extensible, lb, ub);
    assert d[..|s0|] == s0;
    if form.Err? {
    } else if form.value.extension != ExtensionRead(extensible, extended) {
      if PutInteger(s, value, extensible, lb, ub) == Ok(d[..GetInteger(d, |s0|, extended, lb, ub).pos]) {
        OtherExtension(s, d, value, extended, extensible, lb, ub);
      }
    } else if 1 < form.value.range <= 65536 {
      ConstrainedCanonical(d, |s0|, form.value.range);
      ConstrainedOffset(GetConstrained(d, |s0|, form.value.range).value, form.value.lb);
    } else if form.value.range <= 0 {
      UnboundedCanonical(d, |s0|, value, form.value, if extended then 0 else form.value.lb);
    } else if form.value.range > 65536 {
      if WidthsMatch(form.value.range) {
        CountedCanonical(d, |s0|, value, form.value);
      } else {
        MiscountedCanonical(d, |s0|, value, form.value);
      }
    }
  }

  /** Nothing written under one extension bit begins with the other. */
  lemma OtherExtension(s: BitSeq, d: BitSeq, value: Int64, extended: bool, extensible: bool, lb: Option<Int64>, ub: Option<Int64>)
    requires ValueUsable(extensible, lb, ub) && (extended ==> extensible) && s + ExtensionRead(extensible, extended) <= d
    requires PutInteger(s, value, extensible, lb, ub).Ok? && PutInteger(s, value, extensible, lb, ub).value <= d
    ensures IntegerForm(value, extensible, lb, ub).value.extension == ExtensionRead(extensible, extended)
  {
    hide PutInteger, IntegerForm;
    IntegerStarts(s, value, extensible, lb, ub);
    var ext := IntegerForm(value, extensible, lb, ub).value.extension;
    if extensible {
      assert (s + ext)[|s|] == PutInteger(s, value, extensible, lb, ub).value[|s|] == d[|s|] == (s + [extended])[|s|];
    }
  }

  /** Three set bits under 0..5 are accepted as 7, which the encoder refuses. */
  lemma OutOfBoundsAccepted()
    ensures GetInteger([true, true, true], 0, false, Some(0), Some(5)) == Got(7, 3)
    ensures PutInteger([], 7, false, Some(0), Some(5)).Err?
  {
    hide GetConstrained, GetUnbounded, GetCounted, PutConstrained, PutRawInteger;
    SixValues();
    ThreeBits();
    hide GetValue;
  }

  lemma SixValues()
    ensures GetConstrained([true, true, true], 0, 6) == GetValue([true, true, true], 0, 3)
  {
    Pow2Values();
    assert WidthFrom(1, 6) == WidthFrom(2, 6) == WidthFrom(3, 6);
    hide GetValue;
  }

  lemma ThreeBits()
    ensures GetValue([true, true, true], 0, 3) == Got(7, 3)
  {
    ToNatSnoc([], true);
    ToNatSnoc([true], true);
    ToNatSnoc([true, true], true);
    assert [] + [true] == [true] && [true] + [true] == [true, true] && [true, true] + [true] == [true, true, true];
    assert ToNat([]) == 0;
    hide ToNat;
    assert [true, true, true][0..3] == [true, true, true];
  }

  /** An integer within its bounds, under a set extension bit and in the form without bounds: accepted, and not what
      the encoder writes. */
  lemma ExtendedWithinBounds(s: BitSeq, value: Int64, lb: Int64, ub: Int64)
    requires lb <= value <= ub && ub - lb < 0xffff_ffff_ffff_ffff
    ensures PutInteger(s + [true], value, false, None, None).Ok?
    ensures
      var d := PutInteger(s + [true], value, false, None, None).value;
      && GetInteger(d, |s| + 1, true, Some(lb), Some(ub)) == Got(value, |d|)
      && PutInteger(s, value, true, Some(lb), Some(ub)) != Ok(d)
  {
    hide PutInteger, GetUnbounded, Octets, RawLength;
    AlwaysWritten(s + [true], value, false, None, None);
    var d := PutInteger(s + [true], value, false, None, None).value;
    IntegerBack(s + [true], value, false, None, None, d);
    assert d[..|d|] == d;
    IntegerCanonical(s, d, true, true, Some(lb), Some(ub));
  }

  lemma ConstrainedOffset(raw: nat, lb: Int64)
    requires raw < 65536
    ensures WrapUint64(WrapInt64(raw + lb) - lb) == raw
  {}

  lemma AlignedStart(d: BitSeq, pos: nat)
    requires pos <= |d| && SkipAlign(d, pos).Got?
    ensures SkipAlign(d, pos).pos % 8 == 0
  {
    hide GetValue;
  }

  // ---------- ENUMERATED, CHOICE index, SEQUENCE OF count ----------

  /** The decoder does not look at the bounds of an ENUMERATED; within them what it accepts is the encoder's. */
  lemma EnumeratedCanonical(s: BitSeq, d: BitSeq, extensible: bool, lb: Option<Int64>, ub: Option<Int64>)
    requires s + Extension(extensible) <= d && GetEnumerated(d, |s + Extension(extensible)|, false, lb, ub).Got?
    ensures
      var r := GetEnumerated(d, |s + Extension(extensible)|, false, lb, ub);
      PutEnumerated(s, r.value, extensible, lb, ub) == Ok(d[..r.pos]) <==> lb.value <= WrapInt64(r.value) <= ub.value
  {
    hide PutConstrained, GetConstrained;
    var s0 := s + Extension(extensible);
    assert d[..|s0|] == s0;
    assert s0 == if extensible then s + [false] else s;
    var range := WrapInt64(ub.value - lb.value + 1);
    if range > 1 { ConstrainedCanonical(d, |s0|, range); }
  }

  /** Nor at the upper bound of a CHOICE index, which the encoder looks at when the CHOICE is extensible. */
  lemma ChoiceIndexCanonical(d: BitSeq, pos: nat, extensible: bool, ub: Option<Int64>)
    requires pos <= |d| && GetChoiceIndex(d, pos, false, ub).Got?
    ensures
      var r := GetChoiceIndex(d, pos, false, ub);
      PutChoiceIndex(d[..pos], r.value, extensible, ub) == Ok(d[..r.pos]) <==> extensible ==> r.value <= ub.value + 1
  {
    hide PutConstrained, GetConstrained;
    ConstrainedCanonical(d, pos, WrapInt64(ub.value + 1));
  }

  /** Nor at those of a count, under either extension bit; and a count that could not be read, with which it goes on
      as if it were the lower bound, is never the encoder's. */
  lemma CountCanonical(s: BitSeq, d: BitSeq, extended: bool, extensible: bool, lb: Option<Size>, ub: Option<Size>)
    requires CountUsable(extensible, ub) && (extended ==> extensible)
    requires s + ExtensionRead(extensible, extended) <= d
    requires GetCount(d, |s| + |ExtensionRead(extensible, extended)|, extended, lb, ub).Got?
    ensures
      var r := GetCount(d, |s| + |ExtensionRead(extensible, extended)|, extended, lb, ub);
      PutCount(s, r.value.n, extensible, lb, ub) == Ok(d[..r.pos])
      <==> r.value.pending.None? && CountInBounds(r.value.n, extended, lb, ub)
  {
    hide PutConstrained, GetConstrained, Align, SkipAlign, GetValue, PutValue, FromNat, CountInBounds;
    var s0 := s + ExtensionRead(extensible, extended);
    assert d[..|s0|] == s0;
    var r := GetCount(d, |s0|, extended, lb, ub);
    var n := r.value.n;
    if PutCount(s, n, extensible, lb, ub) == Ok(d[..r.pos]) {
      WrittenCount(s, d, n, extended, extensible, lb, ub);
    } else if CountInBounds(n, extended, lb, ub) {
      CountForms(n, extended, extensible, lb, ub);
      var range := CountForm(n, extensible, lb, ub).value.sizeRange;
      if range > 1 && r.value.pending.None? {
        ConstrainedCanonical(d, |s0|, range);
      } else if range <= 0 {
        OctetCanonical(d, |s0|);
      }
    }
  }

  /** Whatever is read of a count the encoder wrote under that extension bit, it is in bounds and no error is pending. */
  lemma WrittenCount(s: BitSeq, d: BitSeq, n: nat, extended: bool, extensible: bool, lb: Option<Size>, ub: Option<Size>)
    requires CountUsable(extensible, ub) && (extended ==> extensible) && s + ExtensionRead(extensible, extended) <= d
    requires PutCount(s, n, extensible, lb, ub).Ok? && PutCount(s, n, extensible, lb, ub).value <= d
    ensures CountInBounds(n, extended, lb, ub)
    ensures
      var r := GetCount(d, |s| + |ExtensionRead(extensible, extended)|, extended, lb, ub);
      r.Got? ==> r.value.pending.None?
  {
    hide PutConstrained, GetConstrained, Align, SkipAlign, GetValue, FromNat, CountInBounds;
    WrittenInBounds(s, d, n, extended, extensible, lb, ub);
    CountForms(n, extended, extensible, lb, ub);
    var form := CountForm(n, extensible, lb, ub).value;
    if form.sizeRange > 1 {
      ConstrainedBack(s + form.extension, form.sizeRange, n - form.lb, d);
    }
  }

  /** A count under the extension bit that goes with its bounds is written in the form in which it is read. */
  lemma CountForms(n: nat, extended: bool, extensible: bool, lb: Option<Size>, ub: Option<Size>)
    requires CountUsable(extensible, ub) && (extended ==> extensible) && CountInBounds(n, extended, lb, ub)
    ensures
      var low := if lb.Some? && lb.value < 65536 then lb.value else 0;
      var range := if !extended && ub.Some? && ub.value < 65536 then ub.value - low + 1 else -1;
      n >= low && CountForm(n, extensible, lb, ub) == Ok(SizeForm(range, low, ExtensionRead(extensible, extended)))
  {}

  /** Only such counts are written under that bit. */
  lemma WrittenInBounds(s: BitSeq, d: BitSeq, n: nat, extended: bool, extensible: bool, lb: Option<Size>, ub: Option<Size>)
    requires CountUsable(extensible, ub) && (extended ==> extensible) && s + ExtensionRead(extensible, extended) <= d
    requires PutCount(s, n, extensible, lb, ub).Ok? && PutCount(s, n, extensible, lb, ub).value <= d
    ensures CountInBounds(n, extended, lb, ub)
  {
    hide PutConstrained, FromNat, Align;
    var form := CountForm(n, extensible, lb, ub).value;
    PrefixThrough(s + form.extension, PutCount(s, n, extensible, lb, ub).value, d);
    if extensible {
      assert (s + form.extension)[|s|] == d[|s|] == (s + [extended])[|s|];
    }
  }

  /** An aligned octet is the encoder's. */
  lemma OctetCanonical(d: BitSeq, pos: nat)
    requires pos <= |d| && SkipAlign(d, pos).Got? && GetValue(d, SkipAlign(d, pos).pos, 8).Got?
    ensures
      var n := GetValue(d, SkipAlign(d, pos).pos, 8);
      n.value < 256 && Align(d[..pos]) + FromNat(n.value, 8) == d[..n.pos]
  {
    hide GetValue, SkipAlign, PutValue, Align, FromNat;
    AlignCanonical(d, pos);
    var p0 := SkipAlign(d, pos).pos;
    OctetRead(d, p0);
    ValueCanonical(d, p0, 8);
    OneOctet(d[..p0], GetValue(d, p0, 8).value);
  }

  /** At least the lower bound, and above the upper one exactly under the extension bit. */
  predicate CountInBounds(n: nat, extended: bool, lb: Option<Size>, ub: Option<Size>) {
    var low := if lb.Some? && lb.value < 65536 then lb.value else 0;
    low <= n && (ub.Some? && ub.value < 65536 ==> if extended then n > ub.value else n <= ub.value)
  }
}
