/** The decoder of lib/aper/aper.go: a cursor over received octets. */
module Aper {
  import opened Bits
  import opened Common
  import opened BitCopy
  import opened Encoding
  import opened Decoding
  import opened PresenceMasks
  import opened References

  lemma SuffixBits(bytes: seq<bv8>, k: nat, off: nat, n: nat)
    requires k <= |bytes| && off + n <= 8 * (|bytes| - k)
    ensures Unpack(bytes[k..])[off..off + n] == Unpack(bytes)[8 * k + off..8 * k + off + n]
  {
    UnpackSlice(bytes, k, |bytes|);
    assert bytes[k..|bytes|] == bytes[k..];
  }

  /** The high `m` bits of a byte, as a number. */
  lemma TopBits(b: bv8, m: nat)
    requires 1 <= m <= 7
    ensures ShrByte(b, 8 - m) as nat == ToNat(Unpack([b])[..m]) < Pow2(m)
  {
    hide Unpack, ToNat, ShrByte, Pow2;
    var top := Unpack([b])[..m];
    TopShifted(b, m);
    ByteValue(ShrByte(b, 8 - m));
    ToNatAppend(Zeros(8 - m), top);
    ToNatZeros(8 - m);
    ToNatBound(top);
  }

  lemma TopShifted(b: bv8, m: nat)
    requires 1 <= m <= 7
    ensures Unpack([ShrByte(b, 8 - m)]) == Zeros(8 - m) + Unpack([b])[..m]
  {
    hide Bit, ShrByte, Unpack;
    var want := Zeros(8 - m) + Unpack([b])[..m];
    var bytes := [ShrByte(b, 8 - m)];
    forall j: nat, k: nat | j < 1 && k < 8 ensures Bit(bytes[j], k) == want[8 * j + k] {
      ShrBit(b, 8 - m, k);
      if 8 - m <= k { UnpackAt([b], 0, k - (8 - m)); }
    }
    UnpackIs(bytes, want);
  }

  lemma ShiftInModulo(x: nat, m: nat, y: nat)
    ensures ((x % TWO_64) * m + y) % TWO_64 == (x * m + y) % TWO_64
  {
    var q := x / TWO_64;
    assert x * m + y == TWO_64 * (q * m) + ((x % TWO_64) * m + y) by {
      assert x == TWO_64 * q + x % TWO_64;
      assert (TWO_64 * q + x % TWO_64) * m == TWO_64 * (q * m) + (x % TWO_64) * m;
    }
    var z := (x % TWO_64) * m + y;
    var zq, zr := z / TWO_64, z % TWO_64;
    ModUnique(x * m + y, TWO_64, q * m + zq, zr);
  }

  /** `value << k | low` in 64 bits, where `m` is two to the `k` and `low` is below it. */
  function ShlOr(value: nat, m: nat, low: nat): Uint64 {
    (value * m + low) % TWO_64
  }

  function OctetValue(b: bv8): nat { b as nat }

  /** The high `m` bits of a byte. */
  function TopValue(b: bv8, m: nat): nat
    requires m <= 8
  {
    ShrByte(b, 8 - m) as nat
  }

  lemma NextOctet(dst: seq<bv8>, i: nat)
    requires i < |dst|
    ensures ToNat(Unpack(dst)[..8 * i + 8]) % TWO_64 == ShlOr(ToNat(Unpack(dst)[..8 * i]) % TWO_64, 256, OctetValue(dst[i]))
  {
    hide Unpack, ToNat;
    UnpackSlice(dst, i, i + 1);
    assert dst[i..i + 1] == [dst[i]];
    assert Unpack(dst)[..8 * i + 8] == Unpack(dst)[..8 * i] + Unpack([dst[i]]);
    ToNatAppend(Unpack(dst)[..8 * i], Unpack([dst[i]]));
    ByteValue(dst[i]);
    Pow2Values();
    ShiftInModulo(ToNat(Unpack(dst)[..8 * i]), 256, OctetValue(dst[i]));
  }

  lemma LastOctet(dst: seq<bv8>, m: nat)
    requires 1 <= m <= 7 && |dst| > 0
    ensures
      var i := |dst| - 1;
      ToNat(Unpack(dst)[..8 * i + m]) % TWO_64 == ShlOr(ToNat(Unpack(dst)[..8 * i]) % TWO_64, Pow2(m), TopValue(dst[i], m))
  {
    hide Unpack, ToNat, ShrByte, Pow2;
    var i := |dst| - 1;
    UnpackSlice(dst, i, i + 1);
    assert dst[i..i + 1] == [dst[i]];
    assert Unpack(dst)[..8 * i + m] == Unpack(dst)[..8 * i] + Unpack([dst[i]])[..m];
    ToNatAppend(Unpack(dst)[..8 * i], Unpack([dst[i]])[..m]);
    TopBits(dst[i], m);
    ShiftInModulo(ToNat(Unpack(dst)[..8 * i]), Pow2(m), TopValue(dst[i], m));
  }

  /** Go's `GetBitsValue`: a run of bits as an unsigned 64-bit number. */
  method BitsValueAt(srcBytes: seq<bv8>, bitsOffset: nat, numBits: nat) returns (r: Result<Uint64>)
    requires bitsOffset <= 7 && bitsOffset <= 8 * |srcBytes|
    ensures r == Err(BitsOverflow) <==> bitsOffset + numBits > 8 * |srcBytes|
    ensures r == Err(Panic) <==> numBits == 0
    ensures r.Ok? <==> 0 < numBits <= 8 * |srcBytes| - bitsOffset
    ensures r.Ok? ==> r.value == ToNat(Unpack(srcBytes)[bitsOffset..bitsOffset + numBits]) % TWO_64
  {
    hide Unpack, ToNat, ShlOr, OctetValue, TopValue, Pow2;
    var dst := GetBitString(srcBytes, bitsOffset, numBits);
    if dst.Err? {
      return Err(dst.error);
    }
    var dstBytes := dst.value;
    ghost var bits := Unpack(srcBytes)[bitsOffset..bitsOffset + numBits];
    assert Unpack(dstBytes)[..numBits] == bits;
    var value: Uint64 := 0;
    var i, j := 0, numBits;
    EmptyIsZero(Unpack(dstBytes));
    while j >= 8
      invariant j == numBits - 8 * i && i >= 0 && 8 * i <= numBits
      invariant value == ToNat(Unpack(dstBytes)[..8 * i]) % TWO_64
    {
      NextOctet(dstBytes, i);
      value := ShlOr(value, 256, OctetValue(dstBytes[i])); // value <<= 8; value |= dstBytes[i]
      i, j := i + 1, j - 8;
    }
    var numBitsOff := numBits % 8;
    if numBitsOff != 0 {
      LastOctet(dstBytes, numBitsOff);
      value := ShlOr(value, Pow2(numBitsOff), TopValue(dstBytes[|dstBytes| - 1], numBitsOff));
    }
    return Ok(value);
  }

  lemma EmptyIsZero(s: BitSeq)
    ensures ToNat(s[..0]) == 0
  {}

  lemma NoBits(d: BitSeq, pos: nat)
    requires pos <= |d|
    ensures GetValue(d, pos, 0).Fail?
  {}

  /** Complementing, masking and adding one undoes two's complement. */
  lemma SignFolds(raw: nat, n: nat)
    requires 1 <= n <= 8 && raw / Pow2(8 * n - 1) % 2 == 1
    ensures 0 <= raw % Pow2(8 * n - 1)
    ensures WrapInt64(-(Pow2(8 * n - 1) - 1 - raw % Pow2(8 * n - 1) + 1)) == Signed(raw, n)
  {
    hide Pow2;
    var h := Pow2(8 * n - 1);
    assert 0 <= raw % h;
    assert -(h - 1 - raw % h + 1) == raw % h - h;
  }

  /** An octet read by index is the octet read as eight bits. */
  lemma OctetAt(bytes: seq<bv8>, i: nat)
    requires i < |bytes|
    ensures GetValue(Unpack(bytes), 8 * i, 8) == Got(bytes[i] as nat, 8 * i + 8)
  {
    hide ToNat, Unpack, Pow2;
    UnpackSlice(bytes, i, i + 1);
    assert bytes[i..i + 1] == [bytes[i]];
    var value := bytes[i] as nat;
    ByteValue(bytes[i]);
    assert GetBits(Unpack(bytes), 8 * i, 8) == Got(Unpack([bytes[i]]), 8 * i + 8);
    Pow2Values();
    ToNatBound(Unpack([bytes[i]]));
    SmallMod(value, TWO_64);
  }

  /** Stepping past whole octets and back one when the last is only partly used. */
  lemma StepBack(byteOffset: nat, n: nat, unit: Unit)
    ensures
      var off := BitsOf(n, unit) % 8;
      var end := byteOffset + BytesOf(n, unit);
      && (off > 0 ==> end > 0 && 8 * (end - 1) + off == 8 * byteOffset + BitsOf(n, unit))
      && (off == 0 ==> 8 * end == 8 * byteOffset + BitsOf(n, unit))
  {}

  lemma OctetSlice(bytes: seq<bv8>, i: nat, j: nat)
    requires i <= j <= |bytes|
    ensures Pack(Unpack(bytes)[8 * i..8 * j]) == bytes[i..j]
  {
    hide Unpack, Pack;
    UnpackSlice(bytes, i, j);
    PackUnpack(bytes[i..j]);
  }

  /** A SEQUENCE OF never reads a value extension bit. */
  lemma NoSliceFlag(d: BitSeq, pos: nat, t: Type, p: Params, sizeExt: bool, valueExt: bool)
    requires pos <= |d|
    ensures t.SliceType? ==> GetBody(d, pos, t, p, sizeExt, valueExt) == GetBody(d, pos, t, p, sizeExt, false)
  {}

  /** Testing the mask from its high bit down tests the presence bits in order. */
  lemma MarkRead(fields: seq<Field>, presence: BitSeq, mask: Uint64, i: nat)
    requires |presence| == OptionalCount(fields) && i < |fields| && mask == ToNat(presence) % TWO_64
    ensures !fields[i].params.optional ==> Marked(fields, presence, i)
    ensures fields[i].params.optional ==>
              OptionalBefore(fields, i) < OptionalCount(fields)
              && (MaskBitClear(mask, OptionalCount(fields) - OptionalBefore(fields, i) - 1) <==> !Marked(fields, presence, i))
  {
    hide ToNat, FromNat, Pow2, Shr;
    OptionalMonotone(fields, i, |fields|);
    if fields[i].params.optional {
      var k := OptionalBefore(fields, i);
      MaskKeeps(presence, k);
      FromNatAt(mask, |presence|, k);
    }
  }

  class BitData {
    const bytes: seq<bv8>
    var byteOffset: nat
    var bitsOffset: nat

    /** The cursor is inside the data. */
    ghost predicate Valid()
      reads this
    {
      bitsOffset <= 7 && 8 * byteOffset + bitsOffset <= 8 * |bytes|
    }

    ghost function Pos(): nat
      reads this
    {
      8 * byteOffset + bitsOffset
    }

    /** The bits received. */
    ghost function Data(): (d: BitSeq)
      ensures |d| == 8 * |bytes|
    {
      Unpack(bytes)
    }

    /** The step returned, and left the cursor, as `read` says; the cursor stays inside the data. */
    ghost predicate Did<T>(read: Read<T>, r: Result<T>)
      reads this
    {
      && Valid()
      && Pos() == read.pos
      && match read
         case Got(v, _) => r == Ok(v)
         case Fail(e, _) => r == Err(e)
    }

    constructor (bytes: seq<bv8>)
      ensures this.bytes == bytes && Valid() && Pos() == 0
    {
      this.bytes := bytes;
      byteOffset, bitsOffset := 0, 0;
    }

    method BitCarry()
      modifies this`byteOffset, this`bitsOffset
      ensures bitsOffset <= 7 && Pos() == old(Pos())
    {
      byteOffset := byteOffset + bitsOffset / 8;
      bitsOffset := bitsOffset % 8;
    }

    method GetBitString(numBits: nat) returns (r: Result<seq<bv8>>)
      requires Valid()
      modifies this`byteOffset, this`bitsOffset
      ensures Did(GetPacked(Data(), old(Pos()), numBits), r)
    {
      hide Unpack, Pack, Padded, Bit;
      r := BitCopy.GetBitString(bytes[byteOffset..], bitsOffset, numBits);
      if r.Err? {
        return;
      }
      SuffixBits(bytes, byteOffset, bitsOffset, numBits);
      PackUnpack(r.value);
      bitsOffset := bitsOffset + numBits;
      BitCarry();
    }

    method GetBitsValue(numBits: nat) returns (r: Result<Uint64>)
      requires Valid()
      modifies this`byteOffset, this`bitsOffset
      ensures Did(GetValue(Data(), old(Pos()), numBits), r)
    {
      hide Unpack, ToNat, Bit;
      r := BitsValueAt(bytes[byteOffset..], bitsOffset, numBits);
      if r.Err? {
        return;
      }
      SuffixBits(bytes, byteOffset, bitsOffset, numBits);
      bitsOffset := bitsOffset + numBits;
      BitCarry();
    }

    method ParseAlignBits() returns (r: Result<()>)
      requires Valid()
      modifies this`byteOffset, this`bitsOffset
      ensures Did(SkipAlign(Data(), old(Pos())), r)
    {
      hide GetValue;
      // bitsOffset is at most 7, so there is no whole octet to carry
      if bitsOffset % 8 > 0 {
        var alignBits := 8 - bitsOffset % 8;
        var val := GetBitsValue(alignBits);
        if val.Err? {
          return Err(val.error);
        } else if val.value != 0 {
          return Err(AlignNotZero);
        }
      }
      return Ok(());
    }

    method ParseConstraintValue(valueRange: Int64) returns (r: Result<Uint64>)
      requires Valid()
      modifies this`byteOffset, this`bitsOffset
      ensures Did(GetConstrained(Data(), old(Pos()), valueRange), r)
    {
      hide GetValue, SkipAlign;
      if valueRange <= 255 {
        if valueRange < 0 {
          return Err(RangeNegative);
        }
        var i := 1;
        Pow2Values();
        while i <= 8
          invariant 1 <= i <= 8 && WidthFrom(i, valueRange) == Width(valueRange)
        {
          var upper := Pow2(i);
          if upper >= valueRange {
            break;
          }
          i := i + 1;
        }
        r := GetBitsValue(i);
        return;
      }
      var octets := 1;
      if valueRange != 256 {
        if valueRange > 65536 {
          return Err(RangeTooLarge);
        }
        octets := 2;
      }
      var aligned := ParseAlignBits();
      if aligned.Err? {
        return Err(aligned.error);
      }
      r := GetBitsValue(octets * 8);
    }

    method ParseLength(sizeRange: Int64) returns (r: Result<Length>)
      requires Valid()
      modifies this`byteOffset, this`bitsOffset
      ensures Did(GetLength(Data(), old(Pos()), sizeRange), r)
    {
      hide GetValue, SkipAlign, GetConstrained, Unpack, Pow2, Valid, Pos, Data;
      if sizeRange <= 65536 && sizeRange > 0 {
        var bounded := ParseConstraintValue(sizeRange);
        return if bounded.Err? then Err(bounded.error) else Ok(Length(bounded.value, false));
      }
      var aligned := ParseAlignBits();
      if aligned.Err? {
        return Err(aligned.error);
      }
      var first := GetBitsValue(8);
      if first.Err? {
        return Err(first.error);
      }
      assert first.value < 256 by { Pow2Values(); }
      var firstByte := first.value;
      if firstByte < 128 { // firstByte & 128 == 0
        return Ok(Length(firstByte, false));
      } else if firstByte < 192 { // firstByte & 64 == 0
        var second := GetBitsValue(8);
        if second.Err? {
          return Err(second.error);
        }
        assert second.value < 256 by { Pow2Values(); }
        return Ok(Length(firstByte % 64 * 256 + second.value, false));
      }
      firstByte := firstByte % 64;
      if firstByte < 1 || firstByte > 4 {
        return Err(LengthOutOfConstraint);
      }
      return Ok(Length(16384 * firstByte, true));
    }
  
    /** The whole octets of `n` units from an aligned cursor, which stops after their last bit: past them
        all, then back one octet when that bit is not the last of its own. */
    method TakeOctets(n: nat, unit: Unit) returns (r: Result<seq<bv8>>)
      requires Valid() && bitsOffset == 0
      modifies this`byteOffset, this`bitsOffset
      ensures Valid()
      ensures old(Pos()) + 8 * BytesOf(n, unit) > |Data()| ==> r == Err(DataOutOfRange) && Pos() == old(Pos())
      ensures old(Pos()) + 8 * BytesOf(n, unit) <= |Data()| ==>
                r == Ok(Pack(Data()[old(Pos())..old(Pos()) + 8 * BytesOf(n, unit)])) && Pos() == old(Pos()) + BitsOf(n, unit)
    {
      hide Unpack, Pack, BytesOf, BitsOf;
      var sizes := BytesOf(n, unit);
      if byteOffset + sizes > |bytes| {
        return Err(DataOutOfRange);
      }
      OctetSlice(bytes, byteOffset, byteOffset + sizes);
      StepBack(byteOffset, n, unit);
      r := Ok(bytes[byteOffset..byteOffset + sizes]);
      byteOffset := byteOffset + sizes;
      bitsOffset := BitsOf(n, unit) % 8;
      if bitsOffset > 0 {
        byteOffset := byteOffset - 1;
      }
    }

    /** One turn of the fragment loop. */
    method ParseFragment(lb: Size, sizeRange: Int64, unit: Unit) returns (r: Result<(Content, bool)>)
      requires Valid()
      modifies this`byteOffset, this`bitsOffset
      ensures Did(GetFragment(Data(), old(Pos()), lb, sizeRange, unit), r)
    {
      hide GetLength, SkipAlign, Unpack, Pack, BytesOf, BitsOf;
      var length := ParseLength(sizeRange);
      if length.Err? {
        return Err(length.error);
      }
      var rawLength := length.value.n + lb;
      if rawLength == 0 {
        return Ok((Content([], 0), false));
      }
      var aligned := ParseAlignBits();
      if aligned.Err? {
        return Err(aligned.error);
      }
      var octets := TakeOctets(rawLength, unit);
      return if octets.Err? then Err(octets.error) else Ok((Content(octets.value, rawLength), length.value.repeat));
    }

    /** The loop that the source repeats for BIT STRING, OCTET STRING and open types. */
    method ParseFragments(lb: Size, sizeRange: Int64, unit: Unit) returns (r: Result<Content>)
      requires Valid()
      modifies this`byteOffset, this`bitsOffset
      ensures Did(GetFragments(Data(), old(Pos()), lb, sizeRange, unit, Content([], 0)), r)
    {
      hide GetFragment, Unpack, BitsOf;
      ghost var read := GetFragments(Data(), Pos(), lb, sizeRange, unit, Content([], 0));
      var content := Content([], 0);
      while true
        invariant Valid()
        invariant read == GetFragments(Data(), Pos(), lb, sizeRange, unit, content)
        decreases |Data()| - Pos()
      {
        var fragment := ParseFragment(lb, sizeRange, unit);
        if fragment.Err? {
          return Err(fragment.error);
        }
        var (piece, repeat) := fragment.value;
        content := Content(content.bytes + piece.bytes, content.n + piece.n);
        if !repeat {
          return Ok(content);
        }
      }
    }

    method ParseFixed(ub: nat, unit: Unit) returns (r: Result<Content>)
      requires Valid()
      modifies this`byteOffset, this`bitsOffset
      ensures Did(GetFixed(Data(), old(Pos()), unit, ub), r)
    {
      hide GetPacked, SkipAlign, Unpack, Pack;
      var octets;
      if BytesOf(ub, unit) > 2 {
        var aligned := ParseAlignBits();
        if aligned.Err? {
          return Err(aligned.error);
        }
        octets := TakeOctets(ub, unit);
      } else {
        octets := GetBitString(BitsOf(ub, unit));
      }
      return if octets.Err? then Err(octets.error) else Ok(Content(octets.value, ub));
    }

    /** BIT STRING and OCTET STRING differ only in their unit. */
    method ParseString(unit: Unit, extensed: bool, lowerBoundPtr: Option<Size>,
        upperBoundPtr: Option<Size>) returns (r: Result<Content>)
      requires Valid()
      modifies this`byteOffset, this`bitsOffset
      ensures Did(GetString(Data(), old(Pos()), unit, extensed, lowerBoundPtr, upperBoundPtr), r)
    {
      hide GetFixed, GetFragments;
      var lb: Size := 0;
      var ub, sizeRange: Int64 := -1, -1;
      if !extensed {
        if lowerBoundPtr.Some? {
          lb := lowerBoundPtr.value;
        }
        if upperBoundPtr.Some? {
          ub := upperBoundPtr.value;
          sizeRange := WrapInt64(ub - lb + 1);
        }
      }
      if ub > 65535 {
        sizeRange := -1;
      }
      if sizeRange == 1 {
        r := ParseFixed(ub, unit);
      } else {
        r := ParseFragments(lb, sizeRange, unit);
      }
    }

    method ParseBool() returns (r: Result<bool>)
      requires Valid()
      modifies this`byteOffset, this`bitsOffset
      ensures
        var read := GetValue(Data(), old(Pos()), 1);
        Did(if read.Got? then Got(read.value == 1, read.pos) else Fail(read.error, read.pos), r)
    {
      hide GetValue;
      var bit := GetBitsValue(1);
      return if bit.Err? then Err(bit.error) else Ok(bit.value == 1);
    }

    method CountWidth(valueRange: Int64) returns (i: nat)
      requires valueRange > 65536
      ensures i == Width(GetByteLen(1, valueRange - 1))
    {
      var byteLen: nat := 1;
      var unsignedValueRange: nat := valueRange - 1;
      while byteLen <= 127
        invariant 1 <= byteLen <= 128
        invariant GetByteLen(byteLen, unsignedValueRange) == GetByteLen(1, valueRange - 1)
        decreases 128 - byteLen
      {
        unsignedValueRange := unsignedValueRange / 256;
        if unsignedValueRange == 0 {
          break;
        }
        byteLen := byteLen + 1;
      }
      assert byteLen == GetByteLen(1, valueRange - 1);
      i := 1;
      Pow2Values();
      while i <= 8
        invariant 1 <= i <= 8 && WidthFrom(i, byteLen) == Width(byteLen)
      {
        var upper := Pow2(i);
        if upper >= byteLen {
          break;
        }
        i := i + 1;
      }
    }

    method ParseRawInteger(rawLength: nat, lb: Int64, valueRange: Int64) returns (r: Result<Int64>)
      requires Valid()
      modifies this`byteOffset, this`bitsOffset
      ensures Did(GetRawInteger(Data(), old(Pos()), rawLength, lb, valueRange), r)
    {
      hide GetValue, Pow2;
      var raw := GetBitsValue(rawLength * 8);
      if raw.Err? {
        return Err(raw.error);
      }
      var rawValue := raw.value;
      assert rawLength > 0 by { NoBits(Data(), old(Pos())); }
      if valueRange < 0 && rawLength <= 8 && rawValue / Pow2(8 * rawLength - 1) % 2 == 1 {
        var valueMask := Pow2(8 * rawLength - 1) - 1;
        SignFolds(rawValue, rawLength);
        return Ok(WrapInt64(-(valueMask - rawValue % Pow2(8 * rawLength - 1) + 1))); // (^rawValue & valueMask + 1) * -1
      }
      return Ok(WrapInt64(WrapInt64(rawValue) + lb));
    }

    method ParseInteger(extensed: bool, lowerBoundPtr: Option<Int64>,
        upperBoundPtr: Option<Int64>) returns (r: Result<Int64>)
      requires Valid()
      modifies this`byteOffset, this`bitsOffset
      ensures Did(GetInteger(Data(), old(Pos()), extensed, lowerBoundPtr, upperBoundPtr), r)
    {
      hide GetConstrained, GetUnbounded, GetCounted, WrapInt64;
      var lb: Int64, ub: Int64, valueRange: Int64 := 0, -1, 0;
      if !extensed {
        if lowerBoundPtr.None? {
          valueRange := -1;
        } else {
          lb := lowerBoundPtr.value;
          if upperBoundPtr.Some? {
            ub := upperBoundPtr.value;
            valueRange := WrapInt64((ub as int) - lb + 1);
          }
        }
      } else {
        valueRange := -1;
      }
      if valueRange == 1 {
        assert lowerBoundPtr.Some? && upperBoundPtr.Some?;
        return Ok(ub);
      } else if valueRange <= 0 {
        r := ParseUnbounded(lb, valueRange);
      } else if valueRange <= 65536 {
        var rawValue := ParseConstraintValue(valueRange);
        return if rawValue.Err? then Err(rawValue.error) else Ok(WrapInt64(rawValue.value + lb));
      } else {
        r := ParseCounted(lb, valueRange);
      }
    }

    /** The whole octet under an aligned cursor, or the error that there is none. */
    method TakeOctet() returns (r: Result<nat>)
      requires Valid() && bitsOffset == 0
      modifies this`byteOffset
      ensures if old(byteOffset) >= |bytes| then r == Err(DataOutOfRange) && Valid() && Pos() == old(Pos())
              else Did(GetValue(Data(), old(Pos()), 8), r)
    {
      hide GetValue, Unpack;
      if byteOffset >= |bytes| {
        return Err(DataOutOfRange);
      }
      OctetAt(bytes, byteOffset);
      r := Ok(bytes[byteOffset] as nat);
      byteOffset := byteOffset + 1;
    }

    /** The length octet and the octets after it. */
    method ParseUnbounded(lb: Int64, valueRange: Int64) returns (r: Result<Int64>)
      requires Valid()
      modifies this`byteOffset, this`bitsOffset
      ensures Did(GetUnbounded(Data(), old(Pos()), lb, valueRange), r)
    {
      hide GetValue, SkipAlign, GetRawInteger, Unpack;
      var aligned := ParseAlignBits();
      if aligned.Err? {
        return Err(aligned.error);
      }
      var rawLength := TakeOctet();
      if rawLength.Err? {
        return Err(rawLength.error);
      }
      r := ParseRawInteger(rawLength.value, lb, valueRange);
    }

    /** The octet count and the octets after it. */
    method ParseCounted(lb: Int64, valueRange: Int64) returns (r: Result<Int64>)
      requires Valid() && valueRange > 65536
      modifies this`byteOffset, this`bitsOffset
      ensures Did(GetCounted(Data(), old(Pos()), lb, valueRange), r)
    {
      hide GetValue, SkipAlign, GetRawInteger, Width, GetByteLen;
      var i := CountWidth(valueRange);
      var tempLength := GetBitsValue(i);
      if tempLength.Err? {
        return Err(tempLength.error);
      }
      var rawLength := tempLength.value + 1;
      var aligned := ParseAlignBits();
      if aligned.Err? {
        return Err(aligned.error);
      }
      r := ParseRawInteger(rawLength, lb, valueRange);
    }

    method ParseEnumerated(extensed: bool, lowerBoundPtr: Option<Int64>,
        upperBoundPtr: Option<Int64>) returns (r: Result<Uint64>)
      requires Valid()
      modifies this`byteOffset, this`bitsOffset
      ensures Did(GetEnumerated(Data(), old(Pos()), extensed, lowerBoundPtr, upperBoundPtr), r)
    {
      hide GetConstrained, WrapInt64;
      if extensed {
        return Err(UnsupportedExtension);
      }
      if lowerBoundPtr.None? || upperBoundPtr.None? {
        return Err(ConstraintMissing);
      }
      var valueRange := WrapInt64((upperBoundPtr.value as int) - lowerBoundPtr.value + 1);
      if valueRange > 1 {
        r := ParseConstraintValue(valueRange);
      } else {
        r := Ok(0);
      }
    }

    method ParseChoiceIndex(extensed: bool, upperBoundPtr: Option<Int64>) returns (r: Result<nat>)
      requires Valid()
      modifies this`byteOffset, this`bitsOffset
      ensures Did(GetChoiceIndex(Data(), old(Pos()), extensed, upperBoundPtr), r)
    {
      hide GetConstrained, WrapInt64;
      if extensed {
        return Err(UnsupportedExtension);
      } else if upperBoundPtr.None? || upperBoundPtr.value < 0 {
        return Err(ConstraintMissing);
      }
      var rawChoice := ParseConstraintValue(WrapInt64((upperBoundPtr.value as int) + 1));
      return if rawChoice.Err? then Err(rawChoice.error) else Ok(rawChoice.value + 1);
    }
  
    method ParseCount(sizeExtensed: bool, p: Params) returns (r: Result<Count>)
      requires Valid()
      modifies this`byteOffset, this`bitsOffset
      ensures Did(GetCount(Data(), old(Pos()), sizeExtensed, p.sizeLowerBound, p.sizeUpperBound), r)
    {
      hide GetConstrained, SkipAlign, GetValue, Unpack;
      var lb := 0;
      var sizeRange: Int64 := -1;
      if p.sizeLowerBound.Some? && p.sizeLowerBound.value < 65536 {
        lb := p.sizeLowerBound.value;
      }
      if !sizeExtensed && p.sizeUpperBound.Some? && p.sizeUpperBound.value < 65536 {
        sizeRange := p.sizeUpperBound.value - lb + 1;
      }
      if sizeRange > 1 {
        var numElements := ParseConstraintValue(sizeRange);
        // the error is not looked at here: the count is then the lower bound alone
        return Ok(if numElements.Ok? then Count(numElements.value + lb, None) else Count(lb, Some(numElements.error)));
      } else if sizeRange == 1 {
        return Ok(Count(lb, None));
      }
      var aligned := ParseAlignBits();
      if aligned.Err? {
        return Err(aligned.error);
      }
      var numElements := TakeOctet();
      return if numElements.Err? then Err(numElements.error) else Ok(Count(numElements.value, None));
    }

    /** SEQUENCE OF; an unread count's error survives only when no element overwrites it. */
    method ParseSequenceOf(sizeExtensed: bool, p: Params, elem: Type) returns (r: Result<Value>)
      requires Valid()
      modifies this`byteOffset, this`bitsOffset
      ensures Did(GetBody(Data(), old(Pos()), SliceType(elem), p, sizeExtensed, false), r)
      decreases elem, 5, 0
    {
      hide GetCount, GetElements, Unpack;
      var count := ParseCount(sizeExtensed, p);
      if count.Err? {
        return Err(count.error);
      }
      if count.value.n == 0 && count.value.pending.Some? {
        return Err(count.value.pending.value);
      }
      var params := p.(sizeExtensible := false, sizeUpperBound := None, sizeLowerBound := None);
      r := ParseElements(elem, params, count.value.n);
    }

    method ParseElements(elem: Type, params: Params, numElements: nat) returns (r: Result<Value>)
      requires Valid()
      modifies this`byteOffset, this`bitsOffset
      ensures Did(GetElements(Data(), old(Pos()), elem, params, numElements, []), r)
      decreases elem, 4, 0
    {
      hide Unpack, GetField;
      ghost var read := GetElements(Data(), Pos(), elem, params, numElements, []);
      var sliceContent: seq<Value> := [];
      var i := 0;
      while i < numElements
        invariant 0 <= i <= numElements && Valid()
        invariant read == GetElements(Data(), Pos(), elem, params, numElements - i, sliceContent)
      {
        var v := ParseField(elem, params);
        if v.Err? {
          return Err(v.error);
        }
        sliceContent := sliceContent + [v.value];
        i := i + 1;
      }
      return Ok(SliceValue(sliceContent));
    }

    method ParseFlag(wanted: bool) returns (r: Result<bool>)
      requires Valid()
      modifies this`byteOffset, this`bitsOffset
      ensures Did(GetFlag(Data(), old(Pos()), wanted), r)
    {
      hide GetValue;
      if !wanted {
        return Ok(false);
      }
      var bitsValue := GetBitsValue(1);
      return if bitsValue.Err? then Err(bitsValue.error) else Ok(bitsValue.value != 0);
    }

    method ParseField(t: Type, p: Params) returns (r: Result<Value>)
      requires Valid()
      modifies this`byteOffset, this`bitsOffset
      ensures Did(GetField(Data(), old(Pos()), t, p), r)
      decreases t, 3, 0
    {
      hide GetFlag, GetBody, Unpack;
      if byteOffset == |bytes| {
        return Err(SequenceTruncated);
      }
      var sizeExtensible := ParseFlag(p.sizeExtensible);
      if sizeExtensible.Err? {
        return Err(sizeExtensible.error);
      }
      var valueExtensible := ParseFlag(p.valueExtensible && !t.SliceType? && !t.OctetStringType?);
      if valueExtensible.Err? {
        return Err(valueExtensible.error);
      }
      NoSliceFlag(Data(), Pos(), t, p, sizeExtensible.value, valueExtensible.value);
      r := ParseBody(t, p, sizeExtensible.value, valueExtensible.value);
    }

    method ParseBody(t: Type, p: Params, sizeExtensible: bool, valueExtensible: bool) returns (r: Result<Value>)
      requires Valid()
      modifies this`byteOffset, this`bitsOffset
      ensures Did(GetBody(Data(), old(Pos()), t, p, sizeExtensible, valueExtensible), r)
      decreases t, 2, 0
    {
      hide GetString, GetEnumerated, GetInteger, GetValue, GetFields, GetPresence, GetChoice, GetOpenType, GetCount, GetElements, Unpack;
      match t {
        case BitStringType =>
          var content := ParseString(1, sizeExtensible, p.sizeLowerBound, p.sizeUpperBound);
          r := if content.Err? then Err(content.error) else Ok(BitStringValue(Unpack(content.value.bytes)[..content.value.n]));
        case OctetStringType =>
          var content := ParseString(8, sizeExtensible, p.sizeLowerBound, p.sizeUpperBound);
          r := if content.Err? then Err(content.error) else Ok(OctetStringValue(content.value.bytes));
        case PrintableStringType =>
          var content := ParseString(8, sizeExtensible, p.sizeLowerBound, p.sizeUpperBound);
          r := if content.Err? then Err(content.error) else Ok(PrintableStringValue(content.value.bytes));
        case ObjectIdentifierType =>
          r := Err(UnsupportedType);
        case EnumeratedType =>
          var parsedEnum := ParseEnumerated(valueExtensible, p.valueLowerBound, p.valueUpperBound);
          r := if parsedEnum.Err? then Err(parsedEnum.error) else Ok(EnumeratedValue(parsedEnum.value));
        case BoolType =>
          var parsedBool := ParseBool();
          r := if parsedBool.Err? then Err(parsedBool.error) else Ok(BoolValue(parsedBool.value));
        case IntType =>
          var parsedInt := ParseInteger(valueExtensible, p.valueLowerBound, p.valueUpperBound);
          r := if parsedInt.Err? then Err(parsedInt.error) else Ok(IntValue(parsedInt.value));
        case SequenceType(fields) =>
          r := ParseSequence(fields, p, sizeExtensible, valueExtensible);
        case ChoiceType(alts) =>
          r := ParseChoice(t, p, sizeExtensible, valueExtensible);
        case SliceType(elem) =>
          r := ParseSequenceOf(sizeExtensible, p, elem);
      }
    }

    /** The presence bits, as a 64-bit mask. */
    method ParseMask(fields: seq<Field>) returns (r: Result<(nat, Uint64)>, ghost presence: BitSeq)
      requires Valid()
      modifies this`byteOffset, this`bitsOffset
      ensures
        var read := GetPresence(Data(), old(Pos()), fields);
        && Valid() && Pos() == read.pos
        && match read
           case Got(bits, _) => presence == bits && r == Ok((OptionalCount(fields), ToNat(bits) % TWO_64))
           case Fail(e, _) => r == Err(e)
    {
      hide Unpack, ToNat;
      var optionalCount := 0;
      var i := 0;
      while i < |fields|
        invariant 0 <= i <= |fields| && optionalCount == OptionalBefore(fields, i)
      {
        if fields[i].params.optional {
          optionalCount := optionalCount + 1;
        }
        i := i + 1;
      }
      presence := [];
      if optionalCount > 0 {
        ghost var read := GetBits(Data(), Pos(), optionalCount);
        presence := if read.Got? then read.value else [];
        var optionalPresents := GetBitsValue(optionalCount);
        return if optionalPresents.Err? then Err(optionalPresents.error) else Ok((optionalCount, optionalPresents.value)), presence;
      }
      EmptyIsZero([]);
      return Ok((0, 0)), presence;
    }

    method ParseSequence(fields: seq<Field>, p: Params, ghost sizeExt: bool, ghost valueExt: bool) returns (r: Result<Value>)
      requires Valid()
      modifies this`byteOffset, this`bitsOffset
      ensures Did(GetBody(Data(), old(Pos()), SequenceType(fields), p, sizeExt, valueExt), r)
      decreases SequenceType(fields), 1, 1
    {
      hide GetPresence, GetBody, GetFields, Unpack;
      SequenceIs(Data(), Pos(), fields, p, sizeExt, valueExt);
      var mask;
      ghost var presence;
      mask, presence := ParseMask(fields);
      if mask.Err? {
        return Err(mask.error);
      }
      var (optionalCount, optionalPresents) := mask.value;
      r := ParseFields(fields, optionalCount, optionalPresents, presence);
    }

    /** The loop over the fields, testing the mask from its high bit down. */
    method ParseFields(fields: seq<Field>, total: nat, optionalPresents: Uint64, ghost presence: BitSeq) returns (r: Result<Value>)
      requires Valid() && total == |presence| == OptionalCount(fields) && optionalPresents == ToNat(presence) % TWO_64
      modifies this`byteOffset, this`bitsOffset
      ensures Did(GetFields(Data(), old(Pos()), fields, presence, []), r)
      decreases SequenceType(fields), 1, 0
    {
      hide Unpack, Marked, FieldParams, GetFields, GetField;
      ghost var read := GetFields(Data(), Pos(), fields, presence, []);
      var optionalCount := total;
      var got: seq<Option<Value>> := [];
      var i := 0;
      while i < |fields|
        invariant 0 <= i == |got| <= |fields| && Valid()
        invariant optionalCount == OptionalCount(fields) - OptionalBefore(fields, i)
        invariant read == GetFields(Data(), Pos(), fields, presence, got)
      {
        var marked := true;
        OptionalMonotone(fields, i, |fields|);
        MarkRead(fields, presence, optionalPresents, i);
        NextField(Data(), Pos(), fields, presence, got);
        if fields[i].params.optional && optionalCount > 0 {
          optionalCount := optionalCount - 1;
          if MaskBitClear(optionalPresents, optionalCount) {
            marked := false;
          }
        }
        if !marked {
          got := got + [None];
        } else {
          var params := FieldParameters(fields, got);
          if params.Err? {
            return Err(params.error);
          }
          var v := ParseField(fields[i].ty, params.value);
          if v.Err? {
            return Err(v.error);
          }
          got := got + [Some(v.value)];
        }
        i := i + 1;
      }
      AllRead(Data(), Pos(), fields, presence, got);
      return Ok(SequenceValue(got));
    }

    method ParseChoice(t: Type, p: Params, ghost sizeExt: bool, valueExtensible: bool) returns (r: Result<Value>)
      requires Valid() && t.ChoiceType?
      modifies this`byteOffset, this`bitsOffset
      ensures Did(GetBody(Data(), old(Pos()), t, p, sizeExt, valueExtensible), r)
      decreases t, 1, 1
    {
      hide GetPresence, GetChoiceIndex, GetOpenType, GetBody, GetField, Unpack;
      ChoiceIs(Data(), Pos(), t, p, sizeExt, valueExtensible);
      var mask;
      ghost var presence;
      mask, presence := ParseMask(t.alternatives);
      if mask.Err? {
        return Err(mask.error);
      }
      if p.openType {
        r := ParseOpenType(t, p.referenceFieldValue);
        return;
      }
      var index := ParseChoiceIndex(valueExtensible, p.valueUpperBound);
      if index.Err? {
        return Err(PresentZero);
      }
      var present := index.value;
      if present > |t.alternatives| {
        return Err(PresentTooBig);
      }
      var field := t.alternatives[present - 1];
      var v := ParseField(field.ty, field.params);
      return if v.Err? then Err(v.error) else Ok(ChoiceValue(present, v.value));
    }

    method ParseOpenType(t: Type, ref: Option<Int64>) returns (r: Result<Value>)
      requires Valid() && t.ChoiceType?
      modifies this`byteOffset, this`bitsOffset
      ensures Did(GetOpenType(Data(), old(Pos()), t, ref), r)
      decreases t, 1, 0
    {
      hide GetFragments, Unpack, WrapInt64;
      if ref.None? {
        return Err(ReferenceEmpty);
      }
      var present := 0;
      var j := 1;
      while j <= |t.alternatives|
        invariant 1 <= j <= |t.alternatives| + 1 && present == 0
        invariant MatchingAlternative(t.alternatives, ref.value, 0) == MatchingAlternative(t.alternatives, ref.value, j - 1)
      {
        if t.alternatives[j - 1].params.referenceFieldValue == ref {
          present := j;
          break;
        }
        j := j + 1;
      }
      assert present == MatchingAlternative(t.alternatives, ref.value, 0);
      if present == 0 {
        return Err(ReferenceMismatch);
      }
      var content := ParseFragments(0, -1, 8);
      if content.Err? {
        return Err(content.error);
      }
      var pdOpenType := new BitData(content.value.bytes);
      var field := t.alternatives[present - 1];
      var v := pdOpenType.ParseField(field.ty, field.params);
      return if v.Err? then Err(v.error) else Ok(ChoiceValue(WrapInt64(present), v.value));
    }
  }

  /** Unmarshal: the value at the head of the octets received. */
  method UnmarshalWithParams(bytes: seq<bv8>, t: Type, p: Params) returns (r: Result<Value>)
    ensures r == Unmarshalled(bytes, t, p)
  {
    var pd := new BitData(bytes);
    r := pd.ParseField(t, p);
  }
}
