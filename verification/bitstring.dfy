/** Copying a run of bits out of a byte string at a bit offset. */
module BitCopy {
  import opened Bits
  import opened Common

  function CeilDiv8(n: nat): nat { (n + 7) / 8 }

  /** `n` bits left-justified in the fewest bytes, zeros after them. */
  function Padded(s: BitSeq): (r: BitSeq)
    ensures |r| == 8 * CeilDiv8(|s|)
  {
    s + Zeros(8 * CeilDiv8(|s|) - |s|)
  }

  function Funnel(a: bv8, b: bv8, off: nat): bv8
    requires off <= 7
  {
    Shl(a, off) | ShrByte(b, 8 - off)
  }

  lemma FunnelIs(a: bv8, b: bv8, off: nat)
    requires off <= 7
    ensures Funnel(a, b, off) == Shl(a, off) | ShrByte(b, 8 - off)
  {
    hide Shl, ShrByte;
  }

  lemma FunnelBit(a: bv8, b: bv8, off: nat, k: nat)
    requires off <= 7 && k < 8
    ensures Bit(Funnel(a, b, off), k) == if k + off < 8 then Bit(a, k + off) else Bit(b, k + off - 8)
  {
    hide Bit, Shl, ShrByte;
    ShlBit(a, off, k);
    ShrBit(b, 8 - off, k);
    OrBit(Shl(a, off), ShrByte(b, 8 - off), k);
  }

  lemma AllOnes(k: nat)
    requires k < 8
    ensures Bit(0xff, k)
  {}

  function Mask(m: nat): bv8
    requires m <= 7
  {
    if m == 0 then 0xff else Shl(0xff, 8 - m)
  }

  lemma MaskBit(b: bv8, m: nat, k: nat)
    requires m <= 7 && k < 8
    ensures Bit(b & Mask(m), k) == (Bit(b, k) && (m == 0 || k < m))
  {
    hide Bit, Shl;
    AndBit(b, Mask(m), k);
    AllOnes(k);
    if m != 0 {
      ShlBit(0xff, 8 - m, k);
      if k < m { AllOnes(k + 8 - m); }
    }
  }

  /** Go's `GetBitString`: the `numBits` bits from `bitsOffset` on. */
  method GetBitString(srcBytes: seq<bv8>, bitsOffset: nat, numBits: nat) returns (r: Result<seq<bv8>>)
    requires bitsOffset <= 7 && bitsOffset <= 8 * |srcBytes|
    ensures r == Err(BitsOverflow) <==> bitsOffset + numBits > 8 * |srcBytes|
    ensures r == Err(Panic) <==> numBits == 0
    ensures r.Ok? <==> 0 < numBits <= 8 * |srcBytes| - bitsOffset
    ensures r.Ok? ==> Unpack(r.value) == Padded(Unpack(srcBytes)[bitsOffset..bitsOffset + numBits])
  {
    hide Bit, Shl, ShrByte, Unpack, Padded, Funnel;
    var bitsLeft := |srcBytes| * 8 - bitsOffset;
    if numBits > bitsLeft {
      return Err(BitsOverflow);
    }
    if numBits == 0 {
      return Err(Panic); // dstBytes[numBitsByteLen-1] is out of range
    }
    var numBitsMask: bv8 := 0xff;
    var modEight := numBits % 8;
    if modEight != 0 {
      numBitsMask := Shl(numBitsMask, 8 - modEight);
    }
    var dstBytes := Straddle(srcBytes, bitsOffset, numBits);
    ghost var unmasked := dstBytes[..];
    var numBitsByteLen := dstBytes.Length;
    dstBytes[numBitsByteLen - 1] := dstBytes[numBitsByteLen - 1] & numBitsMask;
    r := Ok(dstBytes[..]);
    CopiedBits(srcBytes, bitsOffset, numBits, unmasked, r.value);
  }

  /** Its loop: bytes that straddle two source bytes, but for a last one that has only one left. */
  method Straddle(srcBytes: seq<bv8>, bitsOffset: nat, numBits: nat) returns (dstBytes: array<bv8>)
    requires bitsOffset <= 7 && 0 < numBits && bitsOffset + numBits <= 8 * |srcBytes|
    ensures fresh(dstBytes) && dstBytes.Length == CeilDiv8(numBits)
    ensures forall j | 0 <= j < CeilDiv8(bitsOffset + numBits) - 1 :: dstBytes[j] == Funnel(srcBytes[j], srcBytes[j + 1], bitsOffset)
    ensures CeilDiv8(bitsOffset + numBits) == CeilDiv8(numBits) ==>
              dstBytes[dstBytes.Length - 1] == Shl(srcBytes[dstBytes.Length - 1], bitsOffset)
  {
    hide Shl, ShrByte, Funnel;
    var byteLen := (bitsOffset + numBits + 7) / 8;
    var numBitsByteLen := (numBits + 7) / 8;
    dstBytes := new bv8[numBitsByteLen](_ => 0);
    var i := 1;
    while i < byteLen
      invariant 1 <= i <= byteLen
      invariant forall j | 0 <= j < i - 1 :: dstBytes[j] == Funnel(srcBytes[j], srcBytes[j + 1], bitsOffset)
    {
      dstBytes[i - 1] := Shl(srcBytes[i - 1], bitsOffset) | ShrByte(srcBytes[i], 8 - bitsOffset);
      FunnelIs(srcBytes[i - 1], srcBytes[i], bitsOffset);
      i := i + 1;
    }
    if byteLen == numBitsByteLen {
      dstBytes[byteLen - 1] := Shl(srcBytes[byteLen - 1], bitsOffset);
    }
  }

  /** Each destination byte straddles two source bytes; the last one is masked. */
  lemma CopiedBits(src: seq<bv8>, off: nat, n: nat, unmasked: seq<bv8>, dst: seq<bv8>)
    requires off <= 7 && 0 < n && off + n <= 8 * |src|
    requires |unmasked| == |dst| == CeilDiv8(n)
    requires forall j | 0 <= j < CeilDiv8(off + n) - 1 :: unmasked[j] == Funnel(src[j], src[j + 1], off)
    requires CeilDiv8(off + n) == CeilDiv8(n) ==> unmasked[|dst| - 1] == Shl(src[|dst| - 1], off)
    requires dst == unmasked[|dst| - 1 := unmasked[|dst| - 1] & Mask(n % 8)]
    ensures Unpack(dst) == Padded(Unpack(src)[off..off + n])
  {
    hide Bit, Shl, ShrByte, Funnel, Mask, Unpack, Padded;
    var run := Unpack(src)[off..off + n];
    assert |Padded(run)| == 8 * |dst|;
    forall j: nat, k: nat | j < |dst| && k < 8 ensures Bit(dst[j], k) == Padded(run)[8 * j + k] {
      CopiedBit(src, off, n, unmasked, dst, j, k);
    }
    UnpackIs(dst, Padded(run));
  }

  lemma CopiedBit(src: seq<bv8>, off: nat, n: nat, unmasked: seq<bv8>, dst: seq<bv8>, j: nat, k: nat)
    requires off <= 7 && 0 < n && off + n <= 8 * |src| && |unmasked| == |dst| == CeilDiv8(n)
    requires forall j | 0 <= j < CeilDiv8(off + n) - 1 :: unmasked[j] == Funnel(src[j], src[j + 1], off)
    requires CeilDiv8(off + n) == CeilDiv8(n) ==> unmasked[|dst| - 1] == Shl(src[|dst| - 1], off)
    requires dst == unmasked[|dst| - 1 := unmasked[|dst| - 1] & Mask(n % 8)]
    requires j < |dst| && k < 8
    ensures Bit(dst[j], k) == Padded(Unpack(src)[off..off + n])[8 * j + k]
  {
    hide Bit, Shl, ShrByte, Funnel, Mask, Unpack, Padded;
    LastByte(n, j, k);
    PaddedAt(Unpack(src)[off..off + n], 8 * j + k);
    if 8 * j + k < n {
      SourceBit(src, off, n, unmasked, j, k);
    }
    MaskBit(unmasked[j], n % 8, k);
  }

  lemma PaddedAt(s: BitSeq, i: nat)
    requires i < |Padded(s)|
    ensures Padded(s)[i] == (i < |s| && s[i])
  {}

  /** Which bits of the last byte are inside `n`; earlier bytes are whole. */
  lemma LastByte(n: nat, j: nat, k: nat)
    requires 0 < n && j < CeilDiv8(n) && k < 8
    ensures 8 * j + k < n <==> j < CeilDiv8(n) - 1 || n % 8 == 0 || k < n % 8
  {
    assert n == 8 * (n / 8) + n % 8;
  }

  lemma SourceBit(src: seq<bv8>, off: nat, n: nat, unmasked: seq<bv8>, j: nat, k: nat)
    requires off <= 7 && 0 < n && off + n <= 8 * |src|
    requires |unmasked| == CeilDiv8(n)
    requires forall j | 0 <= j < CeilDiv8(off + n) - 1 :: unmasked[j] == Funnel(src[j], src[j + 1], off)
    requires CeilDiv8(off + n) == CeilDiv8(n) ==> unmasked[|unmasked| - 1] == Shl(src[|unmasked| - 1], off)
    requires k < 8 && 8 * j + k < n
    ensures Bit(unmasked[j], k) == Unpack(src)[off + 8 * j + k]
  {
    hide Bit, Shl, ShrByte, Funnel, Mask;
    if j < CeilDiv8(off + n) - 1 {
      FunnelBit(src[j], src[j + 1], off, k);
    } else {
      ShlBit(src[j], off, k);
    }
    if off + k < 8 { UnpackAt(src, j, off + k); } else { UnpackAt(src, j + 1, off + k - 8); }
  }
}
