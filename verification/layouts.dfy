/** The bits each kind of value is written with, as clauses 10 to 22 of ITU-T X.691 (aligned PER) lay them out, and
    where the encoder departs from them. */
module Layouts {
  import opened Bits
  import opened Common
  import opened BitCopy
  import opened Encoding
  import opened Decoding

  /** The parameters of a field without a tag. */
  const UNTAGGED := Params(false, false, false, None, None, None, None, false, "", None)

  // ---------- bits ----------

  /** A number's bits, the most significant first. */
  lemma {:induction false} NumberBits(v: nat, n: nat, k: nat)
    requires k < n
    ensures FromNat(v, n)[k] == (v / Pow2(n - 1 - k) % 2 == 1)
  {
    if k < n - 1 {
      NumberBits(v / 2, n - 1, k);
      var m := Pow2(n - 2 - k);
      assert Pow2(n - 1 - k) == 2 * m;
      DivTwice(v, m);
    }
  }

  lemma DivTwice(v: nat, m: nat)
    requires m > 0
    ensures v / (2 * m) == v / 2 / m
  {
    var q := v / 2 / m;
    HalveMod(v, m);
    assert v / 2 == m * q + v / 2 % m;
    assert 2 * m * q == 2 * (m * q);
    ModUnique(v, 2 * m, q, 2 * (v / 2 % m) + v % 2);
  }

  /** A byte's bits, the most significant first, after those of the bytes before it. */
  lemma ByteBits(bytes: seq<bv8>, j: nat, k: nat)
    requires j < |bytes| && k < 8
    ensures Unpack(bytes)[8 * j + k] == ((bytes[j] >> (7 - k)) & 1 == 1)
  {
    UnpackAt(bytes, j, k);
    hide Unpack;
    if k == 0 {} else if k == 1 {} else if k == 2 {} else if k == 3 {} else if k == 4 {}
    else if k == 5 {} else if k == 6 {} else {}
  }

  /** Zeros up to the next octet, and none on an octet boundary. */
  lemma AlignLayout(s: BitSeq, k: nat)
    requires k < 8 && (|s| + k) % 8 == 0
    ensures Align(s) == s + seq(k, i => false)
  {
    assert (8 - |s| % 8) % 8 == k;
  }

  /** Sixty-four bit arithmetic: the one number of the type that differs by a multiple of 2^64. */
  lemma Wrapped(x: int, v: int)
    requires (x - v) % 0x1_0000_0000_0000_0000 == 0
    ensures -0x8000_0000_0000_0000 <= v < 0x8000_0000_0000_0000 ==> WrapInt64(x) == v
    ensures 0 <= v < 0x1_0000_0000_0000_0000 ==> WrapUint64(x) == v
  {}

  // ---------- numbers and lengths ----------

  /** A constrained whole number, clause 10.5.7: the fewest bits for up to 255 values, one aligned octet for 256,
      two for up to 65536. */
  lemma ConstrainedLayout(s: BitSeq, range: int, v: nat, w: nat)
    requires range <= 2 ==> w == 1
    requires 3 <= range <= 4 ==> w == 2
    requires 5 <= range <= 8 ==> w == 3
    requires 9 <= range <= 16 ==> w == 4
    requires 17 <= range <= 32 ==> w == 5
    requires 33 <= range <= 64 ==> w == 6
    requires 65 <= range <= 128 ==> w == 7
    requires 129 <= range ==> w == 8
    ensures 0 <= range <= 255 && v < Pow2(w) ==> PutConstrained(s, range, v) == Ok(s + FromNat(v, w))
    ensures 0 <= range <= 255 && v >= Pow2(w) ==> PutConstrained(s, range, v) == Err(OverCapacity)
    ensures range == 256 && v < 256 ==> PutConstrained(s, range, v) == Ok(Align(s) + FromNat(v, 8))
    ensures 257 <= range <= 65536 && v < 65536 ==> PutConstrained(s, range, v) == Ok(Align(s) + FromNat(v, 16))
    ensures (range == 256 && v >= 256) || (257 <= range <= 65536 && v >= 65536) ==> PutConstrained(s, range, v) == Err(OverCapacity)
    ensures range < 0 ==> PutConstrained(s, range, v) == Err(RangeNegative)
    ensures range > 65536 ==> PutConstrained(s, range, v) == Err(RangeTooLarge)
  {
    hide FromNat, Align;
    Pow2Values();
    if 0 <= range <= 255 {
      LeastWidth(1, range, w);
    }
  }

  lemma {:induction false} LeastWidth(i: nat, range: nat, w: nat)
    requires 1 <= i <= w <= 8 && range <= Pow2(w) && range <= 256 && (i < w ==> Pow2(w - 1) < range)
    ensures WidthFrom(i, range) == w
    decreases w - i
  {
    if i < w {
      Pow2Monotone(i, w - 1);
      LeastWidth(i + 1, range, w);
    } else {
      hide WidthFrom;
      OwnWidth(w, range);
    }
  }

  lemma OwnWidth(w: nat, range: nat)
    requires 1 <= w <= 8 && range <= Pow2(w) && range <= 256
    ensures WidthFrom(w, range) == w
  {}

  /** An unconstrained length, clause 10.9.3: one aligned octet below 128, two below 16384, and one that counts
      fragments of 16384 from there on. */
  lemma LengthLayout(s: BitSeq, n: nat)
    ensures n < 128 ==> PutLength(s, -1, n) == Ok(Align(s) + FromNat(n, 8))
    ensures 128 <= n < 16384 ==> PutLength(s, -1, n) == Ok(Align(s) + FromNat(32768 + n, 16))
    ensures n == 16384 ==> PutLength(s, -1, n) == Ok(Align(s) + FromNat(193, 8))
    ensures n == 32768 ==> PutLength(s, -1, n) == Ok(Align(s) + FromNat(194, 8))
    ensures n == 49152 ==> PutLength(s, -1, n) == Ok(Align(s) + FromNat(195, 8))
    ensures n == 65536 ==> PutLength(s, -1, n) == Ok(Align(s) + FromNat(196, 8))
  {
    hide FromNat, Align;
    Pow2Values();
  }

  /** A length in a range of up to 65536 values is a constrained whole number, one in a larger range is not. */
  lemma BoundedLength(s: BitSeq, range: int, n: nat)
    ensures 1 <= range <= 65536 ==> PutLength(s, range, n) == PutConstrained(s, range, n)
    ensures range > 65536 || range <= 0 ==> PutLength(s, range, n) == PutLength(s, -1, n)
  {
    hide FromNat, Align, PutConstrained;
  }

  // ---------- strings and the contents of open types ----------

  /** Contents of up to 16383 octets, without bounds: the length, and the octets after it. */
  lemma ShortContent(s: BitSeq, content: seq<bv8>)
    requires |content| < 16384
    ensures |content| < 128 ==>
              PutFragments(s, content, 0, |content|, 0, -1, 8) == Ok(Align(s) + FromNat(|content|, 8) + Unpack(content))
    ensures |content| >= 128 ==>
              PutFragments(s, content, 0, |content|, 0, -1, 8) == Ok(Align(s) + FromNat(32768 + |content|, 16) + Unpack(content))
  {
    hide FromNat, Align, Unpack, PutLength, PutFragments;
    var n := |content|;
    LengthLayout(s, n);
    PutFragmentsIs(s, content, 0, n, 0, -1, 8);
    var head := PutLength(s, -1, n).value;
    WholeOctets(head);
    assert content[0..n] == content && Unpack(content)[..8 * n] == Unpack(content);
    if n == 0 { assert head + Unpack(content) == head; }
  }

  lemma WholeOctets(s: BitSeq)
    requires |s| % 8 == 0
    ensures Align(s) == s
  {
    AlignLayout(s, 0);
  }

  /** From 16384 octets on, the first fragment is the largest multiple of 16384 that fits, at most 65536, and the rest
      is written after it as contents of its own; nothing follows a last fragment that leaves no rest, and of exactly
      65536 nothing is written but a length of zero. */
  lemma LongContent(s: BitSeq, content: seq<bv8>, offset: nat, k: nat)
    requires offset <= |content| && 1 <= k <= 4
    requires
      var raw := |content| - offset;
      if raw > 65536 then k == 4 else 16384 * k <= raw < 16384 * (k + 1) && k < 4
    ensures
      var raw, end := |content| - offset, offset + 16384 * k;
      var head := Align(s) + FromNat(192 + k, 8) + Unpack(content[offset..end]);
      PutFragments(s, content, offset, raw, 0, -1, 8)
      == if raw == 16384 * k then Ok(head) else PutFragments(head, content, end, raw - 16384 * k, 0, -1, 8)
  {
    hide FromNat, Align, Unpack, PutLength, FragmentSize, PutFragments;
    var raw, part := |content| - offset, 16384 * k;
    LargestPart(raw, k);
    LengthLayout(s, part);
    PutFragmentsIs(s, content, offset, raw, 0, -1, 8);
    var piece := content[offset..offset + part];
    WholeOctets(PutLength(s, -1, part).value);
    assert Unpack(piece)[..8 * part] == Unpack(piece);
  }

  lemma LargestPart(raw: nat, k: nat)
    requires 1 <= k <= 4 && if raw > 65536 then k == 4 else 16384 * k <= raw < 16384 * (k + 1) && k < 4
    ensures FragmentSize(raw) == 16384 * k
  {
    if raw <= 65536 { assert raw / 16384 == k; }
  }

  /** An OCTET STRING or a Go string of a fixed size, clause 16.6 and 16.7: the octets alone, aligned from three on. */
  lemma FixedOctets(s: BitSeq, bytes: seq<bv8>, extensible: bool, size: Size)
    requires |bytes| == size && 1 <= size <= 65535
    ensures
      var s0 := if extensible then s + [false] else s;
      PutOctetString(s, bytes, extensible, Some(size), Some(size))
      == Ok(if size <= 2 then s0 + Unpack(bytes) else Align(s0) + Unpack(bytes))
  {
    hide Unpack, Align;
    assert Unpack(bytes)[..8 * |bytes|] == Unpack(bytes);
    assert s + [] == s;
  }

  /** Of bounded size, clause 16.8: the length above the lower bound as a constrained whole number, then the octets,
      aligned; here of up to 16383 octets above the lower bound. */
  lemma BoundedOctets(s: BitSeq, bytes: seq<bv8>, extensible: bool, lb: Size, ub: Size, r: BitSeq)
    requires lb < ub <= 65535 && lb <= |bytes| <= ub && |bytes| - lb < 16384
    requires PutConstrained(if extensible then s + [false] else s, ub - lb + 1, |bytes| - lb) == Ok(r)
    ensures PutOctetString(s, bytes, extensible, Some(lb), Some(ub))
         == Ok(if bytes == [] then r else Align(r) + Unpack(bytes))
  {
    hide Unpack, Align, PutConstrained, PutFragments;
    assert bytes[0..|bytes|] == bytes && Unpack(bytes)[..8 * |bytes|] == Unpack(bytes);
    var s0 := if extensible then s + [false] else s;
    BoundedLength(s0, ub - lb + 1, |bytes| - lb);
    PutFragmentsIs(s0, bytes, 0, |bytes| - lb, lb, ub - lb + 1, 8);
    assert s + [] == s;
  }

  /** Over its upper bound a string is refused, or written with the extension bit set and no bounds. */
  lemma OverBound(s: BitSeq, bytes: seq<bv8>, lb: Size, ub: Size)
    requires lb <= ub < |bytes|
    ensures PutOctetString(s, bytes, false, Some(lb), Some(ub)) == Err(OverUpperBound)
    ensures PutOctetString(s, bytes, true, Some(lb), Some(ub)) == PutFragments(s + [true], bytes, 0, |bytes|, 0, -1, 8)
  {
    hide PutFragments, PutFixed;
  }

  /** Without an upper bound, or with one above 65535, the length is unconstrained; the octets counted are those above
      the lower bound. */
  lemma UnboundedOctets(s: BitSeq, bytes: seq<bv8>, extensible: bool, lb: Size, ub: Option<Size>)
    requires lb <= |bytes| && (ub.Some? ==> ub.value > 65535 && |bytes| <= ub.value)
    ensures PutOctetString(s, bytes, extensible, None, ub) == PutFragments(s, bytes, 0, |bytes|, 0, -1, 8)
    ensures PutOctetString(s, bytes, extensible, Some(lb), ub)
         == PutFragments(if extensible && ub.Some? then s + [false] else s, bytes, 0, |bytes| - lb, lb, -1, 8)
  {
    hide PutFragments, PutFixed;
    assert s + [] == s;
  }

  lemma PackedBits(bits: BitSeq)
    ensures Unpack(Pack(Padded(bits)))[..|bits|] == bits
  {
    UnpackPack(Padded(bits));
    hide Unpack, Pack;
    assert Padded(bits)[..|bits|] == bits;
  }

  /** A BIT STRING of a fixed size, clause 15.8 and 15.9: the bits alone, aligned from seventeen on. */
  lemma FixedBits(s: BitSeq, bits: BitSeq, extensible: bool, size: Size)
    requires |bits| == size && 1 <= size <= 65535
    ensures
      var s0 := if extensible then s + [false] else s;
      Encoding.PutBitString(s, bits, extensible, Some(size), Some(size))
      == Ok(if size <= 16 then s0 + bits else Align(s0) + bits)
  {
    hide Unpack, Pack, Align, Padded, PutFragments;
    PackedBits(bits);
    assert s + [] == s;
  }

  /** Of bounded size, clause 15.11. */
  lemma BoundedBits(s: BitSeq, bits: BitSeq, extensible: bool, lb: Size, ub: Size, r: BitSeq)
    requires lb < ub <= 65535 && lb <= |bits| <= ub && |bits| - lb < 16384
    requires PutConstrained(if extensible then s + [false] else s, ub - lb + 1, |bits| - lb) == Ok(r)
    ensures Encoding.PutBitString(s, bits, extensible, Some(lb), Some(ub)) == Ok(if bits == [] then r else Align(r) + bits)
  {
    hide Unpack, Pack, Align, PutConstrained, PutFragments, Padded, PutFixed;
    PackedBits(bits);
    var content := Pack(Padded(bits));
    assert content[0..|content|] == content;
    var s0 := if extensible then s + [false] else s;
    BoundedLength(s0, ub - lb + 1, |bits| - lb);
    PutFragmentsIs(s0, content, 0, |bits| - lb, lb, ub - lb + 1, 1);
    assert s + [] == s;
  }
}
