/** The encoder of lib/aper/marshal.go: a byte buffer whose last byte may be partly filled. */
module Marshal {
  import opened Bits
  import opened Common
  import opened BitCopy
  import opened Encoding
  import opened PresenceMasks
  import opened References

  /** How many bits a buffer holds when `bitsOffset` bits of its last byte are used, zero meaning all. */
  function Used(bytes: seq<bv8>, bitsOffset: nat): int {
    if bitsOffset == 0 then 8 * |bytes| else 8 * (|bytes| - 1) + bitsOffset
  }

  /** The buffer holds the bits `s`, with zeros after them in the last byte. */
  predicate Holds(bytes: seq<bv8>, bitsOffset: nat, s: BitSeq) {
    Unpack(bytes) == Padded(s) && bitsOffset == |s| % 8
  }

  lemma HoldsUsed(bytes: seq<bv8>, bitsOffset: nat, s: BitSeq)
    requires Holds(bytes, bitsOffset, s)
    ensures Used(bytes, bitsOffset) == |s| && Unpack(bytes)[..|s|] == s && |bytes| == CeilDiv8(|s|)
  {
    assert Padded(s)[..|s|] == s;
  }

  lemma HoldsAligned(bytes: seq<bv8>, bitsOffset: nat, s: BitSeq)
    requires Holds(bytes, bitsOffset, s)
    ensures Holds(bytes, 0, Align(s))
  {
    assert Padded(s) == Align(s);
    assert Padded(Align(s)) == Align(s);
  }

  lemma PadAppend(a: BitSeq, x: BitSeq)
    requires |a| % 8 == 0
    ensures Padded(a + x) == a + Padded(x)
  {}

  lemma HoldsAppended(bytes: seq<bv8>, s: BitSeq, more: seq<bv8>, x: BitSeq)
    requires Holds(bytes, 0, s) && Unpack(more) == Padded(x)
    ensures Holds(bytes + more, |x| % 8, s + x)
  {
    hide Unpack, Padded;
    UnpackAppend(bytes, more);
    WholeBytes(s);
    PadAppend(s, x);
  }

  /** A partly filled buffer is whole bytes and a partly filled one. */
  lemma HoldsSplit(bytes: seq<bv8>, bitsOffset: nat, s: BitSeq)
    requires Holds(bytes, bitsOffset, s) && 0 < bitsOffset
    ensures |bytes| > 0 && |s| == 8 * (|bytes| - 1) + bitsOffset && bitsOffset <= 7
    ensures Holds(bytes[..|bytes| - 1], 0, s[..8 * (|bytes| - 1)])
    ensures Unpack([bytes[|bytes| - 1]]) == Padded(s[8 * (|bytes| - 1)..])
  {
    hide Bit, Unpack;
    var last := |bytes| - 1;
    var whole, rest := s[..8 * last], s[8 * last..];
    assert bytes == bytes[..last] + [bytes[last]];
    UnpackAppend(bytes[..last], [bytes[last]]);
    assert Padded(s) == whole + Padded(rest);
    assert Padded(whole) == whole;
    assert Unpack(bytes)[..8 * last] == Unpack(bytes[..last]) && Unpack(bytes)[8 * last..] == Unpack([bytes[last]]);
  }

  lemma OrByte(a: bv8, b: bv8, y: BitSeq, x: BitSeq)
    requires |y| + |x| <= 8 && 0 < |y| && 0 < |x|
    requires Unpack([a]) == Padded(y) && Unpack([b]) == Padded(Zeros(|y|) + x)
    ensures Unpack([a | b]) == Padded(y + x)
  {
    hide Bit, Padded, Unpack;
    var ab := [a | b];
    forall j: nat, k: nat | j < 1 && k < 8 ensures Bit(ab[j], k) == Padded(y + x)[8 * j + k] {
      UnpackAt([a], 0, k);
      UnpackAt([b], 0, k);
      OrBit(a, b, k);
      PaddedAt(y, k);
      PaddedAt(Zeros(|y|) + x, k);
      PaddedAt(y + x, k);
    }
    UnpackIs(ab, Padded(y + x));
  }

  /** Filling up the last byte with bits that stand right after those already there. */
  lemma HoldsFilled(bytes: seq<bv8>, bitsOffset: nat, s: BitSeq, low: bv8, x: BitSeq)
    requires Holds(bytes, bitsOffset, s) && 0 < bitsOffset
    requires 0 < |x| <= 8 - bitsOffset && Unpack([low]) == Padded(Zeros(bitsOffset) + x)
    ensures |bytes| > 0
    ensures Holds(bytes[|bytes| - 1 := bytes[|bytes| - 1] | low], (bitsOffset + |x|) % 8, s + x)
  {
    hide Bit, Unpack, Holds, Padded;
    HoldsSplit(bytes, bitsOffset, s);
    var last := |bytes| - 1;
    var whole, rest := s[..8 * last], s[8 * last..];
    OrByte(bytes[last], low, rest, x);
    HoldsAppended(bytes[..last], whole, [bytes[last] | low], rest + x);
    assert bytes[last := bytes[last] | low] == bytes[..last] + [bytes[last] | low];
    assert s + x == whole + (rest + x);
  }

  /** A byte shifted right keeps its bits, zeros before them. */
  lemma ShiftedRight(first: bv8, bitsOffset: nat, x: BitSeq)
    requires 0 < bitsOffset <= 7 && 0 < |x| <= 8 - bitsOffset && Unpack([first]) == Padded(x)
    ensures Unpack([ShrByte(first, bitsOffset)]) == Padded(Zeros(bitsOffset) + x)
  {
    hide Bit, ShrByte, Padded, Unpack;
    var zx := Zeros(bitsOffset) + x;
    var bytes := [ShrByte(first, bitsOffset)];
    forall j: nat, k: nat | j < 1 && k < 8 ensures Bit(bytes[j], k) == Padded(zx)[8 * j + k] {
      ShrBit(first, bitsOffset, k);
      PaddedAt(zx, k);
      if bitsOffset <= k {
        UnpackAt([first], 0, k - bitsOffset);
        PaddedAt(x, k - bitsOffset);
      }
    }
    UnpackIs(bytes, Padded(zx));
  }

  /** Filling up the last byte and spilling into new ones. */
  lemma HoldsSpilled(bytes: seq<bv8>, bitsOffset: nat, s: BitSeq, shifted: seq<bv8>, x: BitSeq)
    requires Holds(bytes, bitsOffset, s) && 0 < bitsOffset
    requires |x| > 8 - bitsOffset && Unpack(shifted) == Padded(Zeros(bitsOffset) + x)
    ensures |bytes| > 0 && |shifted| > 0
    ensures Holds(bytes[|bytes| - 1 := bytes[|bytes| - 1] | shifted[0]] + shifted[1..], (bitsOffset + |x|) % 8, s + x)
  {
    hide Bit, Unpack, Holds, Padded;
    HoldsOffset(bytes, bitsOffset, s);
    var x1, x2 := x[..8 - bitsOffset], x[8 - bitsOffset..];
    assert x == x1 + x2;
    SplitShifted(shifted, bitsOffset, x1, x2);
    HoldsFilled(bytes, bitsOffset, s, shifted[0], x1);
    HoldsAppended(bytes[|bytes| - 1 := bytes[|bytes| - 1] | shifted[0]], s + x1, shifted[1..], x2);
    assert s + x1 + x2 == s + x;
  }

  lemma HoldsOffset(bytes: seq<bv8>, bitsOffset: nat, s: BitSeq)
    requires Holds(bytes, bitsOffset, s)
    ensures bitsOffset == |s| % 8 <= 7
  {}

  lemma SplitShifted(shifted: seq<bv8>, bitsOffset: nat, x1: BitSeq, x2: BitSeq)
    requires 0 < bitsOffset <= 7 && |x1| == 8 - bitsOffset && |x2| > 0
    requires Unpack(shifted) == Padded(Zeros(bitsOffset) + (x1 + x2))
    ensures |shifted| > 0
    ensures Unpack([shifted[0]]) == Padded(Zeros(bitsOffset) + x1)
    ensures Unpack(shifted[1..]) == Padded(x2)
  {
    hide Bit, Unpack;
    var head := Zeros(bitsOffset) + x1;
    assert Padded(Zeros(bitsOffset) + (x1 + x2)) == head + Padded(x2);
    assert |shifted| > 0;
    assert shifted == [shifted[0]] + shifted[1..];
    UnpackAppend([shifted[0]], shifted[1..]);
    assert Padded(head) == head;
    assert Unpack(shifted)[..8] == Unpack([shifted[0]]) && Unpack(shifted)[8..] == Unpack(shifted[1..]);
  }

  /** The bits of a byte string after a zero byte, taken `bitsOffset` bits early. */
  lemma ShiftedIn(source: seq<bv8>, bitsOffset: nat, n: nat)
    requires 0 < bitsOffset <= 7 && n <= 8 * |source|
    ensures Unpack([0] + source[..CeilDiv8(n)])[8 - bitsOffset..8 + n] == Zeros(bitsOffset) + Unpack(source)[..n]
  {
    hide Bit, Unpack;
    var data := source[..CeilDiv8(n)];
    assert source == data + source[CeilDiv8(n)..];
    UnpackAppend(data, source[CeilDiv8(n)..]);
    UnpackAppend([0], data);
    ZeroByte();
  }

  lemma ZeroByte()
    ensures Unpack([0]) == Zeros(8)
  {}

  /** A byte string of `n` bits, zeros after them. */
  predicate ZeroPadded(bytes: seq<bv8>, n: nat) {
    n <= 8 * |bytes| && Unpack(bytes[..CeilDiv8(n)]) == Padded(Unpack(bytes)[..n])
  }

  lemma CarryOffset(o: nat, n: nat)
    ensures (n % 8 + o) % 8 == (o + n) % 8
  {}

  // ---------- a value, byte by byte from its low end ----------

  lemma {:induction false} ShiftedValue(v: nat, m: nat, n: nat)
    ensures FromNat(ShlNat(v, n), m + n) == FromNat(v, m) + Zeros(n)
  {
    if n != 0 {
      ShiftedValue(v, m, n - 1);
      assert ShlNat(v, n) == 2 * ShlNat(v, n - 1) by { assert v * Pow2(n) == 2 * (v * Pow2(n - 1)); }
      hide ShlNat;
      ModUnique(ShlNat(v, n), 2, ShlNat(v, n - 1), 0);
    }
  }

  lemma LowByte(v: nat)
    ensures Unpack([LowOctet(v)]) == FromNat(v, 8)
  {
    ByteFromNat(v % 256);
    Pow2Values();
    FromNatLow(v, 8);
  }

  lemma FirstPiece(v: nat, bitOff: nat)
    requires 1 <= bitOff <= 8
    ensures Unpack([LowOctet(ShlNat(v, 8 - bitOff))]) == FromNat(v, bitOff) + Zeros(8 - bitOff)
  {
    hide Pow2, FromNat, Unpack, LowOctet;
    LowByte(ShlNat(v, 8 - bitOff));
    ShiftedValue(v, bitOff, 8 - bitOff);
  }

  lemma NextPiece(v: nat, k: nat, rest: nat, tail: seq<bv8>, left: nat)
    requires rest == Shr(v, k) && Unpack(tail) == FromNat(v, k) + Zeros(left)
    ensures Unpack([LowOctet(rest)] + tail) == FromNat(v, k + 8) + Zeros(left)
    ensures rest / 256 == Shr(v, k + 8)
  {
    hide Pow2, FromNat, Unpack, Shr, LowOctet;
    LowByte(rest);
    UnpackAppend([LowOctet(rest)], tail);
    FromNatSplit(v, 8, k);
    ShrShr(v, k, 8);
    ByteShift(rest);
  }

  lemma ByteShift(v: nat)
    ensures Shr(v, 8) == v / 256
  {
    Pow2Values();
  }

  lemma TooLarge(v: nat, n: nat)
    requires Shr(v, n) > 0
    ensures v >= Pow2(n)
  {
    if v < Pow2(n) { ShrUnique(v, n, 0); }
  }

  function ZeroBytes(n: nat): seq<bv8> { seq(n, i => 0) }

  lemma AllPieces(v: nat, k: nat, n: nat, zeros: nat, tail: seq<bv8>, left: nat)
    requires Shr(v, k) == 0 && n == k + 8 * zeros && 0 < n && left <= 7 && (n + left) % 8 == 0
    requires Unpack(tail) == FromNat(v, k) + Zeros(left)
    ensures v < Pow2(n) && ZeroPadded(ZeroBytes(zeros) + tail, n) && Unpack(ZeroBytes(zeros) + tail)[..n] == FromNat(v, n)
  {
    hide Pow2, FromNat;
    UnpackAppend(ZeroBytes(zeros), tail);
    assert Unpack(ZeroBytes(zeros)) == Zeros(8 * zeros);
    FromNatSplit(v, 8 * zeros, k);
    FromNatZero(8 * zeros);
    Pow2Monotone(k, n);
    var all := ZeroBytes(zeros) + tail;
    assert Unpack(all) == FromNat(v, n) + Zeros(left);
    assert all[..CeilDiv8(n)] == all;
  }

  // ---------- fragments ----------

  /** From `offset` on, `content` has no more than `rest` units of its `total` bits left, zeros after them. */
  predicate Fills(content: seq<bv8>, offset: nat, rest: nat, total: nat, unit: Unit) {
    && offset <= |content| == CeilDiv8(total)
    && ZeroPadded(content, total)
    && total <= 8 * offset + BitsOf(rest, unit)
  }

  lemma StillFills(content: seq<bv8>, offset: nat, raw: nat, part: nat, lb: nat, total: nat, unit: Unit)
    requires Fills(content, offset, raw + lb, total, unit) && part <= raw
    requires offset + BytesOf(part + lb, unit) <= |content|
    ensures Fills(content, offset + BytesOf(part + lb, unit), raw - part + lb, total, unit)
  {}

  lemma WholePiece(bytes: seq<bv8>, s: BitSeq, piece: seq<bv8>)
    requires Holds(bytes, 0, s)
    ensures Holds(bytes + piece, 0, s + Unpack(piece))
  {
    hide Unpack;
    assert Padded(Unpack(piece)) == Unpack(piece);
    HoldsAppended(bytes, s, piece, Unpack(piece));
  }

  /** The last fragment ends the content, so zeros follow its bits. */
  lemma LastPiece(bytes: seq<bv8>, s: BitSeq, content: seq<bv8>, offset: nat, n: nat, total: nat, unit: Unit)
    requires Holds(bytes, 0, s) && Fills(content, offset, n, total, unit)
    requires offset + BytesOf(n, unit) <= |content|
    ensures
      var piece := content[offset..offset + BytesOf(n, unit)];
      && BitsOf(n, unit) <= 8 * |piece|
      && Holds(bytes + piece, BitsOf(n, unit) % 8, s + Unpack(piece)[..BitsOf(n, unit)])
  {
    hide Unpack, Bit;
    var end := offset + BytesOf(n, unit);
    assert end == |content|;
    var piece := content[offset..end];
    var x := Unpack(piece)[..BitsOf(n, unit)];
    UnpackSlice(content, offset, end);
    assert content[..|content|] == content;
    PaddedTail(Unpack(content), total, 8 * offset, BitsOf(n, unit));
    HoldsAppended(bytes, s, piece, x);
  }

  lemma PaddedTail(s: BitSeq, total: nat, from: nat, n: nat)
    requires total <= |s| && s == Padded(s[..total]) && from % 8 == 0 && from <= |s|
    requires |s| - from == 8 * CeilDiv8(n) && total <= from + n
    ensures s[from..] == Padded(s[from..][..n])
  {
    assert |Padded(s[from..][..n])| == |s| - from;
    forall i | 0 <= i < |s| - from ensures s[from..][i] == Padded(s[from..][..n])[i] {
      PaddedAt(s[..total], from + i);
      PaddedAt(s[from..][..n], i);
    }
  }

  // ---------- string contents ----------

  lemma ExtensionBit(s: BitSeq)
    ensures PutValue(s, 1, 1) == Ok(s + [true]) && PutValue(s, 0, 1) == Ok(s + [false])
  {
    Pow2Values();
    assert FromNat(0, 0) == [];
    assert FromNat(1, 1) == [true] && FromNat(0, 1) == [false];
  }

  lemma MaskedByte(b: bv8, m: nat)
    requires 1 <= m <= 7
    ensures Unpack([b & Mask(m)]) == Padded(Unpack([b])[..m])
  {
    hide Bit, Unpack, Mask, Padded;
    var bytes := [b & Mask(m)];
    forall j: nat, k: nat | j < 1 && k < 8 ensures Bit(bytes[j], k) == Padded(Unpack([b])[..m])[8 * j + k] {
      UnpackAt([b], 0, k);
      PaddedAt(Unpack([b])[..m], k);
      MaskBit(b, m, k);
    }
    UnpackIs(bytes, Padded(Unpack([b])[..m]));
  }

  /** The source's mask on the last byte. */
  function Masked(bytes: seq<bv8>, n: nat): seq<bv8>
    requires |bytes| == CeilDiv8(n)
  {
    if n % 8 == 0 then bytes else bytes[|bytes| - 1 := bytes[|bytes| - 1] & Mask(n % 8)]
  }

  /** Masking the last byte clears what follows the last bit and keeps the rest. */
  lemma MaskedLast(bytes: seq<bv8>, n: nat)
    requires |bytes| == CeilDiv8(n)
    ensures Unpack(Masked(bytes, n)) == Padded(Unpack(bytes)[..n])
  {
    hide Bit, Unpack, Mask, Padded;
    if n % 8 == 0 {
      WholeBytes(Unpack(bytes));
    } else {
      var last, m := |bytes| - 1, n % 8;
      var head, b := bytes[..last], bytes[last];
      assert bytes == head + [b] && Masked(bytes, n) == head + [b & Mask(m)];
      UnpackAppend(head, [b]);
      UnpackAppend(head, [b & Mask(m)]);
      MaskedByte(b, m);
      TakeAppend(Unpack(head), Unpack([b]), n);
      PadAppend(Unpack(head), Unpack([b])[..m]);
    }
  }

  lemma TakeAppend(a: BitSeq, b: BitSeq, n: nat)
    requires |a| <= n <= |a| + |b|
    ensures (a + b)[..n] == a + b[..n - |a|]
  {}

  lemma WholeBytes(s: BitSeq)
    requires |s| % 8 == 0
    ensures Padded(s) == s == s[..|s|]
  {}

  lemma ContentOf(content: seq<bv8>, bits: BitSeq)
    requires Unpack(content) == Padded(bits)
    ensures content == Pack(Padded(bits)) && |content| == BytesOf(|bits|, 1)
    ensures ZeroPadded(content, |bits|) && Unpack(content)[..|bits|] == bits
  {
    hide Unpack, Pack;
    PackUnpack(content);
    assert content[..CeilDiv8(|bits|)] == content;
    assert Padded(bits)[..|bits|] == bits;
  }

  lemma WholeOctets(bytes: seq<bv8>)
    ensures |bytes| == BytesOf(|bytes|, 8) && ZeroPadded(bytes, BitsOf(|bytes|, 8))
  {
    hide Unpack;
    assert bytes[..|bytes|] == bytes;
    assert Padded(Unpack(bytes)) == Unpack(bytes) == Unpack(bytes)[..8 * |bytes|];
  }

  lemma ContentFills(content: seq<bv8>, n: nat, raw: nat, lb: nat, unit: Unit)
    requires |content| == BytesOf(n, unit) && ZeroPadded(content, BitsOf(n, unit)) && n <= raw + lb
    ensures Fills(content, 0, raw + lb, BitsOf(n, unit), unit)
  {}

  /** The source's mask on the caller's own last byte. */
  method MaskInPlace(source: array<bv8>, bitsLength: nat)
    requires source.Length == CeilDiv8(bitsLength)
    modifies source
    ensures source[..] == Masked(old(source[..]), bitsLength)
  {
    hide Mask;
    var sizes := (bitsLength + 7) / 8;
    if bitsLength % 8 != 0 {
      source[sizes - 1] := source[sizes - 1] & Mask(bitsLength % 8);
    }
  }

  // ---------- integers ----------

  lemma OctetHeld(bytes: seq<bv8>, s: BitSeq, n: nat)
    requires Holds(bytes, 0, s) && n < 256
    ensures Holds(bytes + [n as bv8], 0, s + FromNat(n, 8))
  {
    hide FromNat;
    ByteFromNat(n);
    HoldsAppended(bytes, s, [n as bv8], FromNat(n, 8));
  }

  lemma OctetRange(value: Int64, n: nat)
    requires 1 <= n <= 8
    ensures 0 <= value % Pow2(8 * n) < TWO_64
  {
    Pow2Values();
    Pow2Monotone(8 * n, 64);
    var m := Pow2(8 * n);
    assert 0 <= value % m < m;
  }

  // ---------- structs ----------

  lemma HeldOctets(bytes: seq<bv8>, bitsOffset: nat, s: BitSeq)
    requires Holds(bytes, bitsOffset, s)
    ensures bytes == Pack(Align(s)) && Fills(bytes, 0, |bytes|, 8 * |bytes|, 8)
  {
    hide Unpack, Pack;
    HoldsAligned(bytes, bitsOffset, s);
    assert Padded(Align(s)) == Align(s);
    PackUnpack(bytes);
    WholeOctets(bytes);
  }

  lemma PaddedTakes(s: BitSeq)
    ensures |Padded(s)| == 8 * CeilDiv8(|s|) && Padded(s)[..|s|] == s
  {}

  /** Whether each OPTIONAL field among the first `i` is there. */
  function Flags(fields: seq<Field>, vs: seq<Option<Value>>, i: nat): (r: BitSeq)
    requires i <= |fields| == |vs|
    ensures |r| == OptionalBefore(fields, i)
  {
    if i == 0 then []
    else if fields[i - 1].params.optional then Flags(fields, vs, i - 1) + [vs[i - 1].Some?]
    else Flags(fields, vs, i - 1)
  }

  /** The source's count of OPTIONAL fields and its 64-bit mask of those present, shifted in one by one. */
  method CountOptional(fields: seq<Field>, vs: seq<Option<Value>>) returns (optionalCount: nat, optionalPresents: Uint64)
    requires |vs| == |fields|
    ensures optionalCount == OptionalCount(fields)
    ensures optionalPresents == ToNat(Flags(fields, vs, |fields|)) % TWO_64
  {
    optionalCount, optionalPresents := 0, 0;
    assert Flags(fields, vs, 0) == [];
    hide ToNat, Flags;
    EmptyMask();
    var i := 0;
    while i < |fields|
      invariant 0 <= i <= |fields| && optionalCount == OptionalBefore(fields, i)
      invariant optionalPresents == ToNat(Flags(fields, vs, i)) % TWO_64
    {
      FlagAdded(fields, vs, i);
      if fields[i].params.optional {
        optionalCount := optionalCount + 1;
        optionalPresents := (optionalPresents * 2) % TWO_64;
        if vs[i].Some? {
          optionalPresents := optionalPresents + 1;
        }
      }
      i := i + 1;
    }
  }

  lemma EmptyMask()
    ensures ToNat([]) % TWO_64 == 0
  {}

  /** Field `i` shifts its flag into the mask when it is OPTIONAL, and leaves the mask alone otherwise. */
  lemma FlagAdded(fields: seq<Field>, vs: seq<Option<Value>>, i: nat)
    requires i < |fields| == |vs|
    ensures
      var mask, next := ToNat(Flags(fields, vs, i)) % TWO_64, ToNat(Flags(fields, vs, i + 1)) % TWO_64;
      next == if fields[i].params.optional then (mask * 2) % TWO_64 + (if vs[i].Some? then 1 else 0) else mask
  {
    hide ToNat;
    ToNatSnoc(Flags(fields, vs, i), vs[i].Some?);
    ShiftIn(ToNat(Flags(fields, vs, i)), if vs[i].Some? then 1 else 0);
  }

  lemma ShiftIn(x: nat, b: nat)
    requires b <= 1
    ensures (2 * x + b) % TWO_64 == ((x % TWO_64) * 2) % TWO_64 + b
  {
    var q, r: nat := x / TWO_64, x % TWO_64;
    var carry := if 2 * r < TWO_64 then 0 else 1;
    var low: nat := 2 * r - carry * TWO_64;
    ModUnique(2 * r, TWO_64, carry, low);
    ModUnique(2 * x + b, TWO_64, 2 * q + carry, low + b);
  }

  lemma {:induction false} PresenceAt(fields: seq<Field>, vs: seq<Option<Value>>, i: nat, k: nat)
    requires i <= |fields| == |vs| && k < OptionalBefore(fields, i)
    ensures Presence(fields, vs, i)[k] == (Flags(fields, vs, i)[k] && OptionalCount(fields) - k <= 64)
  {
    if k < OptionalBefore(fields, i - 1) {
      PresenceAt(fields, vs, i - 1, k);
    }
  }

  lemma PresenceMask(fields: seq<Field>, vs: seq<Option<Value>>, mask: nat)
    requires |vs| == |fields| && mask == ToNat(Flags(fields, vs, |fields|)) % TWO_64
    ensures FromNat(mask, OptionalCount(fields)) == Presence(fields, vs, |fields|)
    ensures OptionalCount(fields) > 0 ==> mask < Pow2(OptionalCount(fields))
  {
    hide ToNat, FromNat, Pow2, Flags, Presence, OptionalCount;
    var n := OptionalCount(fields);
    assert n == OptionalBefore(fields, |fields|) by { CountIsBefore(fields); }
    var x := Flags(fields, vs, |fields|);
    forall k: nat | k < n ensures FromNat(mask, n)[k] == Presence(fields, vs, |fields|)[k] {
      MaskKeeps(x, k);
      PresenceAt(fields, vs, |fields|, k);
    }
    if n > 0 { MaskKeeps(x, 0); }
  }

  lemma CountIsBefore(fields: seq<Field>)
    ensures OptionalCount(fields) == OptionalBefore(fields, |fields|)
  {}

  /** Writing the mask writes the presence bits. */
  lemma MaskWritten(s: BitSeq, fields: seq<Field>, vs: seq<Option<Value>>, mask: nat)
    requires |vs| == |fields| && mask == ToNat(Flags(fields, vs, |fields|)) % TWO_64
    ensures PutValue(s, mask, OptionalCount(fields)) == Ok(s + Presence(fields, vs, |fields|))
  {
    hide ToNat, FromNat, Pow2, Flags, Presence;
    PresenceMask(fields, vs, mask);
    if OptionalCount(fields) == 0 { assert s + Presence(fields, vs, |fields|) == s; }
  }

  /** Testing the mask from its high bit down tests the presence bits in order. */
  lemma MarkTested(fields: seq<Field>, vs: seq<Option<Value>>, mask: Uint64, i: nat)
    requires |vs| == |fields| && i < |fields| && mask == ToNat(Flags(fields, vs, |fields|)) % TWO_64
    ensures !fields[i].params.optional ==> Marked(fields, Presence(fields, vs, |fields|), i)
    ensures fields[i].params.optional ==>
              OptionalBefore(fields, i) < OptionalCount(fields)
              && (MaskBitClear(mask, OptionalCount(fields) - OptionalBefore(fields, i) - 1)
                  <==> !Marked(fields, Presence(fields, vs, |fields|), i))
  {
    hide ToNat, FromNat, Pow2, Flags, Presence, Shr;
    OptionalMonotone(fields, i, |fields|);
    PresenceMask(fields, vs, mask);
    if fields[i].params.optional {
      FromNatAt(mask, OptionalCount(fields), OptionalBefore(fields, i));
    }
  }

  class RawBitData {
    var bytes: seq<bv8>
    var bitsOffset: nat

    ghost predicate Valid()
      reads this
    {
      && bitsOffset <= 7
      && 0 <= Used(bytes, bitsOffset)
      && Holds(bytes, bitsOffset, Unpack(bytes)[..Used(bytes, bitsOffset)])
    }

    /** The bits written so far. */
    ghost function Bits(): BitSeq
      reads this
      requires Valid()
    {
      Unpack(bytes)[..Used(bytes, bitsOffset)]
    }

    /** The step came out as `outcome` says, and no bit written before it changed. */
    ghost predicate Did(before: BitSeq, outcome: Result<BitSeq>, r: Option<Error>)
      reads this
    {
      && Valid()
      && before <= Bits()
      && match outcome
         case Ok(s) => r == None && Bits() == s
         case Err(e) => r == Some(e)
    }

    lemma IsHeld()
      requires Valid()
      ensures Holds(bytes, bitsOffset, Bits())
    {}

    lemma IsHolding(s: BitSeq)
      requires Holds(bytes, bitsOffset, s)
      ensures Valid() && Bits() == s
    {
      HoldsUsed(bytes, bitsOffset, s);
    }

    lemma Unchanged(e: Error)
      requires Valid()
      ensures Did(Bits(), Err(e), Some(e))
    {}

    lemma Appended(before: BitSeq, x: BitSeq)
      requires Holds(bytes, bitsOffset, before + x)
      ensures Did(before, Ok(before + x), None)
    {
      IsHolding(before + x);
    }

    lemma AsWritten(s: BitSeq)
      requires Valid() && Bits() == s
      ensures Did(s, Ok(s), None)
    {}

    constructor ()
      ensures Valid() && Bits() == []
    {
      bytes, bitsOffset := [], 0;
    }

    method BitCarry()
      modifies this`bitsOffset
      ensures bitsOffset == old(bitsOffset) % 8
    {
      bitsOffset := bitsOffset % 8;
    }

    method AppendAlignBits()
      requires Valid()
      modifies this`bitsOffset
      ensures Valid() && bitsOffset == 0 && Bits() == Align(old(Bits()))
    {
      HoldsAligned(bytes, bitsOffset, Bits());
      bitsOffset := 0;
      IsHolding(Align(old(Bits())));
    }

    method PutBitString(source: seq<bv8>, numBits: nat) returns (r: Option<Error>)
      requires Valid() && ZeroPadded(source, numBits)
      modifies this
      ensures Did(old(Bits()),
                  if numBits == 0 && old(bitsOffset) != 0 then Err(Panic) else Ok(old(Bits()) + Unpack(source)[..numBits]), r)
    {
      hide Padded, Unpack, Bit, Holds, Used, ShrByte, Did;
      ghost var s := Bits();
      ghost var x := Unpack(source)[..numBits];
      var data := source[..CeilDiv8(numBits)];
      if bitsOffset == 0 {
        HoldsAppended(bytes, s, data, x);
        bytes := bytes + data;
        bitsOffset := numBits % 8;
        Appended(s, x);
        return None;
      }
      var bitsLeft := 8 - bitsOffset;
      HoldsUsed(bytes, bitsOffset, s);
      var currentByte := |bytes| - 1;
      if numBits <= bitsLeft {
        if numBits == 0 {
          Unchanged(Panic);
          return Some(Panic); // bytes[0] is out of range
        }
        assert data == [data[0]];
        ShiftedRight(data[0], bitsOffset, x);
        HoldsFilled(bytes, bitsOffset, s, ShrByte(data[0], bitsOffset), x);
        bytes := bytes[currentByte := bytes[currentByte] | ShrByte(data[0], bitsOffset)];
      } else {
        var shiftBytes := GetBitString([0] + data, bitsLeft, bitsOffset + numBits);
        assert shiftBytes.Ok?; // the padded source is long enough, so the error branch is dead
        ShiftedIn(source, bitsOffset, numBits);
        HoldsSpilled(bytes, bitsOffset, s, shiftBytes.value, x);
        bytes := bytes[currentByte := bytes[currentByte] | shiftBytes.value[0]];
        bytes := bytes + shiftBytes.value[1..];
      }
      assert Holds(bytes, (old(bitsOffset) + numBits) % 8, s + x);
      bitsOffset := numBits % 8 + bitsOffset;
      BitCarry();
      CarryOffset(old(bitsOffset), numBits);
      Appended(s, x);
      return None;
    }
  
    method PutBitsValue(value: Uint64, numBits: nat) returns (r: Option<Error>)
      requires Valid()
      modifies this
      ensures Did(old(Bits()), PutValue(old(Bits()), value, numBits), r)
    {
      hide Unpack, Holds, Used, Pow2, FromNat, Bit, Padded, LowOctet, ShlNat, Shr, Did, ZeroPadded, Zeros, Valid, Bits;
      if numBits == 0 {
        AsWritten(Bits());
        return None;
      }
      var byteslen := (numBits + 7) / 8;
      var tempBytes := new bv8[byteslen](_ => 0);
      var bitOff := numBits % 8;
      if bitOff == 0 {
        bitOff := 8;
      }
      var leftbitOff := 8 - bitOff;
      FirstPiece(value, bitOff);
      tempBytes[byteslen - 1] := LowOctet(ShlNat(value, leftbitOff));
      var rest := Shr(value, bitOff);
      var i := byteslen - 2;
      ghost var k, tail := bitOff, [tempBytes[byteslen - 1]];
      while rest > 0
        invariant -1 <= i <= byteslen - 2 && k == numBits - 8 * (i + 1)
        invariant rest == Shr(value, k) && Unpack(tail) == FromNat(value, k) + Zeros(leftbitOff)
        invariant tempBytes[..] == ZeroBytes(i + 1) + tail
        modifies tempBytes
        decreases rest
      {
        if i < 0 {
          TooLarge(value, numBits);
          Unchanged(OverCapacity);
          return Some(OverCapacity);
        }
        NextPiece(value, k, rest, tail, leftbitOff);
        tempBytes[i] := LowOctet(rest);
        tail := [LowOctet(rest)] + tail;
        rest := rest / 256;
        i := i - 1;
        k := k + 8;
      }
      AllPieces(value, k, numBits, i + 1, tail, leftbitOff);
      r := PutBitString(tempBytes[..], numBits);
    }
  
    method AppendConstraintValue(valueRange: Int64, value: Uint64) returns (r: Option<Error>)
      requires Valid()
      modifies this
      ensures Did(old(Bits()), PutConstrained(old(Bits()), valueRange, value), r)
    {
      hide Unpack, Holds, Used, Padded, Valid, Bits, PutValue, Align;
      if valueRange <= 255 {
        if valueRange < 0 {
          Unchanged(RangeNegative);
          return Some(RangeNegative);
        }
        var i := 1;
        Pow2Values();
        while i <= 8
          invariant 1 <= i <= 8 && WidthFrom(i, valueRange) == Width(valueRange)
        {
          var upper := Pow2(i);
          if upper >= valueRange {
            break;
          }
          i := i + 1;
        }
        r := PutBitsValue(value, i);
        return;
      }
      var octets := 1;
      if valueRange != 256 {
        if valueRange > 65536 {
          Unchanged(RangeTooLarge);
          return Some(RangeTooLarge);
        }
        octets := 2;
      }
      ghost var before := Bits();
      AppendAlignBits();
      r := PutBitsValue(value, octets * 8);
      Transitive(before, Align(before), PutValue(Align(before), value, octets * 8), r);
    }

    /** A step after another one. */
    lemma Transitive(before: BitSeq, mid: BitSeq, outcome: Result<BitSeq>, r: Option<Error>)
      requires before <= mid && Did(mid, outcome, r)
      ensures Did(before, outcome, r)
    {}

    method AppendLength(sizeRange: Int64, value: Uint64) returns (r: Option<Error>)
      requires Valid()
      modifies this
      ensures Did(old(Bits()), PutLength(old(Bits()), sizeRange, value), r)
    {
      hide Unpack, Holds, Used, Padded, Valid, Bits, PutValue, Align, PutConstrained;
      if sizeRange <= 65536 && sizeRange > 0 {
        r := AppendConstraintValue(sizeRange, value);
        return;
      }
      ghost var before := Bits();
      AppendAlignBits();
      if value <= 127 {
        r := PutBitsValue(value, 8);
      } else if value <= 16383 {
        r := PutBitsValue(value + 0x8000, 16); // value | 0x8000
      } else {
        r := PutBitsValue(OrC0(value / 16384), 8);
      }
      Transitive(before, Align(before), PutLength(before, sizeRange, value), r);
    }
  
    /** The loop that the source repeats for BIT STRING, OCTET STRING and open types: `content` in
        fragments, each behind its own length. */
    method AppendFragments(content: seq<bv8>, raw: nat, lb: Size, sizeRange: Int64, unit: Unit,
        ghost total: nat) returns (r: Option<Error>)
      requires Valid() && Fills(content, 0, raw + lb, total, unit)
      modifies this
      ensures Did(old(Bits()), PutFragments(old(Bits()), content, 0, raw, lb, sizeRange, unit), r)
    {
      hide Unpack, Holds, Used, Padded, Valid, Bits, PutLength, Align, PutFragments, BytesOf, BitsOf, Fills;
      var rawLength: nat := raw;
      var byteOffset := 0;
      ghost var before, outcome := Bits(), PutFragments(Bits(), content, 0, raw, lb, sizeRange, unit);
      while true
        invariant Valid() && before <= Bits() && byteOffset <= |content|
        invariant Fills(content, byteOffset, rawLength + lb, total, unit)
        invariant outcome == PutFragments(Bits(), content, byteOffset, rawLength, lb, sizeRange, unit)
        decreases |content| - byteOffset
      {
        ghost var s := Bits();
        var partOfRawLength: nat;
        if rawLength > 65536 {
          partOfRawLength := 65536;
        } else if rawLength >= 16384 {
          partOfRawLength := rawLength / 16384 % 4 * 16384; // rawLength & 0xc000
        } else {
          partOfRawLength := rawLength;
        }
        assert partOfRawLength == FragmentSize(rawLength);
        hide FragmentSize;
        PutFragmentsIs(s, content, byteOffset, rawLength, lb, sizeRange, unit);
        r := AppendLength(sizeRange, partOfRawLength);
        Transitive(before, s, PutLength(s, sizeRange, partOfRawLength), r);
        if r.Some? {
          return;
        }
        var n := partOfRawLength + lb;
        var sizes := BytesOf(n, unit);
        if n == 0 {
          return;
        }
        if byteOffset + sizes > |content| {
          Unchanged(Panic);
          return Some(Panic); // slice bounds out of range
        }
        AppendAlignBits();
        ghost var a := Bits();
        IsHeld();
        var piece := content[byteOffset..byteOffset + sizes];
        if rawLength > partOfRawLength {
          WholePiece(bytes, a, piece);
          bytes := bytes + piece;
          IsHolding(a + Unpack(piece));
          StillFills(content, byteOffset, rawLength, partOfRawLength, lb, total, unit);
          rawLength := rawLength - partOfRawLength;
          byteOffset := byteOffset + sizes;
        } else {
          LastPiece(bytes, a, content, byteOffset, n, total, unit);
          bytes := bytes + piece;
          bitsOffset := BitsOf(n, unit) % 8;
          IsHolding(a + Unpack(piece)[..BitsOf(n, unit)]);
          return;
        }
      }
    }
  
    /** The bounds a string's length is written with, and the extension bit before it; the source
        repeats this at the head of both string methods. */
    method AppendSizeForm(n: nat, extensive: bool, lowerBoundPtr: Option<Size>, upperBoundPtr: Option<Size>)
      returns (r: Option<Error>, lb: Size, ub: int, sizeRange: Int64)
      requires Valid()
      modifies this
      ensures Valid() && old(Bits()) <= Bits()
      ensures
        match StringForm(n, extensive, lowerBoundPtr, upperBoundPtr)
        case Ok(form) => r == None && Bits() == old(Bits()) + form.extension && lb == form.lb && sizeRange == form.sizeRange
        case Err(e) => r == Some(e)
      ensures sizeRange == 1 ==> upperBoundPtr.Some? && ub == upperBoundPtr.value
    {
      hide Unpack, Holds, Used, Padded, Valid, Bits, PutValue;
      ghost var before := Bits();
      r := None;
      lb := 0;
      ub, sizeRange := -1, -1;
      if lowerBoundPtr.Some? {
        lb := lowerBoundPtr.value;
        if upperBoundPtr.Some? {
          ub := upperBoundPtr.value;
          if n <= ub {
            sizeRange := WrapInt64(ub - lb + 1);
          } else if !extensive {
            return Some(OverUpperBound), lb, ub, sizeRange;
          }
          if extensive {
            ExtensionBit(before);
            if sizeRange == -1 {
              r := PutBitsValue(1, 1);
              lb := 0;
            } else {
              r := PutBitsValue(0, 1);
            }
          }
        }
      }
      if ub > 65535 {
        sizeRange := -1;
      }
    }

    method AppendBitString(source: array<bv8>, bitsLength: nat, extensive: bool,
                           lowerBoundPtr: Option<Size>, upperBoundPtr: Option<Size>) returns (r: Option<Error>)
      requires Valid() && source.Length == CeilDiv8(bitsLength)
      modifies this, source
      ensures Did(old(Bits()), Encoding.PutBitString(old(Bits()), Unpack(old(source[..]))[..bitsLength], extensive, lowerBoundPtr, upperBoundPtr), r)
      ensures Unpack(source[..])[..bitsLength] == Unpack(old(source[..]))[..bitsLength]
    {
      hide Unpack, Holds, Used, Padded, Valid, Bits, PutFragments, Mask, Pack, Did, StringForm, PutFixed, Masked, BytesOf;
      ghost var before, bits := Bits(), Unpack(source[..])[..bitsLength];
      ghost var original := source[..];
      MaskedLast(original, bitsLength);
      ContentOf(Masked(original, bitsLength), bits);
      var lb, ub, sizeRange;
      r, lb, ub, sizeRange := AppendSizeForm(bitsLength, extensive, lowerBoundPtr, upperBoundPtr);
      if r.Some? {
        Failed(before, r.value);
        return;
      }
      MaskInPlace(source, bitsLength);
      var content := source[..];
      r := AppendContent(content, bitsLength, 1, lb, ub, sizeRange);
      ContentDone(before, content, bitsLength, 1, extensive, lowerBoundPtr, upperBoundPtr, r);
    }

    method AppendOctetString(source: seq<bv8>, extensive: bool,
                             lowerBoundPtr: Option<Size>, upperBoundPtr: Option<Size>) returns (r: Option<Error>)
      requires Valid()
      modifies this
      ensures Did(old(Bits()), PutOctetString(old(Bits()), source, extensive, lowerBoundPtr, upperBoundPtr), r)
    {
      hide Unpack, Holds, Used, Padded, Valid, Bits, PutFragments, Did, StringForm, PutFixed, BytesOf;
      ghost var before := Bits();
      var byteLen := |source|;
      WholeOctets(source);
      var lb, ub, sizeRange;
      r, lb, ub, sizeRange := AppendSizeForm(byteLen, extensive, lowerBoundPtr, upperBoundPtr);
      if r.Some? {
        Failed(before, r.value);
        return;
      }
      r := AppendContent(source, byteLen, 8, lb, ub, sizeRange);
      ContentDone(before, source, byteLen, 8, extensive, lowerBoundPtr, upperBoundPtr, r);
    }

    lemma ContentDone(before: BitSeq, content: seq<bv8>, n: nat, unit: Unit, extensive: bool, lb: Option<Size>,
        ub: Option<Size>, r: Option<Error>)
      requires StringForm(n, extensive, lb, ub).Ok? && |content| == BytesOf(n, unit)
      requires
        var form := StringForm(n, extensive, lb, ub).value;
        var s0 := before + form.extension;
        && (form.sizeRange == 1 ==> ub.Some?)
        && Did(s0, if form.sizeRange == 1 then PutFixed(s0, content, n, unit, ub.value)
                   else PutFragments(s0, content, 0, RawCount(n, form.lb), form.lb, form.sizeRange, unit), r)
      ensures Did(before, PutString(before, content, n, unit, extensive, lb, ub), r)
    {
      hide PutFixed, PutFragments, StringForm, Valid, Bits;
    }

    lemma Failed(before: BitSeq, e: Error)
      requires Valid() && before <= Bits()
      ensures Did(before, Err(e), Some(e))
    {}

    /** What follows the extension bit of a string. */
    method AppendContent(content: seq<bv8>, n: nat, unit: Unit, lb: Size, ub: int,
        sizeRange: Int64) returns (r: Option<Error>)
      requires Valid() && |content| == BytesOf(n, unit) && ZeroPadded(content, BitsOf(n, unit))
      requires sizeRange == 1 ==> ub >= 0
      modifies this
      ensures Did(old(Bits()), if sizeRange == 1 then PutFixed(old(Bits()), content, n, unit, ub)
                               else PutFragments(old(Bits()), content, 0, RawCount(n, lb), lb, sizeRange, unit), r)
    {
      hide Unpack, Holds, Used, Padded, Valid, Bits, PutFragments, Did, PutFixed, BytesOf, BitsOf;
      if sizeRange == 1 {
        r := AppendFixed(content, n, unit, ub);
      } else {
        ContentFills(content, n, RawCount(n, lb), lb, unit);
        r := AppendFragments(content, RawCount(n, lb), lb, sizeRange, unit, BitsOf(n, unit));
      }
    }

    /** A string whose size its constraint fixes. */
    method AppendFixed(content: seq<bv8>, n: nat, unit: Unit, ub: nat) returns (r: Option<Error>)
      requires Valid() && |content| == BytesOf(n, unit) && ZeroPadded(content, BitsOf(n, unit))
      modifies this
      ensures Did(old(Bits()), PutFixed(old(Bits()), content, n, unit, ub), r)
    {
      hide Unpack, Used, Padded, Align;
      ghost var s := Bits();
      IsHeld();
      if |content| > 2 {
        AppendAlignBits();
        if n != ub {
          return Some(FixedSizeMismatch);
        }
        IsHeld();
        assert content[..CeilDiv8(BitsOf(n, unit))] == content;
        HoldsAppended(bytes, Bits(), content, Unpack(content)[..BitsOf(n, unit)]);
        bytes := bytes + content;
        bitsOffset := BitsOf(n, unit) % 8;
        IsHolding(Align(s) + Unpack(content)[..BitsOf(n, unit)]);
        return None;
      }
      r := PutBitString(content, BitsOf(n, unit));
    }
  
    method AppendBool(value: bool) returns (r: Option<Error>)
      requires Valid()
      modifies this
      ensures Did(old(Bits()), Ok(old(Bits()) + [value]), r)
    {
      ExtensionBit(Bits());
      if value {
        r := PutBitsValue(1, 1);
      } else {
        r := PutBitsValue(0, 1);
      }
    }

    method AppendInteger(value: Int64, extensive: bool, lowerBoundPtr: Option<Int64>,
        upperBoundPtr: Option<Int64>) returns (r: Option<Error>)
      requires Valid()
      modifies this
      ensures Did(old(Bits()), PutInteger(old(Bits()), value, extensive, lowerBoundPtr, upperBoundPtr), r)
    {
      hide Unpack, Holds, Used, Padded, Valid, Bits, PutValue, PutConstrained, PutRawInteger, WrapInt64, WrapUint64;
      ghost var before := Bits();
      var lb: Int64, valueRange: Int64 := 0, 0;
      if lowerBoundPtr.Some? {
        lb := lowerBoundPtr.value;
        if value < lb {
          Unchanged(UnderLowerBound);
          return Some(UnderLowerBound);
        }
        if upperBoundPtr.Some? {
          var ub := upperBoundPtr.value;
          if value <= ub {
            valueRange := WrapInt64(ub - lb + 1);
          } else if !extensive {
            Unchanged(OverUpperBound);
            return Some(OverUpperBound);
          }
          if extensive {
            ExtensionBit(before);
            if valueRange == 0 {
              valueRange := -1;
              r := PutBitsValue(1, 1);
            } else {
              r := PutBitsValue(0, 1);
            }
          }
        }
      } else {
        valueRange := -1;
      }
      ghost var form := IntegerForm(value, extensive, lowerBoundPtr, upperBoundPtr).value;
      ghost var s0 := Bits();
      assert s0 == before + form.extension && lb == form.lb && valueRange == form.range;
      if valueRange == 1 {
        r := None;
        AsWritten(s0);
      } else if 0 < valueRange <= 65536 {
        r := AppendConstraintValue(valueRange, WrapUint64(value - lb));
      } else {
        r := AppendRawInteger(value, form, lb, valueRange);
      }
      Transitive(before, s0, PutInteger(before, value, extensive, lowerBoundPtr, upperBoundPtr), r);
    }

    /** The octet count of an integer: a shift loop over its magnitude. */
    method CountOctets(value: Int64, valueRange: Int64) returns (rawLength: nat)
      ensures rawLength == RawLength(value, valueRange)
    {
      var unsignedValue: nat := if value < 0 then -1 - (value as int) else value; // (value ^ y) - y - 1 with y = value >> 63
      unsignedValue := if valueRange <= 0 then unsignedValue / 128 else unsignedValue / 256;
      rawLength := 1;
      while rawLength <= 127
        invariant rawLength + Octets(unsignedValue) == RawLength(value, valueRange)
        decreases unsignedValue
      {
        if unsignedValue == 0 {
          break;
        }
        unsignedValue := unsignedValue / 256;
        rawLength := rawLength + 1;
      }
    }

    /** The width of an octet count: how many octets the range takes, then how many bits that takes. */
    method CountWidth(valueRange: Int64) returns (i: nat)
      requires valueRange > 65536
      ensures i == Width(PutByteLen(1, valueRange - 1))
    {
      var byteLen: nat := 1;
      var unsignedValueRange: nat := valueRange - 1;
      while byteLen <= 127
        invariant 1 <= byteLen <= 128
        invariant PutByteLen(byteLen, unsignedValueRange) == PutByteLen(1, valueRange - 1)
        decreases 128 - byteLen
      {
        unsignedValueRange := unsignedValueRange / 256;
        if unsignedValueRange <= 1 {
          break;
        }
        byteLen := byteLen + 1;
      }
      assert byteLen == PutByteLen(1, valueRange - 1);
      i := 1;
      Pow2Values();
      while i <= 8
        invariant 1 <= i <= 8 && WidthFrom(i, byteLen) == Width(byteLen)
      {
        var upper := Pow2(i);
        if upper >= byteLen {
          break;
        }
        i := i + 1;
      }
    }

    method AppendRawInteger(value: Int64, ghost form: IntForm, lb: Int64, valueRange: Int64) returns (r: Option<Error>)
      requires Valid() && lb == form.lb && valueRange == form.range && (valueRange <= 0 || valueRange > 65536)
      modifies this
      ensures Did(old(Bits()), PutRawInteger(old(Bits()), value, form), r)
    {
      hide Unpack, Holds, Used, Padded, Valid, Bits, PutValue, Align, RawLength, Width, PutByteLen, Pow2, FromNat, WrapUint64;
      ghost var before := Bits();
      var rawLength := CountOctets(value, valueRange);
      ghost var n := rawLength;
      if valueRange <= 0 {
        AppendAlignBits();
        IsHeld();
        OctetHeld(bytes, Bits(), rawLength);
        bytes := bytes + [rawLength as bv8];
        IsHolding(Align(before) + FromNat(n, 8));
      } else {
        var i := CountWidth(valueRange);
        r := PutBitsValue(rawLength - 1, i);
        if r.Some? {
          return;
        }
      }
      ghost var s1 := Bits();
      rawLength := rawLength * 8;
      AppendAlignBits();
      OctetRange(value, n);
      if valueRange < 0 {
        r := PutBitsValue(value % Pow2(rawLength), rawLength); // value & (1<<rawLength - 1)
      } else {
        r := PutBitsValue(WrapUint64(value - lb), rawLength);
      }
      Transitive(before, Align(s1), PutRawInteger(before, value, form), r);
    }

    method AppendEnumerated(value: Uint64, extensive: bool, lowerBoundPtr: Option<Int64>,
        upperBoundPtr: Option<Int64>) returns (r: Option<Error>)
      requires Valid()
      modifies this
      ensures Did(old(Bits()), PutEnumerated(old(Bits()), value, extensive, lowerBoundPtr, upperBoundPtr), r)
    {
      hide Unpack, Holds, Used, Padded, Valid, Bits, PutValue, PutConstrained, WrapInt64;
      ghost var before := Bits();
      if lowerBoundPtr.None? || upperBoundPtr.None? {
        Unchanged(ConstraintMissing);
        return Some(ConstraintMissing);
      }
      var lb: int, ub: int := lowerBoundPtr.value, upperBoundPtr.value;
      var signedValue := WrapInt64(value);
      if signedValue > ub {
        r := Some(if extensive then UnsupportedExtension else OverUpperBound);
        Unchanged(r.value);
        return;
      } else if signedValue < lb {
        Unchanged(UnderLowerBound);
        return Some(UnderLowerBound);
      }
      AsWritten(before);
      if extensive {
        ExtensionBit(before);
        r := PutBitsValue(0, 1);
      }
      ghost var s0 := Bits();
      var valueRange := WrapInt64(ub - lb + 1);
      if valueRange > 1 {
        r := AppendConstraintValue(valueRange, value);
      } else {
        r := None;
        AsWritten(s0);
      }
      Transitive(before, s0, PutEnumerated(before, value, extensive, lowerBoundPtr, upperBoundPtr), r);
    }

    method AppendChoiceIndex(present: Int64, extensive: bool, upperBoundPtr: Option<Int64>) returns (r: Option<Error>)
      requires Valid()
      modifies this
      ensures Did(old(Bits()), PutChoiceIndex(old(Bits()), present, extensive, upperBoundPtr), r)
    {
      hide Unpack, Holds, Used, Padded, Valid, Bits, PutConstrained, WrapInt64, WrapUint64;
      var rawChoice := WrapInt64(present - 1);
      if upperBoundPtr.None? || upperBoundPtr.value < 0 {
        Unchanged(ConstraintMissing);
        return Some(ConstraintMissing);
      } else if extensive && rawChoice > upperBoundPtr.value {
        Unchanged(UnsupportedExtension);
        return Some(UnsupportedExtension);
      }
      r := AppendConstraintValue(WrapInt64(upperBoundPtr.value + 1), WrapUint64(present - 1));
    }
  
    /** The bounds an element count is written with, and the extension bit before it. */
    method AppendCountForm(numElements: nat, p: Params) returns (r: Option<Error>, lb: Size, sizeRange: Int64)
      requires Valid()
      modifies this
      ensures Valid() && old(Bits()) <= Bits()
      ensures
        match CountForm(numElements, p.sizeExtensible, p.sizeLowerBound, p.sizeUpperBound)
        case Ok(form) => r == None && Bits() == old(Bits()) + form.extension && lb == form.lb && sizeRange == form.sizeRange
        case Err(e) => r == Some(e)
      ensures sizeRange > 0 ==> p.sizeUpperBound.Some? && numElements <= p.sizeUpperBound.value
    {
      hide Unpack, Holds, Used, Padded, Valid, Bits, PutValue;
      ExtensionBit(Bits());
      r := None;
      lb, sizeRange := 0, -1;
      if p.sizeLowerBound.Some? && p.sizeLowerBound.value < 65536 {
        lb := p.sizeLowerBound.value;
      }
      if p.sizeUpperBound.Some? && p.sizeUpperBound.value < 65536 {
        var ub := p.sizeUpperBound.value;
        if p.sizeExtensible {
          if numElements > ub {
            r := PutBitsValue(1, 1);
          } else {
            r := PutBitsValue(0, 1);
            sizeRange := ub - lb + 1;
          }
        } else if numElements > ub {
          r := Some(OverUpperBound);
        } else {
          sizeRange := ub - lb + 1;
        }
      }
    }

    method AppendCount(numElements: nat, p: Params) returns (r: Option<Error>)
      requires Valid()
      modifies this
      ensures Did(old(Bits()), PutCount(old(Bits()), numElements, p.sizeExtensible, p.sizeLowerBound, p.sizeUpperBound), r)
    {
      hide Unpack, Holds, Used, Padded, Valid, Bits, PutConstrained, Align, FromNat, CountForm;
      ghost var before := Bits();
      ghost var outcome := PutCount(before, numElements, p.sizeExtensible, p.sizeLowerBound, p.sizeUpperBound);
      var lb, sizeRange;
      r, lb, sizeRange := AppendCountForm(numElements, p);
      if r.Some? {
        Failed(before, r.value);
        return;
      }
      ghost var s0 := Bits();
      if numElements < lb {
        Unchanged(UnderLowerBound);
        r := Some(UnderLowerBound);
      } else if sizeRange == 1 {
        AsWritten(s0);
        if numElements != p.sizeUpperBound.value {
          Unchanged(FixedSizeMismatch);
          r := Some(FixedSizeMismatch);
        }
      } else if sizeRange > 0 {
        r := AppendConstraintValue(sizeRange, numElements - lb);
      } else {
        AppendAlignBits();
        IsHeld();
        ghost var a := Bits();
        OctetHeld(bytes, a, numElements % 256);
        bytes := bytes + [(numElements % 256) as bv8];
        Appended(a, FromNat(numElements % 256, 8));
        Transitive(s0, a, Ok(a + FromNat(numElements % 256, 8)), r);
      }
      Transitive(before, s0, outcome, r);
    }

    /** SEQUENCE OF: the count, then the elements under the same tag without its size bounds. */
    method ParseSequenceOf(elem: Type, p: Params, elems: seq<Value>) returns (r: Option<Error>)
      requires Valid()
      modifies this
      ensures Did(old(Bits()), PutField(old(Bits()), SliceType(elem), p, SliceValue(elems)), r)
      decreases elem, 4, 0
    {
      hide Unpack, Holds, Used, Padded, Valid, Bits, PutCount;
      ghost var before := Bits();
      ghost var outcome := PutField(before, SliceType(elem), p, SliceValue(elems));
      r := AppendCount(|elems|, p);
      if r.Some? {
        return;
      }
      var params := p.(sizeExtensible := false, sizeUpperBound := None, sizeLowerBound := None);
      var i := 0;
      assert elems[0..] == elems;
      while i < |elems|
        invariant 0 <= i <= |elems| && Valid() && before <= Bits()
        invariant outcome == PutElements(Bits(), elem, params, elems[i..])
      {
        ghost var s := Bits();
        assert elems[i..][0] == elems[i] && elems[i..][1..] == elems[i + 1..];
        r := MakeField(elem, params, elems[i]);
        if r.Some? {
          Transitive(before, s, outcome, r);
          return;
        }
        i := i + 1;
      }
      r := None;
    }

    method AppendOpenType(t: Type, p: Params, v: Value) returns (r: Option<Error>)
      requires Valid()
      modifies this
      ensures
        var inner := PutField([], t, p, v);
        Did(old(Bits()),
            if inner.Err? then Err(inner.error)
            else PutFragments(old(Bits()), Pack(Align(inner.value)), 0, |Pack(Align(inner.value))|, 0, -1, 8), r)
      decreases t, 4, 0
    {
      hide Unpack, Holds, Used, Padded, Pack, PutFragments, PutField, Align, Fills;
      ghost var before := Bits();
      var pdOpenType := new RawBitData();
      r := pdOpenType.MakeField(t, p, v);
      if r.Some? {
        return;
      }
      ghost var inner := pdOpenType.Bits();
      pdOpenType.IsHeld();
      var openTypeBytes := pdOpenType.bytes;
      HeldOctets(openTypeBytes, pdOpenType.bitsOffset, inner);
      r := AppendFragments(openTypeBytes, |openTypeBytes|, 0, -1, 8, 8 * |openTypeBytes|);
    }

    /** The value's bits in a buffer of their own, which appending may mask. */
    method MakeBitString(bits: BitSeq, p: Params) returns (r: Option<Error>)
      requires Valid()
      modifies this
      ensures Did(old(Bits()), Encoding.PutBitString(old(Bits()), bits, p.sizeExtensible, p.sizeLowerBound, p.sizeUpperBound), r)
    {
      hide Encoding.PutBitString, Unpack, Holds, Used, Padded, Valid, Bits, Pack;
      var content := Pack(Padded(bits));
      UnpackPack(Padded(bits));
      PaddedTakes(bits);
      var source := new bv8[|content|](i requires 0 <= i < |content| => content[i]);
      assert source[..] == content;
      r := AppendBitString(source, |bits|, p.sizeExtensible, p.sizeLowerBound, p.sizeUpperBound);
    }

    method MakeField(t: Type, p: Params, v: Value) returns (r: Option<Error>)
      requires Valid()
      modifies this
      ensures Did(old(Bits()), PutField(old(Bits()), t, p, v), r)
      decreases t, 3, 0
    {
      hide Encoding.PutBitString, PutOctetString, PutEnumerated, PutInteger, PutCount, PutChoiceIndex, PutFragments;
      hide Unpack, Holds, Used, Padded, Valid, Bits, Pack, PutFields, PutElements, Presence, Align, Extension, Did, PutField;
      PutLeaf(Bits(), t, p, v);
      match (t, v) {
        case (_, NilPointer) =>
          Unchanged(NilValue);
          r := Some(NilValue);
        case (ObjectIdentifierType, _) =>
          Unchanged(UnsupportedType);
          r := Some(UnsupportedType);
        case (BitStringType, BitStringValue(bits)) =>
          r := MakeBitString(bits, p);
        case (OctetStringType, OctetStringValue(octets)) =>
          r := AppendOctetString(octets, p.sizeExtensible, p.sizeLowerBound, p.sizeUpperBound);
        case (PrintableStringType, PrintableStringValue(text)) =>
          r := AppendOctetString(text, p.sizeExtensible, p.sizeLowerBound, p.sizeUpperBound);
        case (EnumeratedType, EnumeratedValue(n)) =>
          r := AppendEnumerated(n, p.valueExtensible, p.valueLowerBound, p.valueUpperBound);
        case (BoolType, BoolValue(b)) =>
          r := AppendBool(b);
        case (IntType, IntValue(i)) =>
          r := AppendInteger(i, p.valueExtensible, p.valueLowerBound, p.valueUpperBound);
        case (SequenceType(fields), SequenceValue(vs)) =>
          r := MakeSequence(fields, p, vs);
        case (ChoiceType(alts), ChoiceValue(present, alt)) =>
          r := MakeChoice(alts, p, present, alt);
        case (SliceType(elem), SliceValue(elems)) =>
          r := ParseSequenceOf(elem, p, elems);
        case _ =>
          Unchanged(TypeMismatch);
          r := Some(TypeMismatch);
      }
    }

    method AppendExtension(extensible: bool)
      requires Valid()
      modifies this
      ensures Valid() && Bits() == old(Bits()) + Extension(extensible)
    {
      hide Unpack, Holds, Used, Padded, Valid, Bits, PutValue;
      ExtensionBit(Bits());
      if extensible {
        var r := PutBitsValue(0, 1);
      }
    }

    method MakeChoice(alts: seq<Field>, p: Params, present: Int64, alt: Value) returns (r: Option<Error>)
      requires Valid()
      modifies this
      ensures Did(old(Bits()), PutField(old(Bits()), ChoiceType(alts), p, ChoiceValue(present, alt)), r)
      decreases ChoiceType(alts), 2, 0
    {
      hide Unpack, Holds, Used, Padded, Valid, Bits, PutChoiceIndex, PutFragments, Pack, Align, Extension;
      ghost var before := Bits();
      ghost var outcome := PutField(before, ChoiceType(alts), p, ChoiceValue(present, alt));
      AppendExtension(p.valueExtensible);
      ghost var s0 := Bits();
      if present == 0 {
        r := Some(PresentZero);
        Unchanged(PresentZero);
      } else if present > |alts| {
        r := Some(PresentTooBig);
        Unchanged(PresentTooBig);
      } else if p.openType {
        if p.referenceFieldValue.None? {
          r := Some(ReferenceEmpty);
          Unchanged(ReferenceEmpty);
        } else if present < 0 {
          r := Some(Panic);
          Unchanged(Panic); // structParams[present] is out of range
        } else if alts[present - 1].params.referenceFieldValue != p.referenceFieldValue {
          r := Some(ReferenceMismatch);
          Unchanged(ReferenceMismatch);
        } else {
          r := AppendOpenType(alts[present - 1].ty, alts[present - 1].params, alt);
        }
      } else {
        r := AppendChoiceIndex(present, p.valueExtensible, p.valueUpperBound);
        if r.None? {
          ghost var s1 := Bits();
          r := MakeField(alts[present - 1].ty, alts[present - 1].params, alt);
          Transitive(s0, s1, outcome, r);
        }
      }
      Transitive(before, s0, outcome, r);
    }

    method MakeSequence(fields: seq<Field>, p: Params, vs: seq<Option<Value>>) returns (r: Option<Error>)
      requires Valid()
      modifies this
      ensures Did(old(Bits()), PutField(old(Bits()), SequenceType(fields), p, SequenceValue(vs)), r)
      decreases SequenceType(fields), 2, 0
    {
      hide Unpack, Holds, Used, Padded, Valid, Bits, Presence, Marked, FieldParams, Extension, PutValue, Flags, PutField, PutFields;
      PutSequence(Bits(), fields, p, vs);
      ghost var before := Bits();
      ghost var outcome := PutField(before, SequenceType(fields), p, SequenceValue(vs));
      if |vs| != |fields| {
        Unchanged(TypeMismatch);
        return Some(TypeMismatch);
      }
      AppendExtension(p.valueExtensible);
      ghost var s0 := Bits();
      var optionalCount, optionalPresents := CountOptional(fields, vs);
      ghost var presence := Presence(fields, vs, |fields|);
      MaskWritten(s0, fields, vs, optionalPresents);
      r := PutBitsValue(optionalPresents, optionalCount);
      ghost var s1 := Bits();
      assert s1 == s0 + presence && before <= s1;
      var i := 0;
      while i < |fields|
        invariant 0 <= i <= |fields| && Valid() && before <= Bits()
        invariant optionalCount == OptionalCount(fields) - OptionalBefore(fields, i)
        invariant outcome == PutFields(Bits(), fields, vs, i)
      {
        var marked := true;
        OptionalMonotone(fields, i, |fields|);
        MarkTested(fields, vs, optionalPresents, i);
        PutNext(Bits(), fields, vs, i);
        if fields[i].params.optional && optionalCount > 0 {
          optionalCount := optionalCount - 1;
          if MaskBitClear(optionalPresents, optionalCount) {
            marked := false;
          }
        }
        if marked {
          ghost var s := Bits();
          var params := FieldParameters(fields, vs[..i]);
          if params.Err? {
            Unchanged(params.error);
            Transitive(before, s, outcome, Some(params.error));
            return Some(params.error);
          }
          if vs[i].None? {
            Unchanged(NilValue);
            Transitive(before, s, outcome, Some(NilValue));
            return Some(NilValue);
          }
          r := MakeField(fields[i].ty, params.value, vs[i].value);
          if r.Some? {
            Transitive(before, s, outcome, r);
            return;
          }
        }
        i := i + 1;
      }
      PutNone(Bits(), fields, vs);
      r := None;
    }
  }

  /** Marshal: the encoding of a value in whole octets, at least one. */
  method MarshalWithParams(t: Type, p: Params, v: Value) returns (r: Result<seq<bv8>>)
    ensures r == Marshalled(t, p, v)
  {
    hide PutField, Holds, Used, Unpack, Pack, Align, Padded, Fills;
    var pd := new RawBitData();
    var err := pd.MakeField(t, p, v);
    if err.Some? {
      return Err(err.value);
    }
    pd.IsHeld();
    HeldOctets(pd.bytes, pd.bitsOffset, pd.Bits());
    HoldsUsed(pd.bytes, pd.bitsOffset, pd.Bits());
    if |pd.bytes| == 0 {
      return Ok([0]);
    }
    return Ok(pd.bytes);
  }
}
