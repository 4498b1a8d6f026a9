/** Bytes as lists of bits, most significant bit first, and the numbers such lists denote. */
module Bits {

  type BitSeq = seq<bool>

  const TWO_64: nat := 0x1_0000_0000_0000_0000

  /** Bit `k` of a byte, counted from the most significant one. */
  function Bit(b: bv8, k: nat): bool
    requires k < 8
  {
    if k == 0 then b & 0x80 != 0
    else if k == 1 then b & 0x40 != 0
    else if k == 2 then b & 0x20 != 0
    else if k == 3 then b & 0x10 != 0
    else if k == 4 then b & 0x08 != 0
    else if k == 5 then b & 0x04 != 0
    else if k == 6 then b & 0x02 != 0
    else b & 0x01 != 0
  }

  function Shl(b: bv8, o: nat): bv8
    requires o <= 8
  {
    b << o
  }

  function ShrByte(b: bv8, o: nat): bv8
    requires o <= 8
  {
    b >> o
  }

  lemma ShlBit(b: bv8, o: nat, k: nat)
    requires k < 8 && o <= 8
    ensures Bit(Shl(b, o), k) == (k + o < 8 && Bit(b, k + o))
  {
    if o == 0 {} else if o == 1 {} else if o == 2 {} else if o == 3 {} else if o == 4 {}
    else if o == 5 {} else if o == 6 {} else if o == 7 {} else {}
  }

  lemma ShrBit(b: bv8, o: nat, k: nat)
    requires k < 8 && o <= 8
    ensures Bit(ShrByte(b, o), k) == (o <= k && Bit(b, k - o))
  {
    if o == 0 {} else if o == 1 {} else if o == 2 {} else if o == 3 {} else if o == 4 {}
    else if o == 5 {} else if o == 6 {} else if o == 7 {} else {}
  }

  lemma OrBit(a: bv8, b: bv8, k: nat)
    requires k < 8
    ensures Bit(a | b, k) == (Bit(a, k) || Bit(b, k))
  {
    if k == 0 {} else if k == 1 {} else if k == 2 {} else if k == 3 {} else if k == 4 {}
    else if k == 5 {} else if k == 6 {} else {}
  }

  lemma AndBit(a: bv8, b: bv8, k: nat)
    requires k < 8
    ensures Bit(a & b, k) == (Bit(a, k) && Bit(b, k))
  {
    if k == 0 {} else if k == 1 {} else if k == 2 {} else if k == 3 {} else if k == 4 {}
    else if k == 5 {} else if k == 6 {} else {}
  }

  lemma SameBits(a: bv8, b: bv8)
    requires forall k: nat | k < 8 :: Bit(a, k) == Bit(b, k)
    ensures a == b
  {
    assert Bit(a, 0) == Bit(b, 0) && Bit(a, 1) == Bit(b, 1) && Bit(a, 2) == Bit(b, 2) && Bit(a, 3) == Bit(b, 3);
    assert Bit(a, 4) == Bit(b, 4) && Bit(a, 5) == Bit(b, 5) && Bit(a, 6) == Bit(b, 6) && Bit(a, 7) == Bit(b, 7);
  }

  // ---------- bytes and bit lists ----------

  function Unpack(bytes: seq<bv8>): (r: BitSeq)
    ensures |r| == 8 * |bytes|
  {
    seq(8 * |bytes|, i requires 0 <= i < 8 * |bytes| => Bit(bytes[i / 8], i % 8))
  }

  lemma UnpackAt(bytes: seq<bv8>, j: nat, k: nat)
    requires j < |bytes| && k < 8
    ensures Unpack(bytes)[8 * j + k] == Bit(bytes[j], k)
  {
    assert (8 * j + k) / 8 == j && (8 * j + k) % 8 == k;
  }

  /** Two bit lists of whole bytes agree when they agree byte by byte. */
  lemma UnpackIs(bytes: seq<bv8>, s: BitSeq)
    requires |s| == 8 * |bytes|
    requires forall j, k | 0 <= j < |bytes| && 0 <= k < 8 :: Bit(bytes[j], k) == s[8 * j + k]
    ensures Unpack(bytes) == s
  {
    forall i | 0 <= i < |s| ensures Unpack(bytes)[i] == s[i] {
      assert i == 8 * (i / 8) + i % 8;
      assert Bit(bytes[i / 8], i % 8) == s[8 * (i / 8) + i % 8];
    }
  }

  function ByteOf(s: BitSeq): bv8
    requires |s| == 8
  {
    (if s[0] then 0x80 else 0) | (if s[1] then 0x40 else 0) | (if s[2] then 0x20 else 0) | (if s[3] then 0x10 else 0) |
    (if s[4] then 0x08 else 0) | (if s[5] then 0x04 else 0) | (if s[6] then 0x02 else 0) | (if s[7] then 0x01 else 0)
  }

  function Pack(s: BitSeq): (r: seq<bv8>)
    requires |s| % 8 == 0
    ensures |r| == |s| / 8
  {
    seq(|s| / 8, i requires 0 <= i < |s| / 8 => ByteOf(s[8 * i..8 * i + 8]))
  }

  lemma ByteOfBits(s: BitSeq, k: nat)
    requires |s| == 8 && k < 8
    ensures Bit(ByteOf(s), k) == s[k]
  {
    if k == 0 {} else if k == 1 {} else if k == 2 {} else if k == 3 {} else if k == 4 {}
    else if k == 5 {} else if k == 6 {} else {}
  }

  lemma UnpackPack(s: BitSeq)
    requires |s| % 8 == 0
    ensures Unpack(Pack(s)) == s
  {
    forall i | 0 <= i < |s| ensures Unpack(Pack(s))[i] == s[i] {
      ByteOfBits(s[8 * (i / 8)..8 * (i / 8) + 8], i % 8);
    }
  }

  lemma UnpackInjective(a: seq<bv8>, b: seq<bv8>)
    requires Unpack(a) == Unpack(b)
    ensures a == b
  {
    assert |a| == |b|;
    forall i | 0 <= i < |a| ensures a[i] == b[i] {
      forall k: nat | k < 8 ensures Bit(a[i], k) == Bit(b[i], k) {
        assert Unpack(a)[8 * i + k] == Unpack(b)[8 * i + k];
      }
      SameBits(a[i], b[i]);
    }
  }

  lemma PackUnpack(bytes: seq<bv8>)
    ensures Pack(Unpack(bytes)) == bytes
  {
    UnpackPack(Unpack(bytes));
    UnpackInjective(Pack(Unpack(bytes)), bytes);
  }

  lemma UnpackAppend(a: seq<bv8>, b: seq<bv8>)
    ensures Unpack(a + b) == Unpack(a) + Unpack(b)
  {}

  lemma UnpackSlice(a: seq<bv8>, i: nat, j: nat)
    requires i <= j <= |a|
    ensures Unpack(a[i..j]) == Unpack(a)[8 * i..8 * j]
  {}

  // ---------- numbers ----------

  function Pow2(n: nat): (r: nat)
    ensures r > 0
  {
    if n == 0 then 1 else 2 * Pow2(n - 1)
  }

  lemma Pow2Add(m: nat, n: nat)
    ensures Pow2(m + n) == Pow2(m) * Pow2(n)
  {
    if n != 0 {
      Pow2Add(m, n - 1);
      assert Pow2(m + n) == 2 * (Pow2(m) * Pow2(n - 1));
      assert 2 * (Pow2(m) * Pow2(n - 1)) == Pow2(m) * (2 * Pow2(n - 1));
    }
  }

  lemma Pow2Monotone(m: nat, n: nat)
    requires m <= n
    ensures Pow2(m) <= Pow2(n)
  {
    if m < n { Pow2Monotone(m, n - 1); }
  }

  lemma Pow2Values()
    ensures Pow2(1) == 2 && Pow2(2) == 4 && Pow2(3) == 8 && Pow2(4) == 16
    ensures Pow2(5) == 32 && Pow2(6) == 64 && Pow2(7) == 128 && Pow2(8) == 256
    ensures Pow2(16) == 65536 && Pow2(32) == 0x1_0000_0000 && Pow2(64) == TWO_64
  {
    assert Pow2(1) == 2 && Pow2(2) == 4 && Pow2(3) == 8 && Pow2(4) == 16;
    assert Pow2(5) == 32 && Pow2(6) == 64 && Pow2(7) == 128 && Pow2(8) == 256;
    Pow2Add(8, 8);
    Pow2Add(16, 16);
    Pow2Add(32, 32);
  }

  /** The number a bit list denotes, most significant bit first. */
  function ToNat(s: BitSeq): nat
  {
    if s == [] then 0 else 2 * ToNat(s[..|s| - 1]) + (if s[|s| - 1] then 1 else 0)
  }

  /** The `n` low bits of `v`, most significant bit first. */
  function FromNat(v: nat, n: nat): (r: BitSeq)
    ensures |r| == n
  {
    if n == 0 then [] else FromNat(v / 2, n - 1) + [v % 2 == 1]
  }

  function Zeros(n: nat): (r: BitSeq)
    ensures |r| == n
  {
    seq(n, i => false)
  }

  lemma {:induction false} ToNatBound(s: BitSeq)
    ensures ToNat(s) < Pow2(|s|)
  {
    if s != [] { ToNatBound(s[..|s| - 1]); }
  }

  lemma {:induction false} ToNatFromNat(v: nat, n: nat)
    ensures ToNat(FromNat(v, n)) == v % Pow2(n)
    ensures v < Pow2(n) ==> ToNat(FromNat(v, n)) == v
  {
    if n != 0 {
      ToNatFromNat(v / 2, n - 1);
      assert FromNat(v, n)[..n - 1] == FromNat(v / 2, n - 1);
      HalveMod(v, Pow2(n - 1));
    }
    if v < Pow2(n) { SmallMod(v, Pow2(n)); }
  }

  lemma SmallMod(v: nat, m: nat)
    requires v < m
    ensures v % m == v
  {}

  lemma HalveMod(v: nat, m: nat)
    requires m > 0
    ensures v % (2 * m) == 2 * ((v / 2) % m) + v % 2
  {
    var q, r := (v / 2) / m, (v / 2) % m;
    assert v / 2 == m * q + r;
    assert v == (2 * m) * q + (2 * r + v % 2) by {
      assert (2 * m) * q == 2 * (m * q);
    }
    ModUnique(v, 2 * m, q, 2 * r + v % 2);
  }

  lemma ModUnique(v: int, m: nat, q: int, r: nat)
    requires m > 0 && r < m && v == m * q + r
    ensures v % m == r && v / m == q
  {
    var d := v / m - q;
    assert v == m * (v / m) + v % m;
    assert m * d == r - v % m by { assert m * d == m * (v / m) - m * q; }
    assert d >= 1 ==> m * d >= m;
    assert d <= -1 ==> m * d <= m * -1;
  }

  lemma DivDiv(v: nat, a: nat, b: nat)
    requires a > 0 && b > 0
    ensures a * b > 0 && (v / a) / b == v / (a * b)
  {
    var q := (v / a) / b;
    var r := (v / a) % b;
    assert v == a * (b * q + r) + v % a;
    assert a * (b * q + r) == (a * b) * q + a * r by { assert a * (b * q) == (a * b) * q; }
    assert a * r + v % a < a * b by {
      assert a * r <= a * (b - 1);
      assert a * (b - 1) == a * b - a;
    }
    assert a * b > 0;
    assert 0 <= a * r;
    ModUnique(v, a * b, q, a * r + v % a);
  }

  /** `v >> n`. */
  function Shr(v: nat, n: nat): (r: nat)
    ensures Pow2(n) * r <= v < Pow2(n) * r + Pow2(n)
  {
    DivNonNegative(v, Pow2(n));
    v / Pow2(n)
  }

  /** `v << n`, before any truncation. */
  function ShlNat(v: nat, n: nat): nat { v * Pow2(n) }

  /** `byte(v & 0xff)`. */
  function LowOctet(v: nat): bv8 { (v % 256) as bv8 }

  lemma DivNonNegative(v: nat, m: nat)
    requires m > 0
    ensures v / m >= 0
    ensures m * (v / m) <= v < m * (v / m) + m
  {
    var q := v / m;
    assert v == m * q + v % m;
    assert q < 0 ==> m * q <= m * -1;
  }

  lemma ShrUnique(v: nat, n: nat, q: int)
    requires Pow2(n) * q <= v < Pow2(n) * q + Pow2(n)
    ensures Shr(v, n) == q
  {
    ModUnique(v, Pow2(n), q, v - Pow2(n) * q);
  }

  lemma ShrShr(v: nat, m: nat, n: nat)
    ensures Shr(Shr(v, m), n) == Shr(v, m + n)
  {
    DivDiv(v, Pow2(m), Pow2(n));
    Pow2Add(m, n);
  }

  lemma {:induction false} FromNatSplit(v: nat, m: nat, n: nat)
    ensures FromNat(v, m + n) == FromNat(Shr(v, n), m) + FromNat(v, n)
  {
    if n == 0 {
      assert Shr(v, 0) == v;
    } else {
      var w, q := v / 2, Shr(v, n);
      assert q == Shr(w, n - 1) by { ShrShr(v, 1, n - 1); assert Shr(v, 1) == w; }
      FromNatSplit(w, m, n - 1);
      assert FromNat(v, m + n) == FromNat(w, m + n - 1) + [v % 2 == 1];
      assert FromNat(v, n) == FromNat(w, n - 1) + [v % 2 == 1];
    }
  }

  lemma {:induction false} FromNatZero(n: nat)
    ensures FromNat(0, n) == Zeros(n)
  {
    if n != 0 { FromNatZero(n - 1); }
  }

  lemma {:induction false} ToNatZeros(n: nat)
    ensures ToNat(Zeros(n)) == 0
  {
    if n != 0 {
      ToNatZeros(n - 1);
      assert Zeros(n)[..n - 1] == Zeros(n - 1);
    }
  }

  lemma {:induction false} ZeroOnlyZeros(s: BitSeq)
    requires ToNat(s) == 0
    ensures s == Zeros(|s|)
  {
    if s != [] {
      ZeroOnlyZeros(s[..|s| - 1]);
      assert s == s[..|s| - 1] + [s[|s| - 1]];
    }
  }

  lemma {:induction false} FromNatToNat(s: BitSeq)
    ensures FromNat(ToNat(s), |s|) == s
  {
    if s != [] {
      FromNatToNat(s[..|s| - 1]);
      assert s == s[..|s| - 1] + [s[|s| - 1]];
    }
  }

  /** Only the low `n` bits matter. */
  lemma FromNatLow(v: nat, n: nat)
    ensures 0 <= v % Pow2(n) && FromNat(v % Pow2(n), n) == FromNat(v, n)
  {
    ToNatFromNat(v, n);
    FromNatToNat(FromNat(v, n));
  }

  lemma {:induction false} ToNatAppend(a: BitSeq, b: BitSeq)
    ensures ToNat(a + b) == ToNat(a) * Pow2(|b|) + ToNat(b)
  {
    if b == [] {
      assert a + b == a;
    } else {
      var b' := b[..|b| - 1];
      assert (a + b)[..|a + b| - 1] == a + b';
      ToNatAppend(a, b');
      assert 2 * (ToNat(a) * Pow2(|b'|)) == ToNat(a) * (2 * Pow2(|b'|));
    }
  }

  lemma ToNatSnoc(s: BitSeq, b: bool)
    ensures ToNat(s + [b]) == 2 * ToNat(s) + (if b then 1 else 0)
  {
    assert (s + [b])[..|s|] == s;
  }

  lemma FourBits(a: bool, b: bool, c: bool, d: bool)
    ensures ToNat([a, b, c, d]) == (if a then 8 else 0) + (if b then 4 else 0) + (if c then 2 else 0) + (if d then 1 else 0)
  {
    ToNatSnoc([], a); ToNatSnoc([a], b); ToNatSnoc([a, b], c); ToNatSnoc([a, b, c], d);
    assert [] + [a] == [a] && [a] + [b] == [a, b] && [a, b] + [c] == [a, b, c] && [a, b, c] + [d] == [a, b, c, d];
  }

  lemma EightBits(s: BitSeq)
    requires |s| == 8
    ensures ToNat(s) == (if s[0] then 128 else 0) + (if s[1] then 64 else 0) + (if s[2] then 32 else 0) + (if s[3] then 16 else 0)
                      + (if s[4] then 8 else 0) + (if s[5] then 4 else 0) + (if s[6] then 2 else 0) + (if s[7] then 1 else 0)
  {
    var hi, lo := [s[0], s[1], s[2], s[3]], [s[4], s[5], s[6], s[7]];
    assert s == hi + lo;
    var h, l := ToNat(hi), ToNat(lo);
    assert ToNat(s) == h * 16 + l by {
      ToNatAppend(hi, lo);
      Pow2Values();
    }
    assert h == (if s[0] then 8 else 0) + (if s[1] then 4 else 0) + (if s[2] then 2 else 0) + (if s[3] then 1 else 0) by {
      FourBits(s[0], s[1], s[2], s[3]);
    }
    assert l == (if s[4] then 8 else 0) + (if s[5] then 4 else 0) + (if s[6] then 2 else 0) + (if s[7] then 1 else 0) by {
      FourBits(s[4], s[5], s[6], s[7]);
    }
  }

  lemma ByteValue(b: bv8)
    ensures ToNat(Unpack([b])) == b as nat
    ensures FromNat(b as nat, 8) == Unpack([b])
  {
    var s := Unpack([b]);
    assert ToNat(s) == b as nat by {
      EightBits(s);
      ByteWeights(b);
    }
    FromNatToNat(s);
  }

  lemma ByteWeights(b: bv8)
    ensures b as nat == (if Bit(b, 0) then 128 else 0) + (if Bit(b, 1) then 64 else 0) + (if Bit(b, 2) then 32 else 0)
                      + (if Bit(b, 3) then 16 else 0) + (if Bit(b, 4) then 8 else 0) + (if Bit(b, 5) then 4 else 0)
                      + (if Bit(b, 6) then 2 else 0) + (if Bit(b, 7) then 1 else 0)
  {}

  lemma NumberOfByte(b: bv8)
    ensures (b as nat) as bv8 == b
  {}

  /** Converting a number below 256 to a byte keeps its eight bits. */
  lemma ByteFromNat(n: nat)
    requires n < 256
    ensures Unpack([n as bv8]) == FromNat(n, 8)
    ensures (n as bv8) as nat == n
  {
    hide Unpack, Pack, FromNat, ToNat, Pow2;
    var b := Pack(FromNat(n, 8))[0];
    assert Pow2(8) == 256 by { Pow2Values(); }
    ToNatFromNat(n, 8);
    UnpackPack(FromNat(n, 8));
    assert [b] == Pack(FromNat(n, 8));
    ByteValue(b);
    NumberOfByte(b);
  }
}
