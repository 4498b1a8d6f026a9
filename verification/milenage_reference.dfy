/** Section 4.1 of 3GPP TS 35.206 on lists of 128 bits, most significant bit first, and that MilenageFunctions
    computes it. */
module MilenageReference {
  import opened Bits
  import opened Gf256
  import opened AesCipher
  import opened MilenageFunctions

  /** The exclusive or of two bit lists. */
  function Sum(x: BitSeq, y: BitSeq): (r: BitSeq)
    requires |x| == |y|
    ensures |r| == |x|
  {
    seq(|x|, i requires 0 <= i < |x| => x[i] != y[i])
  }

  /** The cyclic rotation by `r` bits towards the most significant bit. */
  function Turn(x: BitSeq, r: nat): (y: BitSeq)
    requires r <= |x|
    ensures |y| == |x|
  {
    x[r..] + x[..r]
  }

  /** AES-128, as appendices A.1 and B of FIPS 197 show it. */
  function Encrypt(k: BitSeq, x: BitSeq): (r: BitSeq)
    requires |k| == |x| == 128
    ensures |r| == 128
  {
    Unpack(Cipher(Pack(x), Expand(Pack(k), 4, 44), 10))
  }

  /** OUT1, from TEMP and IN1. */
  function Out1(k: BitSeq, opc: BitSeq, rand: BitSeq, sqn: BitSeq, amf: BitSeq): (r: BitSeq)
    requires |k| == |opc| == |rand| == 128 && |sqn| == 48 && |amf| == 16
    ensures |r| == 128
  {
    var temp, in1 := Encrypt(k, Sum(rand, opc)), sqn + amf + sqn + amf;
    Sum(Encrypt(k, Sum(Sum(temp, Turn(Sum(in1, opc), 64)), Zeros(128))), opc)
  }

  /** OUT2 to OUT5, from a rotation and a constant. */
  function OutOf(k: BitSeq, opc: BitSeq, rand: BitSeq, r: nat, c: BitSeq): (y: BitSeq)
    requires |k| == |opc| == |rand| == |c| == 128 && r <= 128
    ensures |y| == 128
  {
    var temp := Encrypt(k, Sum(rand, opc));
    Sum(Encrypt(k, Sum(Turn(Sum(temp, opc), r), c)), opc)
  }

  // ---------- bytes and bits ----------

  lemma SumBit(a: bv8, b: bv8, k: nat)
    requires k < 8
    ensures Bit(Add(a, b), k) == (Bit(a, k) != Bit(b, k))
  {
    if k == 0 {} else if k == 1 {} else if k == 2 {} else if k == 3 {} else if k == 4 {}
    else if k == 5 {} else if k == 6 {} else {}
  }

  lemma UnpackXor(a: seq<bv8>, b: seq<bv8>)
    requires |a| == |b|
    ensures Unpack(Xor(a, b)) == Sum(Unpack(a), Unpack(b))
  {
    hide Bit, Add;
    forall i | 0 <= i < 8 * |a| ensures Unpack(Xor(a, b))[i] == Sum(Unpack(a), Unpack(b))[i] {
      SumBit(a[i / 8], b[i / 8], i % 8);
    }
  }

  lemma UnpackRot(s: seq<bv8>, n: nat)
    requires |s| == 16 && n < 16
    ensures Unpack(Rot(s, n)) == Turn(Unpack(s), 8 * n)
  {
    hide Bit;
    assert Rot(s, n) == s[n..] + s[..n];
    UnpackAppend(s[n..], s[..n]);
    UnpackSlice(s, n, 16);
    UnpackSlice(s, 0, n);
    hide Unpack;
    assert s[n..] == s[n..16] && s[..n] == s[0..n];
  }

  /** A constant's low byte among zeros. */
  lemma UnpackLow(s: seq<bv8>, c: bv8, bits: BitSeq)
    requires |s| == 16 && |bits| == 128
    requires forall i | 0 <= i < 120 :: !bits[i]
    requires forall k | 0 <= k < 8 :: bits[120 + k] == Bit(c, k)
    ensures Unpack(Low(s, c)) == Sum(Unpack(s), bits)
  {
    hide Bit, Add;
    forall i | 0 <= i < 128 ensures Unpack(Low(s, c))[i] == Sum(Unpack(s), bits)[i] {
      if i >= 120 {
        SumBit(s[15], c, i - 120);
        assert bits[120 + (i - 120)] == Bit(c, i - 120);
      }
    }
  }

  lemma UnpackE(k: seq<bv8>, x: seq<bv8>)
    requires |k| == |x| == 16
    ensures Encrypt(Unpack(k), Unpack(x)) == Unpack(E(k, x))
  {
    hide Cipher, Expand, Unpack, Pack;
    PackUnpack(k);
    PackUnpack(x);
  }

  // ---------- the seven functions ----------

  lemma Out1Is(c: Challenge, sqn: seq<bv8>, amf: seq<bv8>)
    requires c.Valid() && |sqn| == 6 && |amf| == 2
    ensures Unpack(c.Out1(sqn, amf)) == Out1(Unpack(c.k), Unpack(c.opc), Unpack(c.rand), Unpack(sqn), Unpack(amf))
  {
    hide Unpack, Xor, Rot, E, Sum, Turn, Encrypt;
    var in1 := sqn + amf + sqn + amf;
    UnpackAppend(sqn, amf);
    UnpackAppend(sqn + amf, sqn);
    UnpackAppend(sqn + amf + sqn, amf);
    UnpackXor(c.rand, c.opc);
    UnpackE(c.k, Xor(c.rand, c.opc));
    UnpackXor(in1, c.opc);
    UnpackRot(Xor(in1, c.opc), 8);
    var turned := Rot(Xor(in1, c.opc), 8);
    UnpackXor(turned, c.Temp());
    SumZero(Unpack(turned), Unpack(c.Temp()));
    UnpackE(c.k, Xor(turned, c.Temp()));
    UnpackXor(E(c.k, Xor(turned, c.Temp())), c.opc);
  }

  lemma SumZero(x: BitSeq, y: BitSeq)
    requires |x| == |y| == 128
    ensures Sum(x, y) == Sum(Sum(y, x), Zeros(128))
  {}

  lemma OutIs(c: Challenge, n: nat, low: bv8, bits: BitSeq)
    requires c.Valid() && n < 16 && |bits| == 128
    requires forall i | 0 <= i < 120 :: !bits[i]
    requires forall k | 0 <= k < 8 :: bits[120 + k] == Bit(low, k)
    ensures Unpack(c.Out(n, low)) == OutOf(Unpack(c.k), Unpack(c.opc), Unpack(c.rand), 8 * n, bits)
  {
    hide Unpack, Xor, Rot, E, Sum, Turn, Encrypt, Low, Bit;
    UnpackXor(c.rand, c.opc);
    UnpackE(c.k, Xor(c.rand, c.opc));
    var temp := c.Temp();
    UnpackXor(temp, c.opc);
    UnpackRot(Xor(temp, c.opc), n);
    var turned := Rot(Xor(temp, c.opc), n);
    UnpackLow(turned, low, bits);
    UnpackE(c.k, Low(turned, low));
    UnpackXor(E(c.k, Low(turned, low)), c.opc);
  }

  lemma ConstantBits()
    ensures forall k: nat | k < 8 :: Bit(1, k) == (k == 7)
    ensures forall k: nat | k < 8 :: Bit(2, k) == (k == 6)
    ensures forall k: nat | k < 8 :: Bit(4, k) == (k == 5)
    ensures forall k: nat | k < 8 :: Bit(8, k) == (k == 4)
  {}

  /** f1 and f1* are the two halves of OUT1: r1 is 64 and c1 zero. */
  lemma F1IsReference(c: Challenge, sqn: seq<bv8>, amf: seq<bv8>)
    requires c.Valid() && |sqn| == 6 && |amf| == 2
    ensures
      var out1 := Out1(Unpack(c.k), Unpack(c.opc), Unpack(c.rand), Unpack(sqn), Unpack(amf));
      Unpack(c.F1(sqn, amf)) == out1[..64] && Unpack(c.F1Star(sqn, amf)) == out1[64..]
  {
    hide Out1, c.Out1, Unpack;
    Out1Is(c, sqn, amf);
    UnpackSlice(c.Out1(sqn, amf), 0, 8);
    UnpackSlice(c.Out1(sqn, amf), 8, 16);
    assert c.Out1(sqn, amf)[..8] == c.Out1(sqn, amf)[0..8] && c.Out1(sqn, amf)[8..] == c.Out1(sqn, amf)[8..16];
  }

  /** f2 and f5 are the low half and the first 48 bits of OUT2: r2 is zero and c2 one. */
  lemma F2F5AreReference(c: Challenge)
    requires c.Valid()
    ensures
      var out2 := OutOf(Unpack(c.k), Unpack(c.opc), Unpack(c.rand), 0, Zeros(127) + [true]);
      Unpack(c.F2()) == out2[64..] && Unpack(c.F5()) == out2[..48]
  {
    ConstantBits();
    hide Bit, OutOf, c.Out, Unpack;
    OutIs(c, 0, 1, Zeros(127) + [true]);
    Ends(c.Out(0, 1));
  }

  /** f3 is OUT3: r3 is 32 and c3 two. */
  lemma F3IsReference(c: Challenge)
    requires c.Valid()
    ensures Unpack(c.F3()) == OutOf(Unpack(c.k), Unpack(c.opc), Unpack(c.rand), 32, Zeros(126) + [true, false])
  {
    ConstantBits();
    hide Bit, OutOf, c.Out, Unpack;
    OutIs(c, 4, 2, Zeros(126) + [true, false]);
  }

  /** f4 is OUT4: r4 is 64 and c4 four. */
  lemma F4IsReference(c: Challenge)
    requires c.Valid()
    ensures Unpack(c.F4()) == OutOf(Unpack(c.k), Unpack(c.opc), Unpack(c.rand), 64, Zeros(125) + [true, false, false])
  {
    ConstantBits();
    hide Bit, OutOf, c.Out, Unpack;
    OutIs(c, 8, 4, Zeros(125) + [true, false, false]);
  }

  /** f5* is the first 48 bits of OUT5: r5 is 96 and c5 eight. */
  lemma F5StarIsReference(c: Challenge)
    requires c.Valid()
    ensures
      var out5 := OutOf(Unpack(c.k), Unpack(c.opc), Unpack(c.rand), 96, Zeros(124) + [true, false, false, false]);
      Unpack(c.F5Star()) == out5[..48]
  {
    ConstantBits();
    hide Bit, OutOf, c.Out, Unpack;
    OutIs(c, 12, 8, Zeros(124) + [true, false, false, false]);
    Ends(c.Out(12, 8));
  }

  lemma Ends(out: seq<bv8>)
    requires |out| == 16
    ensures Unpack(out[8..]) == Unpack(out)[64..] && Unpack(out[..6]) == Unpack(out)[..48]
  {
    hide Unpack;
    UnpackSlice(out, 8, 16);
    UnpackSlice(out, 0, 6);
    assert out[8..] == out[8..16] && out[..6] == out[0..6];
  }

  // ---------- the tokens ----------

  /** AUTN is SQN under AK, then AMF and MAC-A. */
  lemma AutnIsReference(c: Challenge, sqn: seq<bv8>, amf: seq<bv8>)
    requires c.Valid() && |sqn| == 6 && |amf| == 2
    ensures
      var k, opc, rand := Unpack(c.k), Unpack(c.opc), Unpack(c.rand);
      var ak := OutOf(k, opc, rand, 0, Zeros(127) + [true])[..48];
      var macA := Out1(k, opc, rand, Unpack(sqn), Unpack(amf))[..64];
      Unpack(c.Autn(sqn, amf)) == Sum(Unpack(sqn), ak) + Unpack(amf) + macA
  {
    hide Unpack, Sum, OutOf, Out1, Xor, c.F1, c.F2, c.F5;
    F1IsReference(c, sqn, amf);
    F2F5AreReference(c);
    UnpackXor(sqn, c.F5());
    UnpackAppend(Xor(sqn, c.F5()), amf);
    UnpackAppend(Xor(sqn, c.F5()) + amf, c.F1(sqn, amf));
  }

  /** AUTS is SQN under AK* and MAC-S, worked out with AMF zero. */
  lemma AutsIsReference(c: Challenge, sqn: seq<bv8>)
    requires c.Valid() && |sqn| == 6
    ensures
      var k, opc, rand := Unpack(c.k), Unpack(c.opc), Unpack(c.rand);
      var ak := OutOf(k, opc, rand, 96, Zeros(124) + [true, false, false, false])[..48];
      var macS := Out1(k, opc, rand, Unpack(sqn), Zeros(16))[64..];
      Unpack(c.Auts(sqn)) == Sum(Unpack(sqn), ak) + macS
  {
    ZeroAmf();
    hide Unpack, Sum, OutOf, Out1, Xor, c.F1, c.F1Star, c.F5Star;
    F1IsReference(c, sqn, [0, 0]);
    F5StarIsReference(c);
    UnpackXor(sqn, c.F5Star());
    UnpackAppend(Xor(sqn, c.F5Star()), c.F1Star(sqn, [0, 0]));
  }

  lemma ZeroAmf()
    ensures Unpack([0, 0]) == Zeros(16)
  {
    assert forall k: nat | k < 8 :: !Bit(0, k);
  }
}
