/** Bytes as polynomials over GF(2) modulo x^8 + x^4 + x^3 + x + 1, section 4.2 of FIPS 197, and words of four. */
module Gf256 {

  /** Multiplication by x. */
  function XTime(b: bv8): bv8 {
    (b << 1) ^ (if b & 0x80 != 0 then 0x1b else 0)
  }

  function Times(a: bv8, b: bv8): bv8 {
    var a1 := XTime(a);
    var a2 := XTime(a1);
    var a3 := XTime(a2);
    var a4 := XTime(a3);
    var a5 := XTime(a4);
    var a6 := XTime(a5);
    var a7 := XTime(a6);
    (if b & 0x01 != 0 then a else 0) ^ (if b & 0x02 != 0 then a1 else 0) ^ (if b & 0x04 != 0 then a2 else 0) ^
    (if b & 0x08 != 0 then a3 else 0) ^ (if b & 0x10 != 0 then a4 else 0) ^ (if b & 0x20 != 0 then a5 else 0) ^
    (if b & 0x40 != 0 then a6 else 0) ^ (if b & 0x80 != 0 then a7 else 0)
  }

  /** The affine step of the S-box, equation 5.1 of FIPS 197. */
  function Affine(z: bv8): bv8 {
    z ^ ((z << 1) | (z >> 7)) ^ ((z << 2) | (z >> 6)) ^ ((z << 3) | (z >> 5)) ^ ((z << 4) | (z >> 4)) ^ 0x63
  }

  function Unaffine(y: bv8): bv8 {
    ((y << 1) | (y >> 7)) ^ ((y << 3) | (y >> 5)) ^ ((y << 6) | (y >> 2)) ^ 0x05
  }

  lemma AffineUnaffine(y: bv8)
    ensures Affine(Unaffine(y)) == y && Unaffine(Affine(y)) == y
  {}

  function Word(a: bv8, b: bv8, c: bv8, d: bv8): bv32 {
    (a as bv32 << 24) | (b as bv32 << 16) | (c as bv32 << 8) | (d as bv32)
  }

  /** Byte `r` of a word, counted from the high end. */
  function ByteAt(w: bv32, r: nat): bv8
    requires r < 4
  {
    if r == 0 then (w >> 24) as bv8
    else if r == 1 then ((w >> 16) & 0xff) as bv8
    else if r == 2 then ((w >> 8) & 0xff) as bv8
    else (w & 0xff) as bv8
  }

  lemma WordBytes(a: bv8, b: bv8, c: bv8, d: bv8)
    ensures ByteAt(Word(a, b, c, d), 0) == a && ByteAt(Word(a, b, c, d), 1) == b
    ensures ByteAt(Word(a, b, c, d), 2) == c && ByteAt(Word(a, b, c, d), 3) == d
  {}

  lemma WholeWord(w: bv32)
    ensures Word(ByteAt(w, 0), ByteAt(w, 1), ByteAt(w, 2), ByteAt(w, 3)) == w
  {}

  lemma MaskedWords(a: bv8, b: bv8, c: bv8, d: bv8)
    ensures (Word(a, a, a, a) & 0xff000000) ^ (Word(b, b, b, b) & 0x00ff0000) ^ (Word(c, c, c, c) & 0x0000ff00)
            ^ (Word(d, d, d, d) & 0x000000ff) == Word(a, b, c, d)
  {}

  /** Addition in the field, byte by byte in a word. */
  function Add(a: bv8, b: bv8): bv8 { a ^ b }

  function AddWord(v: bv32, w: bv32): bv32 { v ^ w }

  function Sum(a: bv8, b: bv8, c: bv8, d: bv8): bv8 { Add(Add(Add(a, b), c), d) }

  function SumWords(a: bv32, b: bv32, c: bv32, d: bv32): bv32 { AddWord(AddWord(AddWord(a, b), c), d) }

  lemma XorEachByte(v: bv32, w: bv32)
    ensures ByteAt(v ^ w, 0) == ByteAt(v, 0) ^ ByteAt(w, 0)
    ensures ByteAt(v ^ w, 1) == ByteAt(v, 1) ^ ByteAt(w, 1)
    ensures ByteAt(v ^ w, 2) == ByteAt(v, 2) ^ ByteAt(w, 2)
    ensures ByteAt(v ^ w, 3) == ByteAt(v, 3) ^ ByteAt(w, 3)
  {}

  lemma AddBytes(v: bv32, w: bv32)
    ensures ByteAt(AddWord(v, w), 0) == Add(ByteAt(v, 0), ByteAt(w, 0))
    ensures ByteAt(AddWord(v, w), 1) == Add(ByteAt(v, 1), ByteAt(w, 1))
    ensures ByteAt(AddWord(v, w), 2) == Add(ByteAt(v, 2), ByteAt(w, 2))
    ensures ByteAt(AddWord(v, w), 3) == Add(ByteAt(v, 3), ByteAt(w, 3))
  {
    hide ByteAt;
    XorEachByte(v, w);
  }

  lemma AddCommutes(a: bv8, b: bv8)
    ensures Add(a, b) == Add(b, a)
  {}

  lemma AddCancels(a: bv8, b: bv8)
    ensures Add(Add(a, b), b) == a
  {}

  lemma AddAssociates(a: bv8, b: bv8, c: bv8)
    ensures Add(Add(a, b), c) == Add(a, Add(b, c))
  {}

  lemma AddWordAssociates(a: bv32, b: bv32, c: bv32)
    ensures AddWord(AddWord(a, b), c) == AddWord(a, AddWord(b, c))
  {}

  lemma SumBytes(a: bv32, b: bv32, c: bv32, d: bv32)
    ensures ByteAt(SumWords(a, b, c, d), 0) == Sum(ByteAt(a, 0), ByteAt(b, 0), ByteAt(c, 0), ByteAt(d, 0))
    ensures ByteAt(SumWords(a, b, c, d), 1) == Sum(ByteAt(a, 1), ByteAt(b, 1), ByteAt(c, 1), ByteAt(d, 1))
    ensures ByteAt(SumWords(a, b, c, d), 2) == Sum(ByteAt(a, 2), ByteAt(b, 2), ByteAt(c, 2), ByteAt(d, 2))
    ensures ByteAt(SumWords(a, b, c, d), 3) == Sum(ByteAt(a, 3), ByteAt(b, 3), ByteAt(c, 3), ByteAt(d, 3))
  {
    hide ByteAt, Add, AddWord;
    AddBytes(a, b);
    AddBytes(AddWord(a, b), c);
    AddBytes(AddWord(AddWord(a, b), c), d);
  }

  lemma SumTurned(a: bv8, b: bv8, c: bv8, d: bv8)
    ensures Sum(a, b, c, d) == Sum(b, c, d, a) == Sum(c, d, a, b) == Sum(d, a, b, c)
  {
    hide Sum;
    SumTurnedOnce(a, b, c, d);
    SumTurnedOnce(b, c, d, a);
    SumTurnedOnce(c, d, a, b);
  }

  lemma SumTurnedOnce(a: bv8, b: bv8, c: bv8, d: bv8)
    ensures Sum(a, b, c, d) == Sum(b, c, d, a)
  {
    hide Add;
    AddAssociates(a, b, c);
    AddAssociates(a, Add(b, c), d);
    AddCommutes(a, Add(Add(b, c), d));
  }
}
