/** The examples of appendices A and B of FIPS 197, word by word and round by round. */
module AesVectors {
  import opened Bits
  import opened Gf256
  import opened AesTables
  import opened AesCipher
  import opened Aes
  import opened AesSchedule

  /** Four words of a schedule in a row. */
  predicate Four(w: seq<bv32>, i: nat, a: bv32, b: bv32, c: bv32, d: bv32) {
    i + 4 <= |w| && w[i] == a && w[i + 1] == b && w[i + 2] == c && w[i + 3] == d
  }

  // ---------- the schedules of appendix A ----------

  const KEY128: seq<bv8> :=
    [0x2b, 0x7e, 0x15, 0x16, 0x28, 0xae, 0xd2, 0xa6, 0xab, 0xf7, 0x15, 0x88, 0x09, 0xcf, 0x4f, 0x3c]

  const KEY192: seq<bv8> :=
    [0x8e, 0x73, 0xb0, 0xf7, 0xda, 0x0e, 0x64, 0x52, 0xc8, 0x10, 0xf3, 0x2b, 0x80, 0x90, 0x79, 0xe5]
    + [0x62, 0xf8, 0xea, 0xd2, 0x52, 0x2c, 0x6b, 0x7b]

  const KEY256: seq<bv8> :=
    [0x60, 0x3d, 0xeb, 0x10, 0x15, 0xca, 0x71, 0xbe, 0x2b, 0x73, 0xae, 0xf0, 0x85, 0x7d, 0x77, 0x81]
    + [0x1f, 0x35, 0x2c, 0x07, 0x3b, 0x61, 0x08, 0xd7, 0x2d, 0x98, 0x10, 0xa3, 0x09, 0x14, 0xdf, 0xf4]

  /** A turn of the schedule of a key of `nk` words, from the substituted word. */
  lemma Turn(w: seq<bv32>, key: seq<bv8>, nk: nat, q: nat, i: nat, last: bv32, t: bv32, a: bv32, b: bv32, c: bv32, d: bv32,
             v: bv32, x: bv32, y: bv32, z: bv32)
    requires 4 <= nk && 4 * nk <= |key| && IsSchedule(w, key, nk) && q >= 1 && i == nk * q && |w| >= i + 4
    requires Four(w, i - nk, a, b, c, d) && w[i - 1] == last && AddWord(SubWord(RotWord(last)), Rcon(q)) == t
    requires AddWord(a, t) == v && AddWord(b, v) == x && AddWord(c, x) == y && AddWord(d, y) == z
    ensures Four(w, i, v, x, y, z)
  {
    hide AddWord, SubWord, RotWord, Rcon, KeyWord;
    ModUnique(i, nk, q, 0);
    ModUnique(i + 1, nk, q, 1);
    ModUnique(i + 2, nk, q, 2);
    ModUnique(i + 3, nk, q, 3);
    assert w[i] == NextWord(w, key, nk, i) && w[i + 1] == NextWord(w, key, nk, i + 1);
    assert w[i + 2] == NextWord(w, key, nk, i + 2) && w[i + 3] == NextWord(w, key, nk, i + 3);
  }

  lemma Rotated(w: bv32, a: bv8, b: bv8, c: bv8, d: bv8, p: bv8, q: bv8, r: bv8, s: bv8, rotated: bv32)
    requires ByteAt(w, 0) == a && ByteAt(w, 1) == b && ByteAt(w, 2) == c && ByteAt(w, 3) == d
    requires SBox(a) == p && SBox(b) == q && SBox(c) == r && SBox(d) == s && Word(q, r, s, p) == rotated
    ensures SubWord(RotWord(w)) == rotated
  {
    hide ByteAt, SBox, Word;
    WordBytes(b, c, d, a);
  }

  lemma Replaced(w: bv32, a: bv8, b: bv8, c: bv8, d: bv8, p: bv8, q: bv8, r: bv8, s: bv8, replaced: bv32)
    requires ByteAt(w, 0) == a && ByteAt(w, 1) == b && ByteAt(w, 2) == c && ByteAt(w, 3) == d
    requires SBox(a) == p && SBox(b) == q && SBox(c) == r && SBox(d) == s && Word(p, q, r, s) == replaced
    ensures SubWord(w) == replaced
  {
    hide ByteAt, SBox, Word;
  }

  lemma First128(w: seq<bv32>)
    requires IsSchedule(w, KEY128, 4) && |w| == 44
    ensures Four(w, 0, 0x2b7e1516, 0x28aed2a6, 0xabf71588, 0x09cf4f3c)
  {
    assert w[0] == NextWord(w, KEY128, 4, 0) && w[1] == NextWord(w, KEY128, 4, 1);
    assert w[2] == NextWord(w, KEY128, 4, 2) && w[3] == NextWord(w, KEY128, 4, 3);
  }

  lemma Turn128At1(w: seq<bv32>)
    requires IsSchedule(w, KEY128, 4) && |w| == 44 && Four(w, 0, 0x2b7e1516, 0x28aed2a6, 0xabf71588, 0x09cf4f3c)
    ensures Four(w, 4, 0xa0fafe17, 0x88542cb1, 0x23a33939, 0x2a6c7605)
  {
    hide SubWord, RotWord, IsSchedule, Rcon, SBox;
    Boxed1();
    Rotated(0x09cf4f3c, 0x09, 0xcf, 0x4f, 0x3c, 0x01, 0x8a, 0x84, 0xeb, 0x8a84eb01);
    RconIsPower(0);
    Turn(w, KEY128, 4, 1, 4, 0x09cf4f3c, 0x8b84eb01, 0x2b7e1516, 0x28aed2a6, 0xabf71588, 0x09cf4f3c, 0xa0fafe17, 0x88542cb1, 0x23a33939, 0x2a6c7605);
  }

  lemma Boxed1()
    ensures SBox(0x09) == 0x01 && SBox(0xcf) == 0x8a
    ensures SBox(0x4f) == 0x84 && SBox(0x3c) == 0xeb
  {}

  lemma Turn128At2(w: seq<bv32>)
    requires IsSchedule(w, KEY128, 4) && |w| == 44 && Four(w, 4, 0xa0fafe17, 0x88542cb1, 0x23a33939, 0x2a6c7605)
    ensures Four(w, 8, 0xf2c295f2, 0x7a96b943, 0x5935807a, 0x7359f67f)
  {
    hide SubWord, RotWord, IsSchedule, Rcon, SBox;
    Boxed2();
    Rotated(0x2a6c7605, 0x2a, 0x6c, 0x76, 0x05, 0xe5, 0x50, 0x38, 0x6b, 0x50386be5);
    RconIsPower(1);
    Turn(w, KEY128, 4, 2, 8, 0x2a6c7605, 0x52386be5, 0xa0fafe17, 0x88542cb1, 0x23a33939, 0x2a6c7605, 0xf2c295f2, 0x7a96b943, 0x5935807a, 0x7359f67f);
  }

  lemma Boxed2()
    ensures SBox(0x2a) == 0xe5 && SBox(0x6c) == 0x50
    ensures SBox(0x76) == 0x38 && SBox(0x05) == 0x6b
  {}

  lemma Turn128At3(w: seq<bv32>)
    requires IsSchedule(w, KEY128, 4) && |w| == 44 && Four(w, 8, 0xf2c295f2, 0x7a96b943, 0x5935807a, 0x7359f67f)
    ensures Four(w, 12, 0x3d80477d, 0x4716fe3e, 0x1e237e44, 0x6d7a883b)
  {
    hide SubWord, RotWord, IsSchedule, Rcon, SBox;
    Boxed3();
    Rotated(0x7359f67f, 0x73, 0x59, 0xf6, 0x7f, 0x8f, 0xcb, 0x42, 0xd2, 0xcb42d28f);
    RconIsPower(2);
    Turn(w, KEY128, 4, 3, 12, 0x7359f67f, 0xcf42d28f, 0xf2c295f2, 0x7a96b943, 0x5935807a, 0x7359f67f, 0x3d80477d, 0x4716fe3e, 0x1e237e44, 0x6d7a883b);
  }

  lemma Boxed3()
    ensures SBox(0x73) == 0x8f && SBox(0x59) == 0xcb
    ensures SBox(0xf6) == 0x42 && SBox(0x7f) == 0xd2
  {}

  lemma Turn128At4(w: seq<bv32>)
    requires IsSchedule(w, KEY128, 4) && |w| == 44 && Four(w, 12, 0x3d80477d, 0x4716fe3e, 0x1e237e44, 0x6d7a883b)
    ensures Four(w, 16, 0xef44a541, 0xa8525b7f, 0xb671253b, 0xdb0bad00)
  {
    hide SubWord, RotWord, IsSchedule, Rcon, SBox;
    Boxed4();
    Rotated(0x6d7a883b, 0x6d, 0x7a, 0x88, 0x3b, 0x3c, 0xda, 0xc4, 0xe2, 0xdac4e23c);
    RconIsPower(3);
    Turn(w, KEY128, 4, 4, 16, 0x6d7a883b, 0xd2c4e23c, 0x3d80477d, 0x4716fe3e, 0x1e237e44, 0x6d7a883b, 0xef44a541, 0xa8525b7f, 0xb671253b, 0xdb0bad00);
  }

  lemma Boxed4()
    ensures SBox(0x6d) == 0x3c && SBox(0x7a) == 0xda
    ensures SBox(0x88) == 0xc4 && SBox(0x3b) == 0xe2
  {}

  lemma Turn128At5(w: seq<bv32>)
    requires IsSchedule(w, KEY128, 4) && |w| == 44 && Four(w, 16, 0xef44a541, 0xa8525b7f, 0xb671253b, 0xdb0bad00)
    ensures Four(w, 20, 0xd4d1c6f8, 0x7c839d87, 0xcaf2b8bc, 0x11f915bc)
  {
    hide SubWord, RotWord, IsSchedule, Rcon, SBox;
    Boxed5();
    Rotated(0xdb0bad00, 0xdb, 0x0b, 0xad, 0x00, 0xb9, 0x2b, 0x95, 0x63, 0x2b9563b9);
    RconIsPower(4);
    Turn(w, KEY128, 4, 5, 20, 0xdb0bad00, 0x3b9563b9, 0xef44a541, 0xa8525b7f, 0xb671253b, 0xdb0bad00, 0xd4d1c6f8, 0x7c839d87, 0xcaf2b8bc, 0x11f915bc);
  }

  lemma Boxed5()
    ensures SBox(0xdb) == 0xb9 && SBox(0x0b) == 0x2b
    ensures SBox(0xad) == 0x95 && SBox(0x00) == 0x63
  {}

  lemma Turn128At6(w: seq<bv32>)
    requires IsSchedule(w, KEY128, 4) && |w| == 44 && Four(w, 20, 0xd4d1c6f8, 0x7c839d87, 0xcaf2b8bc, 0x11f915bc)
    ensures Four(w, 24, 0x6d88a37a, 0x110b3efd, 0xdbf98641, 0xca0093fd)
  {
    hide SubWord, RotWord, IsSchedule, Rcon, SBox;
    Boxed6();
    Rotated(0x11f915bc, 0x11, 0xf9, 0x15, 0xbc, 0x82, 0x99, 0x59, 0x65, 0x99596582);
    RconIsPower(5);
    Turn(w, KEY128, 4, 6, 24, 0x11f915bc, 0xb9596582, 0xd4d1c6f8, 0x7c839d87, 0xcaf2b8bc, 0x11f915bc, 0x6d88a37a, 0x110b3efd, 0xdbf98641, 0xca0093fd);
  }

  lemma Boxed6()
    ensures SBox(0x11) == 0x82 && SBox(0xf9) == 0x99
    ensures SBox(0x15) == 0x59 && SBox(0xbc) == 0x65
  {}

  lemma Turn128At7(w: seq<bv32>)
    requires IsSchedule(w, KEY128, 4) && |w| == 44 && Four(w, 24, 0x6d88a37a, 0x110b3efd, 0xdbf98641, 0xca0093fd)
    ensures Four(w, 28, 0x4e54f70e, 0x5f5fc9f3, 0x84a64fb2, 0x4ea6dc4f)
  {
    hide SubWord, RotWord, IsSchedule, Rcon, SBox;
    Boxed7();
    Rotated(0xca0093fd, 0xca, 0x00, 0x93, 0xfd, 0x74, 0x63, 0xdc, 0x54, 0x63dc5474);
    RconIsPower(6);
    Turn(w, KEY128, 4, 7, 28, 0xca0093fd, 0x23dc5474, 0x6d88a37a, 0x110b3efd, 0xdbf98641, 0xca0093fd, 0x4e54f70e, 0x5f5fc9f3, 0x84a64fb2, 0x4ea6dc4f);
  }

  lemma Boxed7()
    ensures SBox(0xca) == 0x74 && SBox(0x00) == 0x63
    ensures SBox(0x93) == 0xdc && SBox(0xfd) == 0x54
  {
    hide SBox;
    Boxed7First();
    Boxed7Second();
  }

  lemma Boxed7First()
    ensures SBox(0xca) == 0x74 && SBox(0x00) == 0x63
  {}

  lemma Boxed7Second()
    ensures SBox(0x93) == 0xdc && SBox(0xfd) == 0x54
  {}

  lemma Turn128At8(w: seq<bv32>)
    requires IsSchedule(w, KEY128, 4) && |w| == 44 && Four(w, 28, 0x4e54f70e, 0x5f5fc9f3, 0x84a64fb2, 0x4ea6dc4f)
    ensures Four(w, 32, 0xead27321, 0xb58dbad2, 0x312bf560, 0x7f8d292f)
  {
    hide SubWord, RotWord, IsSchedule, Rcon, SBox;
    Boxed8();
    Rotated(0x4ea6dc4f, 0x4e, 0xa6, 0xdc, 0x4f, 0x2f, 0x24, 0x86, 0x84, 0x2486842f);
    RconIsPower(7);
    Turn(w, KEY128, 4, 8, 32, 0x4ea6dc4f, 0xa486842f, 0x4e54f70e, 0x5f5fc9f3, 0x84a64fb2, 0x4ea6dc4f, 0xead27321, 0xb58dbad2, 0x312bf560, 0x7f8d292f);
  }

  lemma Boxed8()
    ensures SBox(0x4e) == 0x2f && SBox(0xa6) == 0x24
    ensures SBox(0xdc) == 0x86 && SBox(0x4f) == 0x84
  {
    hide SBox;
    Boxed8First();
    Boxed8Second();
  }

  lemma Boxed8First()
    ensures SBox(0x4e) == 0x2f && SBox(0xa6) == 0x24
  {}

  lemma Boxed8Second()
    ensures SBox(0xdc) == 0x86 && SBox(0x4f) == 0x84
  {}

  lemma Turn128At9(w: seq<bv32>)
    requires IsSchedule(w, KEY128, 4) && |w| == 44 && Four(w, 32, 0xead27321, 0xb58dbad2, 0x312bf560, 0x7f8d292f)
    ensures Four(w, 36, 0xac7766f3, 0x19fadc21, 0x28d12941, 0x575c006e)
  {
    hide SubWord, RotWord, IsSchedule, Rcon, SBox;
    Boxed9();
    Rotated(0x7f8d292f, 0x7f, 0x8d, 0x29, 0x2f, 0xd2, 0x5d, 0xa5, 0x15, 0x5da515d2);
    RconIsPower(8);
    Turn(w, KEY128, 4, 9, 36, 0x7f8d292f, 0x46a515d2, 0xead27321, 0xb58dbad2, 0x312bf560, 0x7f8d292f, 0xac7766f3, 0x19fadc21, 0x28d12941, 0x575c006e);
  }

  lemma Boxed9()
    ensures SBox(0x7f) == 0xd2 && SBox(0x8d) == 0x5d
    ensures SBox(0x29) == 0xa5 && SBox(0x2f) == 0x15
  {}

  lemma Turn128At10(w: seq<bv32>)
    requires IsSchedule(w, KEY128, 4) && |w| == 44 && Four(w, 36, 0xac7766f3, 0x19fadc21, 0x28d12941, 0x575c006e)
    ensures Four(w, 40, 0xd014f9a8, 0xc9ee2589, 0xe13f0cc8, 0xb6630ca6)
  {
    hide SubWord, RotWord, IsSchedule, Rcon, SBox;
    Boxed10();
    Rotated(0x575c006e, 0x57, 0x5c, 0x00, 0x6e, 0x5b, 0x4a, 0x63, 0x9f, 0x4a639f5b);
    RconIsPower(9);
    Turn(w, KEY128, 4, 10, 40, 0x575c006e, 0x7c639f5b, 0xac7766f3, 0x19fadc21, 0x28d12941, 0x575c006e, 0xd014f9a8, 0xc9ee2589, 0xe13f0cc8, 0xb6630ca6);
  }

  lemma Boxed10()
    ensures SBox(0x57) == 0x5b && SBox(0x5c) == 0x4a
    ensures SBox(0x00) == 0x63 && SBox(0x6e) == 0x9f
  {}

  /** Appendix A.1: all words of the schedule of a 128-bit key. */
  lemma Schedule128()
    ensures
      var w := Expand(KEY128, 4, 44);
      && Four(w, 0, 0x2b7e1516, 0x28aed2a6, 0xabf71588, 0x09cf4f3c)
      && Four(w, 4, 0xa0fafe17, 0x88542cb1, 0x23a33939, 0x2a6c7605)
      && Four(w, 8, 0xf2c295f2, 0x7a96b943, 0x5935807a, 0x7359f67f)
      && Four(w, 12, 0x3d80477d, 0x4716fe3e, 0x1e237e44, 0x6d7a883b)
      && Four(w, 16, 0xef44a541, 0xa8525b7f, 0xb671253b, 0xdb0bad00)
      && Four(w, 20, 0xd4d1c6f8, 0x7c839d87, 0xcaf2b8bc, 0x11f915bc)
      && Four(w, 24, 0x6d88a37a, 0x110b3efd, 0xdbf98641, 0xca0093fd)
      && Four(w, 28, 0x4e54f70e, 0x5f5fc9f3, 0x84a64fb2, 0x4ea6dc4f)
      && Four(w, 32, 0xead27321, 0xb58dbad2, 0x312bf560, 0x7f8d292f)
      && Four(w, 36, 0xac7766f3, 0x19fadc21, 0x28d12941, 0x575c006e)
      && Four(w, 40, 0xd014f9a8, 0xc9ee2589, 0xe13f0cc8, 0xb6630ca6)
  {
    var w := Expand(KEY128, 4, 44);
    ScheduleIsExpansion(w, KEY128, 4);
    hide Expand, IsSchedule;
    First128(w);
    Turn128At1(w);
    Turn128At2(w);
    Turn128At3(w);
    Turn128At4(w);
    Turn128At5(w);
    Turn128At6(w);
    Turn128At7(w);
    Turn128At8(w);
    Turn128At9(w);
    Turn128At10(w);
  }

  /** Appendix A.2: the first turn of the schedule of a 192-bit key. */
  lemma Schedule192()
    ensures
      var w := Expand(KEY192, 6, 52);
      && Four(w, 0, 0x8e73b0f7, 0xda0e6452, 0xc810f32b, 0x809079e5) && w[4] == 0x62f8ead2 && w[5] == 0x522c6b7b
      && Four(w, 6, 0xfe0c91f7, 0x2402f5a5, 0xec12068e, 0x6c827f6b) && w[10] == 0x0e7a95b9 && w[11] == 0x5c56fec2
  {
    var w := Expand(KEY192, 6, 52);
    ScheduleIsExpansion(w, KEY192, 6);
    hide Expand;
    First192(w);
    Turn192(w);
    assert w[10] == NextWord(w, KEY192, 6, 10) && w[11] == NextWord(w, KEY192, 6, 11);
  }

  lemma First192(w: seq<bv32>)
    requires IsSchedule(w, KEY192, 6) && |w| == 52
    ensures Four(w, 0, 0x8e73b0f7, 0xda0e6452, 0xc810f32b, 0x809079e5) && w[4] == 0x62f8ead2 && w[5] == 0x522c6b7b
  {
    assert w[0] == NextWord(w, KEY192, 6, 0) && w[1] == NextWord(w, KEY192, 6, 1) && w[2] == NextWord(w, KEY192, 6, 2);
    assert w[3] == NextWord(w, KEY192, 6, 3) && w[4] == NextWord(w, KEY192, 6, 4) && w[5] == NextWord(w, KEY192, 6, 5);
  }

  lemma Turn192(w: seq<bv32>)
    requires IsSchedule(w, KEY192, 6) && |w| == 52 && Four(w, 0, 0x8e73b0f7, 0xda0e6452, 0xc810f32b, 0x809079e5) && w[5] == 0x522c6b7b
    ensures Four(w, 6, 0xfe0c91f7, 0x2402f5a5, 0xec12068e, 0x6c827f6b)
  {
    hide SubWord, RotWord, IsSchedule, Rcon, SBox;
    Boxed192();
    Rotated(0x522c6b7b, 0x52, 0x2c, 0x6b, 0x7b, 0x00, 0x71, 0x7f, 0x21, 0x717f2100);
    RconIsPower(0);
    Turn(w, KEY192, 6, 1, 6, 0x522c6b7b, 0x707f2100, 0x8e73b0f7, 0xda0e6452, 0xc810f32b, 0x809079e5, 0xfe0c91f7, 0x2402f5a5, 0xec12068e, 0x6c827f6b);
  }

  lemma Boxed192()
    ensures SBox(0x52) == 0x00 && SBox(0x2c) == 0x71
    ensures SBox(0x6b) == 0x7f && SBox(0x7b) == 0x21
  {}

  /** Appendix A.3: the first turn of the schedule of a 256-bit key, with the substitution in its middle. */
  lemma Schedule256()
    ensures
      var w := Expand(KEY256, 8, 60);
      && Four(w, 0, 0x603deb10, 0x15ca71be, 0x2b73aef0, 0x857d7781) && Four(w, 4, 0x1f352c07, 0x3b6108d7, 0x2d9810a3, 0x0914dff4)
      && Four(w, 8, 0x9ba35411, 0x8e6925af, 0xa51a8b5f, 0x2067fcde) && Four(w, 12, 0xa8b09c1a, 0x93d194cd, 0xbe49846e, 0xb75d5b9a)
  {
    var w := Expand(KEY256, 8, 60);
    ScheduleIsExpansion(w, KEY256, 8);
    hide Expand;
    First256(w);
    Turn256(w);
    Middle256(w);
  }

  lemma First256(w: seq<bv32>)
    requires IsSchedule(w, KEY256, 8) && |w| == 60
    ensures Four(w, 0, 0x603deb10, 0x15ca71be, 0x2b73aef0, 0x857d7781) && Four(w, 4, 0x1f352c07, 0x3b6108d7, 0x2d9810a3, 0x0914dff4)
  {
    assert w[0] == NextWord(w, KEY256, 8, 0) && w[1] == NextWord(w, KEY256, 8, 1) && w[2] == NextWord(w, KEY256, 8, 2);
    assert w[3] == NextWord(w, KEY256, 8, 3) && w[4] == NextWord(w, KEY256, 8, 4) && w[5] == NextWord(w, KEY256, 8, 5);
    assert w[6] == NextWord(w, KEY256, 8, 6) && w[7] == NextWord(w, KEY256, 8, 7);
  }

  lemma Turn256(w: seq<bv32>)
    requires IsSchedule(w, KEY256, 8) && |w| == 60 && Four(w, 0, 0x603deb10, 0x15ca71be, 0x2b73aef0, 0x857d7781) && w[7] == 0x0914dff4
    ensures Four(w, 8, 0x9ba35411, 0x8e6925af, 0xa51a8b5f, 0x2067fcde)
  {
    hide SubWord, RotWord, IsSchedule, Rcon, SBox;
    Boxed256();
    Rotated(0x0914dff4, 0x09, 0x14, 0xdf, 0xf4, 0x01, 0xfa, 0x9e, 0xbf, 0xfa9ebf01);
    RconIsPower(0);
    Turn(w, KEY256, 8, 1, 8, 0x0914dff4, 0xfb9ebf01, 0x603deb10, 0x15ca71be, 0x2b73aef0, 0x857d7781, 0x9ba35411, 0x8e6925af, 0xa51a8b5f, 0x2067fcde);
  }

  lemma Boxed256()
    ensures SBox(0x09) == 0x01 && SBox(0x14) == 0xfa
    ensures SBox(0xdf) == 0x9e && SBox(0xf4) == 0xbf
  {
    hide SBox;
    Boxed256First();
    Boxed256Second();
  }

  lemma Boxed256First()
    ensures SBox(0x09) == 0x01 && SBox(0x14) == 0xfa
  {}

  lemma Boxed256Second()
    ensures SBox(0xdf) == 0x9e && SBox(0xf4) == 0xbf
  {}

  lemma BoxedMiddle256()
    ensures SBox(0x20) == 0xb7 && SBox(0x67) == 0x85
    ensures SBox(0xfc) == 0xb0 && SBox(0xde) == 0x1d
  {
    hide SBox;
    BoxedMiddle256First();
    BoxedMiddle256Second();
  }

  lemma BoxedMiddle256First()
    ensures SBox(0x20) == 0xb7 && SBox(0x67) == 0x85
  {}

  lemma BoxedMiddle256Second()
    ensures SBox(0xfc) == 0xb0 && SBox(0xde) == 0x1d
  {}

  lemma Middle256(w: seq<bv32>)
    requires IsSchedule(w, KEY256, 8) && |w| == 60 && Four(w, 4, 0x1f352c07, 0x3b6108d7, 0x2d9810a3, 0x0914dff4) && Four(w, 8, 0x9ba35411, 0x8e6925af, 0xa51a8b5f, 0x2067fcde)
    ensures Four(w, 12, 0xa8b09c1a, 0x93d194cd, 0xbe49846e, 0xb75d5b9a)
  {
    hide SubWord, SBox;
    BoxedMiddle256();
    Replaced(0x2067fcde, 0x20, 0x67, 0xfc, 0xde, 0xb7, 0x85, 0xb0, 0x1d, 0xb785b01d);
    hide AddWord;
    assert w[12] == NextWord(w, KEY256, 8, 12) && w[13] == NextWord(w, KEY256, 8, 13);
    assert w[14] == NextWord(w, KEY256, 8, 14) && w[15] == NextWord(w, KEY256, 8, 15);
  }

  // ---------- the cipher of appendix B ----------

  const INPUT: seq<bv8> := [0x32, 0x43, 0xf6, 0xa8, 0x88, 0x5a, 0x30, 0x8d, 0x31, 0x31, 0x98, 0xa2, 0xe0, 0x37, 0x07, 0x34]

  /** A column through the tables and under a word of the key, by its four lookups. */
  lemma Mixed(a: bv32, b: bv32, c: bv32, d: bv32, x: bv8, y: bv8, z: bv8, u: bv8, p: bv32, q: bv32, r: bv32, s: bv32, k: bv32, out: bv32)
    requires ByteAt(a, 0) == x && ByteAt(b, 1) == y && ByteAt(c, 2) == z && ByteAt(d, 3) == u
    requires Te0(x) == p && Te1(y) == q && Te2(z) == r && Te3(u) == s && AddWord(SumWords(p, q, r, s), k) == out
    ensures AddWord(TMix(a, b, c, d), k) == out
  {
    hide ByteAt, Te0, Te1, Te2, Te3, SumWords, AddWord;
  }

  /** A column through the last table. */
  lemma Substituted(x: bv8, y: bv8, z: bv8, u: bv8, p: bv32, q: bv32, r: bv32, s: bv32, k: bv32, out: bv32)
    requires Te4(x) == p && Te4(y) == q && Te4(z) == r && Te4(u) == s
    requires AddWord((p & 0xff000000) ^ (q & 0x00ff0000) ^ (r & 0x0000ff00) ^ (s & 0x000000ff), k) == out
    ensures AddWord(TSub(x, y, z, u), k) == out
  {
    hide Te4, AddWord;
  }

  lemma Round1Te0()
    ensures Te0(0x19) == 0xb3d4d467 && Te0(0xa0) == 0xdbe0e03b
    ensures Te0(0x9a) == 0x6bb8b8d3 && Te0(0xe9) == 0x3c1e1e22
  {}

  lemma Round1Te1()
    ensures Te1(0xf4) == 0xda65bfbf && Te1(0xc6) == 0xc773b4b4
    ensures Te1(0xf8) == 0xc3824141 && Te1(0x3d) == 0x694e2727
  {
    hide Te1;
    Round1Te1First();
    Round1Te1Second();
  }

  lemma Round1Te1First()
    ensures Te1(0xf4) == 0xda65bfbf && Te1(0xc6) == 0xc773b4b4
  {}

  lemma Round1Te1Second()
    ensures Te1(0xf8) == 0xc3824141 && Te1(0x3d) == 0x694e2727
  {}

  lemma Round1Te2()
    ensures Te2(0x8d) == 0x5de7ba5d && Te2(0x48) == 0x52f6a452
    ensures Te2(0xe3) == 0x11332211 && Te2(0xe2) == 0x98b32b98
  {}

  lemma Round1Te3()
    ensures Te3(0x08) == 0x30305060 && Te3(0xbe) == 0xaeaee947
    ensures Te3(0x2b) == 0xf1f108f9 && Te3(0x2a) == 0xe5e534d1
  {}

  lemma Round1(w: seq<bv32>)
    requires |w| == 44 && Four(w, 4, 0xa0fafe17, 0x88542cb1, 0x23a33939, 0x2a6c7605)
    requires TRounds(INPUT, w, 0) == Block(0x193de3be, 0xa0f4e22b, 0x9ac68d2a, 0xe9f84808)
    ensures TRounds(INPUT, w, 1) == Block(0xa49c7ff2, 0x689f352b, 0x6b5bea43, 0x026a5049)
  {
    hide TMix, Te0, Te1, Te2, Te3;
    Round1Te0();
    Round1Te1();
    Round1Te2();
    Round1Te3();
    Mixed(0x193de3be, 0xa0f4e22b, 0x9ac68d2a, 0xe9f84808, 0x19, 0xf4, 0x8d, 0x08,
          0xb3d4d467, 0xda65bfbf, 0x5de7ba5d, 0x30305060, 0xa0fafe17, 0xa49c7ff2);
    Mixed(0xa0f4e22b, 0x9ac68d2a, 0xe9f84808, 0x193de3be, 0xa0, 0xc6, 0x48, 0xbe,
          0xdbe0e03b, 0xc773b4b4, 0x52f6a452, 0xaeaee947, 0x88542cb1, 0x689f352b);
    Mixed(0x9ac68d2a, 0xe9f84808, 0x193de3be, 0xa0f4e22b, 0x9a, 0xf8, 0xe3, 0x2b,
          0x6bb8b8d3, 0xc3824141, 0x11332211, 0xf1f108f9, 0x23a33939, 0x6b5bea43);
    Mixed(0xe9f84808, 0x193de3be, 0xa0f4e22b, 0x9ac68d2a, 0xe9, 0x3d, 0xe2, 0x2a,
          0x3c1e1e22, 0x694e2727, 0x98b32b98, 0xe5e534d1, 0x2a6c7605, 0x026a5049);
  }

  lemma Round2Te0()
    ensures Te0(0xa4) == 0x924949db && Te0(0x68) == 0x8a4545cf
    ensures Te0(0x6b) == 0xfe7f7f81 && Te0(0x02) == 0xee777799
  {}

  lemma Round2Te1()
    ensures Te1(0x9f) == 0x76addbdb && Te1(0x5b) == 0x4b723939
    ensures Te1(0x6a) == 0x06040202 && Te1(0x9c) == 0x79a7dede
  {
    hide Te1;
    Round2Te1First();
    Round2Te1Second();
  }

  lemma Round2Te1First()
    ensures Te1(0x9f) == 0x76addbdb && Te1(0x5b) == 0x4b723939
  {}

  lemma Round2Te1Second()
    ensures Te1(0x6a) == 0x06040202 && Te1(0x9c) == 0x79a7dede
  {}

  lemma Round2Te2()
    ensures Te2(0xea) == 0x87921587 && Te2(0x50) == 0x53f5a653
    ensures Te2(0x7f) == 0xd26dbfd2 && Te2(0x35) == 0x96a13796
  {}

  lemma Round2Te3()
    ensures Te3(0x49) == 0x3b3b4d76 && Te3(0xf2) == 0x89898009
    ensures Te3(0x2b) == 0xf1f108f9 && Te3(0x43) == 0x1a1a2e34
  {}

  lemma Round2(w: seq<bv32>)
    requires |w| == 44 && Four(w, 8, 0xf2c295f2, 0x7a96b943, 0x5935807a, 0x7359f67f)
    requires TRounds(INPUT, w, 1) == Block(0xa49c7ff2, 0x689f352b, 0x6b5bea43, 0x026a5049)
    ensures TRounds(INPUT, w, 2) == Block(0xaa8f5f03, 0x61dde3ef, 0x82d24ad2, 0x6832469a)
  {
    hide TMix, Te0, Te1, Te2, Te3;
    Round2Te0();
    Round2Te1();
    Round2Te2();
    Round2Te3();
    Mixed(0xa49c7ff2, 0x689f352b, 0x6b5bea43, 0x026a5049, 0xa4, 0x9f, 0xea, 0x49,
          0x924949db, 0x76addbdb, 0x87921587, 0x3b3b4d76, 0xf2c295f2, 0xaa8f5f03);
    Mixed(0x689f352b, 0x6b5bea43, 0x026a5049, 0xa49c7ff2, 0x68, 0x5b, 0x50, 0xf2,
          0x8a4545cf, 0x4b723939, 0x53f5a653, 0x89898009, 0x7a96b943, 0x61dde3ef);
    Mixed(0x6b5bea43, 0x026a5049, 0xa49c7ff2, 0x689f352b, 0x6b, 0x6a, 0x7f, 0x2b,
          0xfe7f7f81, 0x06040202, 0xd26dbfd2, 0xf1f108f9, 0x5935807a, 0x82d24ad2);
    Mixed(0x026a5049, 0xa49c7ff2, 0x689f352b, 0x6b5bea43, 0x02, 0x9c, 0x35, 0x43,
          0xee777799, 0x79a7dede, 0x96a13796, 0x1a1a2e34, 0x7359f67f, 0x6832469a);
  }

  lemma Round3Te0()
    ensures Te0(0xaa) == 0x43acacef && Te0(0x61) == 0xc5efef2a
    ensures Te0(0x82) == 0x26131335 && Te0(0x68) == 0x8a4545cf
  {}

  lemma Round3Te1()
    ensures Te1(0xdd) == 0x5899c1c1 && Te1(0xd2) == 0xc471b5b5
    ensures Te1(0x32) == 0x65462323 && Te1(0x8f) == 0x95e67373
  {}

  lemma Round3Te2()
    ensures Te2(0x4a) == 0xd661b7d6 && Te2(0x46) == 0x5aeeb45a
    ensures Te2(0x5f) == 0xcf4a85cf && Te2(0xe3) == 0x11332211
  {}

  lemma Round3Te3()
    ensures Te3(0x9a) == 0xb8b8d36b && Te3(0x03) == 0x7b7b8df6
    ensures Te3(0xef) == 0xdfdf7aa5 && Te3(0xd2) == 0xb5b5c471
  {
    hide Te3;
    Round3Te3First();
    Round3Te3Second();
  }

  lemma Round3Te3First()
    ensures Te3(0x9a) == 0xb8b8d36b && Te3(0x03) == 0x7b7b8df6
  {}

  lemma Round3Te3Second()
    ensures Te3(0xef) == 0xdfdf7aa5 && Te3(0xd2) == 0xb5b5c471
  {}

  lemma Round3(w: seq<bv32>)
    requires |w| == 44 && Four(w, 12, 0x3d80477d, 0x4716fe3e, 0x1e237e44, 0x6d7a883b)
    requires TRounds(INPUT, w, 2) == Block(0xaa8f5f03, 0x61dde3ef, 0x82d24ad2, 0x6832469a)
    ensures TRounds(INPUT, w, 3) == Block(0x486c4eee, 0x671d9d0d, 0x4de3b138, 0xd65f58e7)
  {
    hide TMix, Te0, Te1, Te2, Te3;
    Round3Te0();
    Round3Te1();
    Round3Te2();
    Round3Te3();
    Mixed(0xaa8f5f03, 0x61dde3ef, 0x82d24ad2, 0x6832469a, 0xaa, 0xdd, 0x4a, 0x9a,
          0x43acacef, 0x5899c1c1, 0xd661b7d6, 0xb8b8d36b, 0x3d80477d, 0x486c4eee);
    Mixed(0x61dde3ef, 0x82d24ad2, 0x6832469a, 0xaa8f5f03, 0x61, 0xd2, 0x46, 0x03,
          0xc5efef2a, 0xc471b5b5, 0x5aeeb45a, 0x7b7b8df6, 0x4716fe3e, 0x671d9d0d);
    Mixed(0x82d24ad2, 0x6832469a, 0xaa8f5f03, 0x61dde3ef, 0x82, 0x32, 0x5f, 0xef,
          0x26131335, 0x65462323, 0xcf4a85cf, 0xdfdf7aa5, 0x1e237e44, 0x4de3b138);
    Mixed(0x6832469a, 0xaa8f5f03, 0x61dde3ef, 0x82d24ad2, 0x68, 0x8f, 0xe3, 0xd2,
          0x8a4545cf, 0x95e67373, 0x11332211, 0xb5b5c471, 0x6d7a883b, 0xd65f58e7);
  }

  lemma Round4Te0()
    ensures Te0(0x48) == 0xa45252f6 && Te0(0x67) == 0x11858594
    ensures Te0(0x4d) == 0xdde3e33e && Te0(0xd6) == 0xf7f6f601
  {}

  lemma Round4Te1()
    ensures Te1(0x1d) == 0xf753a4a4 && Te1(0xe3) == 0x33221111
    ensures Te1(0x5f) == 0x4a85cfcf && Te1(0x6c) == 0xf0a05050
  {
    hide Te1;
    Round4Te1First();
    Round4Te1Second();
  }

  lemma Round4Te1First()
    ensures Te1(0x1d) == 0xf753a4a4 && Te1(0xe3) == 0x33221111
  {}

  lemma Round4Te1Second()
    ensures Te1(0x5f) == 0x4a85cfcf && Te1(0x6c) == 0xf0a05050
  {}

  lemma Round4Te2()
    ensures Te2(0xb1) == 0xc8438bc8 && Te2(0x58) == 0x6abed46a
    ensures Te2(0x4e) == 0x2f715e2f && Te2(0x9d) == 0x5ee2bc5e
  {
    hide Te2;
    Round4Te2First();
    Round4Te2Second();
  }

  lemma Round4Te2First()
    ensures Te2(0xb1) == 0xc8438bc8 && Te2(0x58) == 0x6abed46a
  {}

  lemma Round4Te2Second()
    ensures Te2(0x4e) == 0x2f715e2f && Te2(0x9d) == 0x5ee2bc5e
  {}

  lemma Round4Te3()
    ensures Te3(0xe7) == 0x9494a733 && Te3(0xee) == 0x28287850
    ensures Te3(0x0d) == 0xd7d762b5 && Te3(0x38) == 0x0707090e
  {}

  lemma Round4(w: seq<bv32>)
    requires |w| == 44 && Four(w, 16, 0xef44a541, 0xa8525b7f, 0xb671253b, 0xdb0bad00)
    requires TRounds(INPUT, w, 3) == Block(0x486c4eee, 0x671d9d0d, 0x4de3b138, 0xd65f58e7)
    ensures TRounds(INPUT, w, 4) == Block(0xe0927fe8, 0xc86363c0, 0xd9b13550, 0x85b8be01)
  {
    hide TMix, Te0, Te1, Te2, Te3;
    Round4Te0();
    Round4Te1();
    Round4Te2();
    Round4Te3();
    Mixed(0x486c4eee, 0x671d9d0d, 0x4de3b138, 0xd65f58e7, 0x48, 0x1d, 0xb1, 0xe7,
          0xa45252f6, 0xf753a4a4, 0xc8438bc8, 0x9494a733, 0xef44a541, 0xe0927fe8);
    Mixed(0x671d9d0d, 0x4de3b138, 0xd65f58e7, 0x486c4eee, 0x67, 0xe3, 0x58, 0xee,
          0x11858594, 0x33221111, 0x6abed46a, 0x28287850, 0xa8525b7f, 0xc86363c0);
    Mixed(0x4de3b138, 0xd65f58e7, 0x486c4eee, 0x671d9d0d, 0x4d, 0x5f, 0x4e, 0x0d,
          0xdde3e33e, 0x4a85cfcf, 0x2f715e2f, 0xd7d762b5, 0xb671253b, 0xd9b13550);
    Mixed(0xd65f58e7, 0x486c4eee, 0x671d9d0d, 0x4de3b138, 0xd6, 0x6c, 0x9d, 0x38,
          0xf7f6f601, 0xf0a05050, 0x5ee2bc5e, 0x0707090e, 0xdb0bad00, 0x85b8be01);
  }

  lemma Round5Te0()
    ensures Te0(0xe0) == 0xd9e1e138 && Te0(0xc8) == 0xcbe8e823
    ensures Te0(0xd9) == 0x6a35355f && Te0(0x85) == 0x359797a2
  {}

  lemma Round5Te1()
    ensures Te1(0x63) == 0x16edfbfb && Te1(0xb1) == 0x438bc8c8
    ensures Te1(0xb8) == 0xb4d86c6c && Te1(0x92) == 0xd19e4f4f
  {}

  lemma Round5Te2()
    ensures Te2(0x35) == 0x96a13796 && Te2(0xbe) == 0xaee947ae
    ensures Te2(0x7f) == 0xd26dbfd2 && Te2(0x63) == 0xfb16edfb
  {}

  lemma Round5Te3()
    ensures Te3(0x01) == 0x7c7c84f8 && Te3(0xe8) == 0x9b9bb62d
    ensures Te3(0xc0) == 0xbabad56f && Te3(0x50) == 0x5353f5a6
  {}

  lemma Round5(w: seq<bv32>)
    requires |w| == 44 && Four(w, 20, 0xd4d1c6f8, 0x7c839d87, 0xcaf2b8bc, 0x11f915bc)
    requires TRounds(INPUT, w, 4) == Block(0xe0927fe8, 0xc86363c0, 0xd9b13550, 0x85b8be01)
    ensures TRounds(INPUT, w, 5) == Block(0xf1006f55, 0xc1924cef, 0x7cc88b32, 0x5db5d50c)
  {
    hide TMix, Te0, Te1, Te2, Te3;
    Round5Te0();
    Round5Te1();
    Round5Te2();
    Round5Te3();
    Mixed(0xe0927fe8, 0xc86363c0, 0xd9b13550, 0x85b8be01, 0xe0, 0x63, 0x35, 0x01,
          0xd9e1e138, 0x16edfbfb, 0x96a13796, 0x7c7c84f8, 0xd4d1c6f8, 0xf1006f55);
    Mixed(0xc86363c0, 0xd9b13550, 0x85b8be01, 0xe0927fe8, 0xc8, 0xb1, 0xbe, 0xe8,
          0xcbe8e823, 0x438bc8c8, 0xaee947ae, 0x9b9bb62d, 0x7c839d87, 0xc1924cef);
    Mixed(0xd9b13550, 0x85b8be01, 0xe0927fe8, 0xc86363c0, 0xd9, 0xb8, 0x7f, 0xc0,
          0x6a35355f, 0xb4d86c6c, 0xd26dbfd2, 0xbabad56f, 0xcaf2b8bc, 0x7cc88b32);
    Mixed(0x85b8be01, 0xe0927fe8, 0xc86363c0, 0xd9b13550, 0x85, 0x92, 0x63, 0x50,
          0x359797a2, 0xd19e4f4f, 0xfb16edfb, 0x5353f5a6, 0x11f915bc, 0x5db5d50c);
  }

  lemma Round6Te0()
    ensures Te0(0xf1) == 0x59a1a1f8 && Te0(0xc1) == 0xf0787888
    ensures Te0(0x7c) == 0x20101030 && Te0(0x5d) == 0x984c4cd4
  {}

  lemma Round6Te1()
    ensures Te1(0x92) == 0xd19e4f4f && Te1(0xc8) == 0x23cbe8e8
    ensures Te1(0xb5) == 0x64b1d5d5 && Te1(0x00) == 0xa5c66363
  {}

  lemma Round6Te2()
    ensures Te2(0x8b) == 0x3d477a3d && Te2(0xd5) == 0x03050603
    ensures Te2(0x6f) == 0xa8e34ba8 && Te2(0x4c) == 0x297b5229
  {
    hide Te2;
    Round6Te2First();
    Round6Te2Second();
  }

  lemma Round6Te2First()
    ensures Te2(0x8b) == 0x3d477a3d && Te2(0xd5) == 0x03050603
  {}

  lemma Round6Te2Second()
    ensures Te2(0x6f) == 0xa8e34ba8 && Te2(0x4c) == 0x297b5229
  {}

  lemma Round6Te3()
    ensures Te3(0x0c) == 0xfefe19e7 && Te3(0x55) == 0xfcfc1fe3
    ensures Te3(0xef) == 0xdfdf7aa5 && Te3(0x32) == 0x23236546
  {}

  lemma Round6(w: seq<bv32>)
    requires |w| == 44 && Four(w, 24, 0x6d88a37a, 0x110b3efd, 0xdbf98641, 0xca0093fd)
    requires TRounds(INPUT, w, 5) == Block(0xf1006f55, 0xc1924cef, 0x7cc88b32, 0x5db5d50c)
    ensures TRounds(INPUT, w, 6) == Block(0x260e2e17, 0x3d41b77d, 0xe86472a9, 0xfdd28b25)
  {
    hide TMix, Te0, Te1, Te2, Te3;
    Round6Te0();
    Round6Te1();
    Round6Te2();
    Round6Te3();
    Mixed(0xf1006f55, 0xc1924cef, 0x7cc88b32, 0x5db5d50c, 0xf1, 0x92, 0x8b, 0x0c,
          0x59a1a1f8, 0xd19e4f4f, 0x3d477a3d, 0xfefe19e7, 0x6d88a37a, 0x260e2e17);
    Mixed(0xc1924cef, 0x7cc88b32, 0x5db5d50c, 0xf1006f55, 0xc1, 0xc8, 0xd5, 0x55,
          0xf0787888, 0x23cbe8e8, 0x03050603, 0xfcfc1fe3, 0x110b3efd, 0x3d41b77d);
    Mixed(0x7cc88b32, 0x5db5d50c, 0xf1006f55, 0xc1924cef, 0x7c, 0xb5, 0x6f, 0xef,
          0x20101030, 0x64b1d5d5, 0xa8e34ba8, 0xdfdf7aa5, 0xdbf98641, 0xe86472a9);
    Mixed(0x5db5d50c, 0xf1006f55, 0xc1924cef, 0x7cc88b32, 0x5d, 0x00, 0x4c, 0x32,
          0x984c4cd4, 0xa5c66363, 0x297b5229, 0x23236546, 0xca0093fd, 0xfdd28b25);
  }

  lemma Round7Te0()
    ensures Te0(0x26) == 0xf5f7f702 && Te0(0x3d) == 0x4e272769
    ensures Te0(0xe8) == 0x2d9b9bb6 && Te0(0xfd) == 0xa85454fc
  {}

  lemma Round7Te1()
    ensures Te1(0x41) == 0x9e1d8383 && Te1(0x64) == 0xc5864343
    ensures Te1(0xd2) == 0xc471b5b5 && Te1(0x0e) == 0xe64dabab
  {}

  lemma Round7Te2()
    ensures Te2(0x72) == 0x40c08040 && Te2(0x8b) == 0x3d477a3d
    ensures Te2(0x2e) == 0x31536231 && Te2(0xb7) == 0xa9e049a9
  {}

  lemma Round7Te3()
    ensures Te3(0x25) == 0x3f3f417e && Te3(0x17) == 0xf0f00bfb
    ensures Te3(0x7d) == 0xffff1ae5 && Te3(0xa9) == 0xd3d36ebd
  {}

  lemma Round7(w: seq<bv32>)
    requires |w| == 44 && Four(w, 28, 0x4e54f70e, 0x5f5fc9f3, 0x84a64fb2, 0x4ea6dc4f)
    requires TRounds(INPUT, w, 6) == Block(0x260e2e17, 0x3d41b77d, 0xe86472a9, 0xfdd28b25)
    ensures TRounds(INPUT, w, 7) == Block(0x5a4142b1, 0x1949dc1f, 0xa3e01965, 0x7a8c040c)
  {
    hide TMix, Te0, Te1, Te2, Te3;
    Round7Te0();
    Round7Te1();
    Round7Te2();
    Round7Te3();
    Mixed(0x260e2e17, 0x3d41b77d, 0xe86472a9, 0xfdd28b25, 0x26, 0x41, 0x72, 0x25,
          0xf5f7f702, 0x9e1d8383, 0x40c08040, 0x3f3f417e, 0x4e54f70e, 0x5a4142b1);
    Mixed(0x3d41b77d, 0xe86472a9, 0xfdd28b25, 0x260e2e17, 0x3d, 0x64, 0x8b, 0x17,
          0x4e272769, 0xc5864343, 0x3d477a3d, 0xf0f00bfb, 0x5f5fc9f3, 0x1949dc1f);
    Mixed(0xe86472a9, 0xfdd28b25, 0x260e2e17, 0x3d41b77d, 0xe8, 0xd2, 0x2e, 0x7d,
          0x2d9b9bb6, 0xc471b5b5, 0x31536231, 0xffff1ae5, 0x84a64fb2, 0xa3e01965);
    Mixed(0xfdd28b25, 0x260e2e17, 0x3d41b77d, 0xe86472a9, 0xfd, 0x0e, 0xb7, 0xa9,
          0xa85454fc, 0xe64dabab, 0xa9e049a9, 0xd3d36ebd, 0x4ea6dc4f, 0x7a8c040c);
  }

  lemma Round8Te0()
    ensures Te0(0x5a) == 0x67bebed9 && Te0(0x19) == 0xb3d4d467
    ensures Te0(0xa3) == 0x140a0a1e && Te0(0x7a) == 0xafdada75
  {}

  lemma Round8Te1()
    ensures Te1(0x49) == 0x4d763b3b && Te1(0xe0) == 0x38d9e1e1
    ensures Te1(0x8c) == 0xacc86464 && Te1(0x41) == 0x9e1d8383
  {}

  lemma Round8Te2()
    ensures Te2(0x19) == 0xd467b3d4 && Te2(0x04) == 0xf20dfff2
    ensures Te2(0x42) == 0x2c74582c && Te2(0xdc) == 0x86911786
  {}

  lemma Round8Te3()
    ensures Te3(0x0c) == 0xfefe19e7 && Te3(0xb1) == 0xc8c8438b
    ensures Te3(0x1f) == 0xc0c05b9b && Te3(0x65) == 0x4d4dd79a
  {}

  lemma Round8(w: seq<bv32>)
    requires |w| == 44 && Four(w, 32, 0xead27321, 0xb58dbad2, 0x312bf560, 0x7f8d292f)
    requires TRounds(INPUT, w, 7) == Block(0x5a4142b1, 0x1949dc1f, 0xa3e01965, 0x7a8c040c)
    ensures TRounds(INPUT, w, 8) == Block(0xea835cf0, 0x0445332d, 0x655d98ad, 0x8596b0c5)
  {
    hide TMix, Te0, Te1, Te2, Te3;
    Round8Te0();
    Round8Te1();
    Round8Te2();
    Round8Te3();
    Mixed(0x5a4142b1, 0x1949dc1f, 0xa3e01965, 0x7a8c040c, 0x5a, 0x49, 0x19, 0x0c,
          0x67bebed9, 0x4d763b3b, 0xd467b3d4, 0xfefe19e7, 0xead27321, 0xea835cf0);
    Mixed(0x1949dc1f, 0xa3e01965, 0x7a8c040c, 0x5a4142b1, 0x19, 0xe0, 0x04, 0xb1,
          0xb3d4d467, 0x38d9e1e1, 0xf20dfff2, 0xc8c8438b, 0xb58dbad2, 0x0445332d);
    Mixed(0xa3e01965, 0x7a8c040c, 0x5a4142b1, 0x1949dc1f, 0xa3, 0x8c, 0x42, 0x1f,
          0x140a0a1e, 0xacc86464, 0x2c74582c, 0xc0c05b9b, 0x312bf560, 0x655d98ad);
    Mixed(0x7a8c040c, 0x5a4142b1, 0x1949dc1f, 0xa3e01965, 0x7a, 0x41, 0xdc, 0x65,
          0xafdada75, 0x9e1d8383, 0x86911786, 0x4d4dd79a, 0x7f8d292f, 0x8596b0c5);
  }

  lemma Round9Te0()
    ensures Te0(0xea) == 0x15878792 && Te0(0x04) == 0xfff2f20d
    ensures Te0(0x65) == 0x9a4d4dd7 && Te0(0x85) == 0x359797a2
  {}

  lemma Round9Te1()
    ensures Te1(0x45) == 0xb2dc6e6e && Te1(0x5d) == 0xd4984c4c
    ensures Te1(0x96) == 0xab3b9090 && Te1(0x83) == 0x2fc3ecec
  {}

  lemma Round9Te2()
    ensures Te2(0x98) == 0x46ca8c46 && Te2(0xb0) == 0xe732d5e7
    ensures Te2(0x5c) == 0x4ade944a && Te2(0x33) == 0xc35e9dc3
  {}

  lemma Round9Te3()
    ensures Te3(0xc5) == 0xa6a6f157 && Te3(0xf0) == 0x8c8c8f03
    ensures Te3(0x2d) == 0xd8d873ab && Te3(0xad) == 0x9595a431
  {}

  lemma Round9(w: seq<bv32>)
    requires |w| == 44 && Four(w, 36, 0xac7766f3, 0x19fadc21, 0x28d12941, 0x575c006e)
    requires TRounds(INPUT, w, 8) == Block(0xea835cf0, 0x0445332d, 0x655d98ad, 0x8596b0c5)
    ensures TRounds(INPUT, w, 9) == Block(0xeb40f21e, 0x592e3884, 0x8ba113e7, 0x1bc342d2)
  {
    hide TMix, Te0, Te1, Te2, Te3;
    Round9Te0();
    Round9Te1();
    Round9Te2();
    Round9Te3();
    Mixed(0xea835cf0, 0x0445332d, 0x655d98ad, 0x8596b0c5, 0xea, 0x45, 0x98, 0xc5,
          0x15878792, 0xb2dc6e6e, 0x46ca8c46, 0xa6a6f157, 0xac7766f3, 0xeb40f21e);
    Mixed(0x0445332d, 0x655d98ad, 0x8596b0c5, 0xea835cf0, 0x04, 0x5d, 0xb0, 0xf0,
          0xfff2f20d, 0xd4984c4c, 0xe732d5e7, 0x8c8c8f03, 0x19fadc21, 0x592e3884);
    Mixed(0x655d98ad, 0x8596b0c5, 0xea835cf0, 0x0445332d, 0x65, 0x96, 0x5c, 0x2d,
          0x9a4d4dd7, 0xab3b9090, 0x4ade944a, 0xd8d873ab, 0x28d12941, 0x8ba113e7);
    Mixed(0x8596b0c5, 0xea835cf0, 0x0445332d, 0x655d98ad, 0x85, 0x83, 0x33, 0xad,
          0x359797a2, 0x2fc3ecec, 0xc35e9dc3, 0x9595a431, 0x575c006e, 0x1bc342d2);
  }

  lemma Round10Te4A()
    ensures Te4(0xeb) == 0xe9e9e9e9 && Te4(0x2e) == 0x31313131
    ensures Te4(0x13) == 0x7d7d7d7d && Te4(0xd2) == 0xb5b5b5b5
  {}

  lemma Round10Te4B()
    ensures Te4(0x59) == 0xcbcbcbcb && Te4(0xa1) == 0x32323232
    ensures Te4(0x42) == 0x2c2c2c2c && Te4(0x1e) == 0x72727272
  {}

  lemma Round10Te4C()
    ensures Te4(0x8b) == 0x3d3d3d3d && Te4(0xc3) == 0x2e2e2e2e
    ensures Te4(0xf2) == 0x89898989 && Te4(0x84) == 0x5f5f5f5f
  {}

  lemma Round10Te4D()
    ensures Te4(0x1b) == 0xafafafaf && Te4(0x40) == 0x09090909
    ensures Te4(0x38) == 0x07070707 && Te4(0xe7) == 0x94949494
  {}

  lemma Round0(w: seq<bv32>)
    requires |w| == 44 && Four(w, 0, 0x2b7e1516, 0x28aed2a6, 0xabf71588, 0x09cf4f3c)
    ensures TRounds(INPUT, w, 0) == Block(0x193de3be, 0xa0f4e22b, 0x9ac68d2a, 0xe9f84808)
  {
    assert GetU32(INPUT, 0) == 0x3243f6a8 && GetU32(INPUT, 4) == 0x885a308d;
    assert GetU32(INPUT, 8) == 0x313198a2 && GetU32(INPUT, 12) == 0xe0370734;
    hide GetU32;
  }

  lemma LastBytes(s: seq<bv8>)
    requires StateIs(s, Block(0x3925841d, 0x02dc09fb, 0xdc118597, 0x196a0b32))
    ensures s == [0x39, 0x25, 0x84, 0x1d, 0x02, 0xdc, 0x09, 0xfb, 0xdc, 0x11, 0x85, 0x97, 0x19, 0x6a, 0x0b, 0x32]
  {}

  /** Appendix B: the block under the key of appendix A.1. */
  lemma CipherExample()
    ensures Cipher(INPUT, Expand(KEY128, 4, 44), 10)
         == [0x39, 0x25, 0x84, 0x1d, 0x02, 0xdc, 0x09, 0xfb, 0xdc, 0x11, 0x85, 0x97, 0x19, 0x6a, 0x0b, 0x32]
  {
    hide Expand, Cipher, TRounds, Rounds, LastRound, Keyed, TShifted, StateIs, Four;
    Schedule128();
    var w := Expand(KEY128, 4, 44);
    Round0(w);
    Round1(w);
    Round2(w);
    Round3(w);
    Round4(w);
    Round5(w);
    Round6(w);
    Round7(w);
    Round8(w);
    Round9(w);
    LastRoundBlock(w);
    Encrypted(INPUT, Block(0xeb40f21e, 0x592e3884, 0x8ba113e7, 0x1bc342d2), w, 10);
    LastBytes(Cipher(INPUT, w, 10));
  }

  lemma LastRoundBlock(w: seq<bv32>)
    requires |w| == 44 && Four(w, 40, 0xd014f9a8, 0xc9ee2589, 0xe13f0cc8, 0xb6630ca6)
    ensures Keyed(TShifted(Block(0xeb40f21e, 0x592e3884, 0x8ba113e7, 0x1bc342d2)), w, 10) == Block(0x3925841d, 0x02dc09fb, 0xdc118597, 0x196a0b32)
  {
    hide TSub, Te4;
    Round10Bytes();
    Round10Te4A();
    Round10Te4B();
    Round10Te4C();
    Round10Te4D();
    Substituted(0xeb, 0x2e, 0x13, 0xd2, 0xe9e9e9e9, 0x31313131, 0x7d7d7d7d, 0xb5b5b5b5, 0xd014f9a8, 0x3925841d);
    Substituted(0x59, 0xa1, 0x42, 0x1e, 0xcbcbcbcb, 0x32323232, 0x2c2c2c2c, 0x72727272, 0xc9ee2589, 0x02dc09fb);
    Substituted(0x8b, 0xc3, 0xf2, 0x84, 0x3d3d3d3d, 0x2e2e2e2e, 0x89898989, 0x5f5f5f5f, 0xe13f0cc8, 0xdc118597);
    Substituted(0x1b, 0x40, 0x38, 0xe7, 0xafafafaf, 0x09090909, 0x07070707, 0x94949494, 0xb6630ca6, 0x196a0b32);
    hide AddWord, ByteAt;
  }

  lemma Round10Bytes()
    ensures ByteAt(0xeb40f21e, 0) == 0xeb && ByteAt(0xeb40f21e, 1) == 0x40 && ByteAt(0xeb40f21e, 2) == 0xf2 && ByteAt(0xeb40f21e, 3) == 0x1e
    ensures ByteAt(0x592e3884, 0) == 0x59 && ByteAt(0x592e3884, 1) == 0x2e && ByteAt(0x592e3884, 2) == 0x38 && ByteAt(0x592e3884, 3) == 0x84
    ensures ByteAt(0x8ba113e7, 0) == 0x8b && ByteAt(0x8ba113e7, 1) == 0xa1 && ByteAt(0x8ba113e7, 2) == 0x13 && ByteAt(0x8ba113e7, 3) == 0xe7
    ensures ByteAt(0x1bc342d2, 0) == 0x1b && ByteAt(0x1bc342d2, 1) == 0xc3 && ByteAt(0x1bc342d2, 2) == 0x42 && ByteAt(0x1bc342d2, 3) == 0xd2
  {}
}
