/** AesSetupEnc of lib/aes/aes.go: the key schedule written through a window that slides along the array. */
module AesSchedule {
  import opened Bits
  import opened Gf256
  import opened AesTables
  import opened AesCipher
  import opened Aes

  const RCON: seq<bv32> := [
    0x01000000, 0x02000000, 0x04000000, 0x08000000,
    0x10000000, 0x20000000, 0x40000000, 0x80000000,
    0x1B000000, 0x36000000]

  /** Section 5.2 of FIPS 197: the constants are the powers of x. */
  lemma RconIsPower(i: nat)
    requires i < 10
    ensures RCON[i] == Rcon(i + 1)
  {
    assert XPower(1) == 2 && XPower(2) == 4 && XPower(3) == 8 && XPower(4) == 16;
    assert XPower(5) == 32 && XPower(6) == 64 && XPower(7) == 128 && XPower(8) == 0x1b && XPower(9) == 0x36;
  }

  /** The whole words of a key size, `rtLength` of lib/milenage/milenage.go. */
  function RtLength(keybits: nat): nat { keybits / 8 + 28 }

  function KeyRounds(keybits: int): nat {
    if keybits == 128 then 10 else if keybits == 192 then 12 else if keybits == 256 then 14 else 0
  }

  /** The source's table lookups on a word, and on a word turned left by a byte. */
  function TPlain(temp: bv32): bv32 {
    TSub(ByteAt(temp, 0), ByteAt(temp, 1), ByteAt(temp, 2), ByteAt(temp, 3))
  }

  function TRotated(temp: bv32): bv32 {
    TSub(ByteAt(temp, 1), ByteAt(temp, 2), ByteAt(temp, 3), ByteAt(temp, 0))
  }

  // ---------- one more word ----------

  predicate Grown(w: seq<bv32>, key: seq<bv8>, nk: nat)
    requires 0 < nk && 4 * nk <= |key|
  {
    nk <= |w| && IsSchedule(w, key, nk)
  }

  lemma FirstWords(w: seq<bv32>, key: seq<bv8>, nk: nat)
    requires 0 < nk == |w| && 4 * nk <= |key|
    requires forall i: nat | i < nk :: w[i] == GetU32(key, 4 * i)
    ensures Grown(w, key, nk)
  {
    hide GetU32, Word;
    forall i: nat | i < nk ensures w[i] == NextWord(w, key, nk, i) {
      GetU32Is(key, 4 * i);
    }
  }

  lemma OneMore(w: seq<bv32>, key: seq<bv8>, nk: nat, x: bv32)
    requires 0 < nk && 4 * nk <= |key| && Grown(w, key, nk) && x == NextWord(w, key, nk, |w|)
    ensures Grown(w + [x], key, nk)
  {
    hide NextWord;
    forall i: nat | i < |w| + 1 ensures (w + [x])[i] == NextWord(w + [x], key, nk, i) {
      assert w[..i] == (w + [x])[..i];
      NextWordLocal(w, w + [x], key, nk, i);
    }
  }

  lemma NextRotated(w: seq<bv32>, key: seq<bv8>, nk: nat, q: nat)
    requires 0 < nk && 4 * nk <= |key| && q >= 1 && |w| == nk * q && |w| >= nk
    ensures NextWord(w, key, nk, |w|) == AddWord(w[|w| - nk], AddWord(SubWord(RotWord(w[|w| - 1])), Rcon(q)))
  {
    hide AddWord, SubWord, RotWord, Rcon, KeyWord;
    ModUnique(|w|, nk, q, 0);
  }

  lemma NextSubstituted(w: seq<bv32>, key: seq<bv8>, q: nat)
    requires 32 <= |key| && |w| == 8 * q + 4 && |w| >= 8
    ensures NextWord(w, key, 8, |w|) == AddWord(w[|w| - 8], SubWord(w[|w| - 1]))
  {
    hide AddWord, SubWord, RotWord, Rcon, KeyWord;
    ModUnique(|w|, 8, q, 4);
  }

  lemma NextPlain(w: seq<bv32>, key: seq<bv8>, nk: nat, q: nat, k: nat)
    requires 0 < k < nk && 4 * nk <= |key| && |w| == nk * q + k && |w| >= nk && !(nk > 6 && k == 4)
    ensures NextWord(w, key, nk, |w|) == AddWord(w[|w| - nk], w[|w| - 1])
  {
    hide AddWord, SubWord, RotWord, Rcon, KeyWord;
    ModUnique(|w|, nk, q, k);
  }

  /** The first word of a key's length: the word before it rotated and substituted, and a constant. */
  lemma RotatedWord(w: seq<bv32>, key: seq<bv8>, nk: nat, i: nat, x: bv32)
    requires 0 < nk && 4 * nk <= |key| && Grown(w, key, nk) && i < 10 && |w| == nk * (i + 1)
    requires x == AddWord(AddWord(w[|w| - nk], TRotated(w[|w| - 1])), RCON[i])
    ensures Grown(w + [x], key, nk)
  {
    assert |w| >= nk;
    hide AddWord, TRotated, SubWord, RotWord, Grown, Rcon, NextWord;
    var temp := w[|w| - 1];
    RconIsPower(i);
    Rotated(temp);
    NextRotated(w, key, nk, i + 1);
    AddWordAssociates(w[|w| - nk], SubWord(RotWord(temp)), RCON[i]);
    OneMore(w, key, nk, x);
  }

  lemma Rotated(temp: bv32)
    ensures TRotated(temp) == SubWord(RotWord(temp))
  {
    hide TSub, ByteAt, Word, SBox;
    TSubIs(ByteAt(temp, 1), ByteAt(temp, 2), ByteAt(temp, 3), ByteAt(temp, 0));
    WordBytes(ByteAt(temp, 1), ByteAt(temp, 2), ByteAt(temp, 3), ByteAt(temp, 0));
  }

  /** Word `nk * q + k` where nothing is substituted. */
  lemma PlainWord(w: seq<bv32>, key: seq<bv8>, nk: nat, q: nat, k: nat, x: bv32)
    requires 0 < k < nk && 4 * nk <= |key| && Grown(w, key, nk)
    requires |w| == nk * q + k && !(nk > 6 && k == 4)
    requires x == AddWord(w[|w| - nk], w[|w| - 1])
    ensures Grown(w + [x], key, nk)
  {
    assert |w| >= nk;
    hide AddWord, NextWord, Grown;
    NextPlain(w, key, nk, q, k);
    OneMore(w, key, nk, x);
  }

  /** The middle word of a 256-bit key's length. */
  lemma SubstitutedWord(w: seq<bv32>, key: seq<bv8>, q: nat, x: bv32)
    requires 32 <= |key| && Grown(w, key, 8) && |w| == 8 * q + 4
    requires x == AddWord(w[|w| - 8], TPlain(w[|w| - 1]))
    ensures Grown(w + [x], key, 8)
  {
    assert |w| >= 8;
    hide AddWord, TSub, ByteAt, Word, SBox, Grown, NextWord;
    var temp := w[|w| - 1];
    TSubIs(ByteAt(temp, 0), ByteAt(temp, 1), ByteAt(temp, 2), ByteAt(temp, 3));
    NextSubstituted(w, key, q);
    OneMore(w, key, 8, x);
  }

  /** Words that only add the one before, as many as stay clear of the next substitution. */
  lemma ThreeMore(w: seq<bv32>, key: seq<bv8>, nk: nat, q: nat, k: nat, x: bv32, y: bv32, z: bv32)
    requires 0 < k && k + 3 <= nk && 4 * nk <= |key| && Grown(w, key, nk)
    requires |w| == nk * q + k && !(nk > 6 && k <= 4 < k + 3)
    requires x == AddWord(w[|w| - nk], w[|w| - 1]) && y == AddWord(w[|w| - nk + 1], x) && z == AddWord(w[|w| - nk + 2], y)
    ensures Grown(w + [x, y, z], key, nk)
  {
    hide AddWord, Grown;
    var w1, w2, first := w + [x], w + [x] + [y], |w| - nk;
    FirstPlace(w, key, nk);
    PlainWord(w, key, nk, q, k, x);
    assert w1[first + 1] == w[first + 1] && w2[first + 2] == w[first + 2];
    PlainWord(w1, key, nk, q, k + 1, y);
    PlainWord(w2, key, nk, q, k + 2, z);
    assert w2 + [z] == w + [x, y, z];
  }

  lemma FirstPlace(w: seq<bv32>, key: seq<bv8>, nk: nat)
    requires 0 < nk && 4 * nk <= |key| && Grown(w, key, nk)
    ensures |w| >= nk
  {
  }

  /** The four words a turn begins with. */
  lemma FourMore(w: seq<bv32>, key: seq<bv8>, nk: nat, i: nat, v: bv32, x: bv32, y: bv32, z: bv32)
    requires 4 <= nk && 4 * nk <= |key| && Grown(w, key, nk) && i < 10 && |w| == nk * (i + 1)
    requires v == AddWord(AddWord(w[|w| - nk], TRotated(w[|w| - 1])), RCON[i])
    requires x == AddWord(w[|w| - nk + 1], v) && y == AddWord(w[|w| - nk + 2], x) && z == AddWord(w[|w| - nk + 3], y)
    ensures Grown(w + [v, x, y, z], key, nk)
  {
    hide AddWord, Grown, TPlain, TRotated;
    RotatedWord(w, key, nk, i, v);
    ThreeAfter(w, key, nk, i + 1, 0, v, x, y, z);
  }

  /** The two words a turn for a 192-bit key ends with. */
  lemma TwoMore(w: seq<bv32>, key: seq<bv8>, q: nat, x: bv32, y: bv32)
    requires 24 <= |key| && Grown(w, key, 6) && |w| == 6 * q + 4 && |w| >= 6
    requires x == AddWord(w[|w| - 6], w[|w| - 1]) && y == AddWord(w[|w| - 5], x)
    ensures Grown(w + [x, y], key, 6)
  {
    hide AddWord, Grown;
    PlainWord(w, key, 6, q, 4, x);
    var v := w + [x];
    assert v[|v| - 6] == w[|w| - 5] && v[|v| - 1] == x;
    PlainWord(v, key, 6, q, 5, y);
    assert v + [y] == w + [x, y];
  }

  /** The four words a turn for a 256-bit key ends with. */
  lemma FourSubstituted(w: seq<bv32>, key: seq<bv8>, q: nat, v: bv32, x: bv32, y: bv32, z: bv32)
    requires 32 <= |key| && Grown(w, key, 8) && |w| == 8 * q + 4
    requires v == AddWord(w[|w| - 8], TPlain(w[|w| - 1]))
    requires x == AddWord(w[|w| - 7], v) && y == AddWord(w[|w| - 6], x) && z == AddWord(w[|w| - 5], y)
    ensures Grown(w + [v, x, y, z], key, 8)
  {
    assert |w| >= 8;
    hide AddWord, Grown, TPlain;
    SubstitutedWord(w, key, q, v);
    ThreeAfter(w, key, 8, q, 4, v, x, y, z);
  }

  lemma ThreeAfter(w: seq<bv32>, key: seq<bv8>, nk: nat, q: nat, k: nat, v: bv32, x: bv32, y: bv32, z: bv32)
    requires k + 4 <= nk && 4 * nk <= |key| && Grown(w + [v], key, nk) && |w| >= nk
    requires |w| == nk * q + k && !(nk > 6 && k < 4 < k + 4)
    requires x == AddWord(w[|w| - nk + 1], v) && y == AddWord(w[|w| - nk + 2], x) && z == AddWord(w[|w| - nk + 3], y)
    ensures Grown(w + [v, x, y, z], key, nk)
  {
    hide AddWord, Grown;
    ThreeMore(w + [v], key, nk, q, k + 1, x, y, z);
    assert w + [v] + [x, y, z] == w + [v, x, y, z];
  }

  // ---------- the sliding loops ----------

  /** The words from `n` on are as they were. */
  twostate predicate Beyond(rk: array<bv32>, n: nat)
    reads rk
  {
    forall j: nat | n <= j < rk.Length :: rk[j] == old(rk[j])
  }

  /** The first four words of a turn, alike in the three loops. */
  method FourWords(rk: array<bv32>, ghost key: seq<bv8>, nk: nat, base: nat, i: nat)
    requires 4 <= nk && 4 * nk <= |key| && i < 10 && base + nk == nk * (i + 1)
    requires rk.Length >= base + nk + 4 && Grown(rk[..base + nk], key, nk)
    modifies rk
    ensures Grown(rk[..base + nk + 4], key, nk) && Beyond(rk, base + nk + 4)
  {
    hide AddWord, TPlain, TRotated, Grown;
    ghost var w := rk[..base + nk];
    ghost var v, x, y, z := NextFour(w, key, nk, base, i);
    var temp := rk[base + nk - 1];
    rk[base + nk] := AddWord(AddWord(rk[base], TRotated(temp)), RCON[i]);
    rk[base + nk + 1] := AddWord(rk[base + 1], rk[base + nk]);
    rk[base + nk + 2] := AddWord(rk[base + 2], rk[base + nk + 1]);
    rk[base + nk + 3] := AddWord(rk[base + 3], rk[base + nk + 2]);
    assert rk[..base + nk + 4] == w + [v, x, y, z];
  }

  lemma NextFour(w: seq<bv32>, key: seq<bv8>, nk: nat, base: nat, i: nat) returns (v: bv32, x: bv32, y: bv32, z: bv32)
    requires 4 <= nk && 4 * nk <= |key| && i < 10 && |w| == base + nk == nk * (i + 1) && Grown(w, key, nk)
    ensures v == AddWord(AddWord(w[base], TRotated(w[base + nk - 1])), RCON[i])
    ensures x == AddWord(w[base + 1], v) && y == AddWord(w[base + 2], x) && z == AddWord(w[base + 3], y)
    ensures Grown(w + [v, x, y, z], key, nk)
  {
    hide AddWord, TRotated, Grown;
    v := AddWord(AddWord(w[base], TRotated(w[base + nk - 1])), RCON[i]);
    x := AddWord(w[base + 1], v);
    y := AddWord(w[base + 2], x);
    z := AddWord(w[base + 3], y);
    FourMore(w, key, nk, i, v, x, y, z);
  }

  /** The 128-bit loop: four words a turn, ten turns. */
  method Slide128(rk: array<bv32>, ghost key: seq<bv8>) returns (rounds: nat)
    requires rk.Length >= 44 && |key| >= 16 && Grown(rk[..4], key, 4)
    modifies rk
    ensures rounds == 10 && Grown(rk[..44], key, 4) && Beyond(rk, 44)
  {
    hide Grown;
    var i := 0;
    while true
      invariant i < 10 && Grown(rk[..4 * i + 4], key, 4) && Beyond(rk, 44)
      decreases 10 - i
    {
      FourWords(rk, key, 4, 4 * i, i);
      i := i + 1;
      if i == 10 {
        return 10;
      }
    }
  }

  /** The 192-bit loop: six words a turn, four in the eighth. */
  method Slide192(rk: array<bv32>, ghost key: seq<bv8>) returns (rounds: nat)
    requires rk.Length >= 52 && |key| >= 24 && Grown(rk[..6], key, 6)
    modifies rk
    ensures rounds == 12 && Grown(rk[..52], key, 6) && Beyond(rk, 52)
  {
    hide AddWord, Grown;
    var i := 0;
    while true
      invariant i < 8 && Grown(rk[..6 * i + 6], key, 6) && Beyond(rk, 52)
      decreases 8 - i
    {
      var base := 6 * i;
      FourWords(rk, key, 6, base, i);
      i := i + 1;
      if i == 8 {
        return 12;
      }
      ghost var w := rk[..base + 10];
      rk[base + 10] := AddWord(rk[base + 4], rk[base + 9]);
      rk[base + 11] := AddWord(rk[base + 5], rk[base + 10]);
      TwoMore(w, key, i, rk[base + 10], rk[base + 11]);
      assert rk[..base + 12] == w + [rk[base + 10], rk[base + 11]];
    }
  }

  /** The other four words of a 256-bit turn. */
  method MiddleWords(rk: array<bv32>, ghost key: seq<bv8>, base: nat, ghost i: nat)
    requires |key| >= 32 && base + 8 == 8 * i && rk.Length >= base + 16 && Grown(rk[..base + 12], key, 8)
    modifies rk
    ensures Grown(rk[..base + 16], key, 8) && Beyond(rk, base + 16)
  {
    hide AddWord, TPlain, TRotated, Grown;
    ghost var w := rk[..base + 12];
    var temp := rk[base + 11];
    rk[base + 12] := AddWord(rk[base + 4], TPlain(temp));
    rk[base + 13] := AddWord(rk[base + 5], rk[base + 12]);
    rk[base + 14] := AddWord(rk[base + 6], rk[base + 13]);
    rk[base + 15] := AddWord(rk[base + 7], rk[base + 14]);
    FourSubstituted(w, key, i, rk[base + 12], rk[base + 13], rk[base + 14], rk[base + 15]);
    assert rk[..base + 16] == w + [rk[base + 12], rk[base + 13], rk[base + 14], rk[base + 15]];
  }

  /** The 256-bit loop: eight words a turn, four in the seventh. */
  method Slide256(rk: array<bv32>, ghost key: seq<bv8>) returns (rounds: nat)
    requires rk.Length >= 60 && |key| >= 32 && Grown(rk[..8], key, 8)
    modifies rk
    ensures rounds == 14 && Grown(rk[..60], key, 8) && Beyond(rk, 60)
  {
    hide Grown;
    var i := 0;
    while true
      invariant i < 7 && Grown(rk[..8 * i + 8], key, 8) && Beyond(rk, 60)
      decreases 7 - i
    {
      var base := 8 * i;
      FourWords(rk, key, 8, base, i);
      i := i + 1;
      if i == 7 {
        return 14;
      }
      MiddleWords(rk, key, base, i);
    }
  }

  /** The words of the key itself, from `start` to `nk`. */
  method LoadKey(rk: array<bv32>, key: seq<bv8>, start: nat, nk: nat)
    requires start <= nk <= rk.Length && 4 * nk <= |key|
    requires forall l: nat | l < start :: rk[l] == GetU32(key, 4 * l)
    modifies rk
    ensures forall l: nat | l < nk :: rk[l] == GetU32(key, 4 * l)
    ensures Beyond(rk, nk)
  {
    hide GetU32;
    for j := start to nk
      invariant forall l: nat | l < j :: rk[l] == GetU32(key, 4 * l)
      invariant Beyond(rk, nk)
    {
      rk[j] := GetU32(key, 4 * j);
    }
  }

  /** AesSetupEnc: the whole schedule of the key, nothing past it, and the number of rounds. */
  method AesSetupEnc(rk: array<bv32>, key: seq<bv8>, keybits: nat) returns (rounds: nat)
    requires |key| >= 16 && (keybits != 128 ==> |key| >= 24) && (keybits != 128 && keybits != 192 ==> |key| >= 32)
    requires rk.Length >= if KeyRounds(keybits) == 0 then 8 else 4 * (KeyRounds(keybits) + 1)
    modifies rk
    ensures rounds == KeyRounds(keybits)
    ensures rounds > 0 ==> rk[..4 * (rounds + 1)] == Expand(key, keybits / 32, 4 * (rounds + 1))
    ensures rounds > 0 ==> rk[4 * (rounds + 1)..] == old(rk[4 * (KeyRounds(keybits) + 1)..])
    ensures rounds == 0 ==> rk[8..] == old(rk[8..])
  {
    hide GetU32, Grown, Expand;
    LoadKey(rk, key, 0, 4);
    if keybits == 128 {
      FirstWords(rk[..4], key, 4);
      rounds := Slide128(rk, key);
      Whole(rk[..44], key, 4);
      return;
    }
    LoadKey(rk, key, 4, 6);
    if keybits == 192 {
      FirstWords(rk[..6], key, 6);
      rounds := Slide192(rk, key);
      Whole(rk[..52], key, 6);
      return;
    }
    LoadKey(rk, key, 6, 8);
    if keybits == 256 {
      FirstWords(rk[..8], key, 8);
      rounds := Slide256(rk, key);
      Whole(rk[..60], key, 8);
      return;
    }
    return 0;
  }

  lemma Whole(w: seq<bv32>, key: seq<bv8>, nk: nat)
    requires 0 < nk && 4 * nk <= |key| && Grown(w, key, nk)
    ensures w == Expand(key, nk, |w|)
  {
    ScheduleIsExpansion(w, key, nk);
  }

  /** The caller's buffer is exactly the schedule: one block of words for each round and one before them. */
  lemma BufferFits(keybits: nat)
    requires keybits in {128, 192, 256}
    ensures RtLength(keybits) == 4 * (KeyRounds(keybits) + 1)
  {}
}
