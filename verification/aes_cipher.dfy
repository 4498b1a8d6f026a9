/** The cipher of FIPS 197, sections 5.1 and 5.2, on blocks of sixteen bytes: byte `r + 4 * c` is row `r` of column `c`. */
module AesCipher {
  import opened Gf256
  import opened AesTables

  // ---------- the cipher ----------

  function SubBytes(s: seq<bv8>): (r: seq<bv8>)
    requires |s| == 16
    ensures |r| == 16
  {
    seq(16, i requires 0 <= i < 16 => SBox(s[i]))
  }

  /** Row `r` moves left by `r` columns. */
  function ShiftRows(s: seq<bv8>): (r: seq<bv8>)
    requires |s| == 16
    ensures |r| == 16
  {
    [s[0], s[5], s[10], s[15], s[4], s[9], s[14], s[3], s[8], s[13], s[2], s[7], s[12], s[1], s[6], s[11]]
  }

  /** One row of a column multiplied by 3x^3 + x^2 + x + 2. */
  function MixedByte(a: bv8, b: bv8, c: bv8, d: bv8): bv8 {
    Sum(Times(a, 2), Times(b, 3), c, d)
  }

  function MixColumn(a: bv8, b: bv8, c: bv8, d: bv8): (r: seq<bv8>)
    ensures |r| == 4
  {
    [MixedByte(a, b, c, d), MixedByte(b, c, d, a), MixedByte(c, d, a, b), MixedByte(d, a, b, c)]
  }

  function MixColumns(s: seq<bv8>): (r: seq<bv8>)
    requires |s| == 16
    ensures |r| == 16
  {
    MixColumn(s[0], s[1], s[2], s[3]) + MixColumn(s[4], s[5], s[6], s[7])
    + MixColumn(s[8], s[9], s[10], s[11]) + MixColumn(s[12], s[13], s[14], s[15])
  }

  function AddRoundKey(s: seq<bv8>, w: seq<bv32>, round: nat): (r: seq<bv8>)
    requires |s| == 16 && 4 * round + 4 <= |w|
    ensures |r| == 16
  {
    seq(16, i requires 0 <= i < 16 => Add(s[i], ByteAt(w[4 * round + i / 4], i % 4)))
  }

  /** The state after the first key and `n` whole rounds. */
  function Rounds(s: seq<bv8>, w: seq<bv32>, n: nat): (r: seq<bv8>)
    requires |s| == 16 && 4 * n + 4 <= |w|
    ensures |r| == 16
  {
    if n == 0 then AddRoundKey(s, w, 0)
    else AddRoundKey(MixColumns(ShiftRows(SubBytes(Rounds(s, w, n - 1)))), w, n)
  }

  /** The last round mixes no columns. */
  function LastRound(s: seq<bv8>, w: seq<bv32>, round: nat): (r: seq<bv8>)
    requires |s| == 16 && 4 * round + 4 <= |w|
    ensures |r| == 16
  {
    AddRoundKey(ShiftRows(SubBytes(s)), w, round)
  }

  function Cipher(s: seq<bv8>, w: seq<bv32>, nr: nat): (r: seq<bv8>)
    requires |s| == 16 && nr >= 1 && 4 * nr + 4 <= |w|
    ensures |r| == 16
  {
    LastRound(Rounds(s, w, nr - 1), w, nr)
  }

  // ---------- the key expansion ----------

  function KeyWord(key: seq<bv8>, i: nat): bv32
    requires 4 * i + 4 <= |key|
  {
    Word(key[4 * i], key[4 * i + 1], key[4 * i + 2], key[4 * i + 3])
  }

  function RotWord(w: bv32): bv32 {
    Word(ByteAt(w, 1), ByteAt(w, 2), ByteAt(w, 3), ByteAt(w, 0))
  }

  function SubWord(w: bv32): bv32 {
    Word(SBox(ByteAt(w, 0)), SBox(ByteAt(w, 1)), SBox(ByteAt(w, 2)), SBox(ByteAt(w, 3)))
  }

  /** x to the `n`. */
  function XPower(n: int): bv8 {
    if n <= 0 then 1 else XTime(XPower(n - 1))
  }

  function Rcon(j: int): bv32 {
    Word(XPower(j - 1), 0, 0, 0)
  }

  /** What word `i` adds to the word `nk` before it. */
  function Temp(previous: bv32, nk: nat, i: nat): bv32
    requires 0 < nk <= i
  {
    if i % nk == 0 then AddWord(SubWord(RotWord(previous)), Rcon(i / nk))
    else if nk > 6 && i % nk == 4 then SubWord(previous)
    else previous
  }

  /** Word `i` of the schedule, from the words before it. */
  function NextWord(w: seq<bv32>, key: seq<bv8>, nk: nat, i: nat): bv32
    requires 0 < nk && 4 * nk <= |key| && i <= |w|
  {
    if i < nk then KeyWord(key, i) else AddWord(w[i - nk], Temp(w[i - 1], nk, i))
  }

  /** Every word of `w` is what the recurrence of section 5.2 says. */
  predicate IsSchedule(w: seq<bv32>, key: seq<bv8>, nk: nat)
    requires 0 < nk && 4 * nk <= |key|
  {
    forall i: nat | i < |w| :: w[i] == NextWord(w, key, nk, i)
  }

  /** The first `n` words of the schedule. */
  function Expand(key: seq<bv8>, nk: nat, n: nat): (w: seq<bv32>)
    requires 0 < nk && 4 * nk <= |key|
    ensures |w| == n
  {
    if n == 0 then []
    else
      var w := Expand(key, nk, n - 1);
      w + [NextWord(w, key, nk, n - 1)]
  }

  lemma NextWordLocal(w: seq<bv32>, v: seq<bv32>, key: seq<bv8>, nk: nat, i: nat)
    requires 0 < nk && 4 * nk <= |key| && i <= |w| && i <= |v| && w[..i] == v[..i]
    ensures NextWord(w, key, nk, i) == NextWord(v, key, nk, i)
  {
    hide Temp, KeyWord;
    if i >= nk {
      assert w[i - nk] == w[..i][i - nk] && w[i - 1] == w[..i][i - 1];
      assert v[i - nk] == v[..i][i - nk] && v[i - 1] == v[..i][i - 1];
    }
  }

  /** The recurrence has one solution, which the expansion computes. */
  lemma {:induction false} ScheduleIsExpansion(w: seq<bv32>, key: seq<bv8>, nk: nat)
    requires 0 < nk && 4 * nk <= |key|
    ensures IsSchedule(w, key, nk) <==> w == Expand(key, nk, |w|)
  {
    hide NextWord;
    if w != [] {
      var n := |w| - 1;
      var u := w[..n];
      ScheduleIsExpansion(u, key, nk);
      assert w == u + [w[n]];
      forall i: nat | i < n ensures NextWord(u, key, nk, i) == NextWord(w, key, nk, i) {
        assert u[..i] == w[..i];
        NextWordLocal(u, w, key, nk, i);
      }
      NextWordLocal(u, w, key, nk, n);
      assert forall i: nat | i < n :: u[i] == w[i];
    }
  }
}
