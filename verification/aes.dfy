/** The table-driven cipher of lib/aes/aes.go. */
module Aes {
  import opened Gf256
  import opened AesTables
  import opened AesCipher

  // ---------- words and blocks ----------

  /** The cipher state as the source holds it: four words, first byte highest. */
  datatype Block = Block(w0: bv32, w1: bv32, w2: bv32, w3: bv32)

  function GetU32(key: seq<bv8>, index: nat): bv32
    requires index + 4 <= |key|
  {
    (key[index] as bv32 << 24) ^ (key[index + 1] as bv32 << 16) ^ (key[index + 2] as bv32 << 8) ^ (key[index + 3] as bv32)
  }

  lemma GetU32Is(key: seq<bv8>, index: nat)
    requires index + 4 <= |key|
    ensures GetU32(key, index) == Word(key[index], key[index + 1], key[index + 2], key[index + 3])
  {}

  /** PUTU32: four bytes, high end first; GETU32 reads the word back. */
  method PutU32(ciphertext: array<bv8>, at: nat, st: bv32)
    requires at + 4 <= ciphertext.Length
    modifies ciphertext
    ensures forall i: nat | i < ciphertext.Length ::
              ciphertext[i] == if at <= i < at + 4 then ByteAt(st, i - at) else old(ciphertext[i])
    ensures GetU32(ciphertext[..], at) == st
  {
    hide ByteAt, GetU32, Word;
    ciphertext[at] := ByteAt(st, 0);
    ciphertext[at + 1] := ByteAt(st, 1);
    ciphertext[at + 2] := ByteAt(st, 2);
    ciphertext[at + 3] := ByteAt(st, 3);
    GetU32Is(ciphertext[..], at);
    WholeWord(st);
  }

  // ---------- one column through the tables ----------

  function TMix(a: bv32, b: bv32, c: bv32, d: bv32): bv32 {
    SumWords(Te0(ByteAt(a, 0)), Te1(ByteAt(b, 1)), Te2(ByteAt(c, 2)), Te3(ByteAt(d, 3)))
  }

  /** The S-box on four bytes, each from its own byte of Te4. */
  function TSub(a: bv8, b: bv8, c: bv8, d: bv8): bv32 {
    (Te4(a) & 0xff000000) ^ (Te4(b) & 0x00ff0000) ^ (Te4(c) & 0x0000ff00) ^ (Te4(d) & 0x000000ff)
  }

  lemma TSubIs(a: bv8, b: bv8, c: bv8, d: bv8)
    ensures TSub(a, b, c, d) == Word(SBox(a), SBox(b), SBox(c), SBox(d))
  {
    hide SBox, Te4;
    TableEntry(a);
    TableEntry(b);
    TableEntry(c);
    TableEntry(d);
    MaskedWords(SBox(a), SBox(b), SBox(c), SBox(d));
  }

  lemma TableEntry(x: bv8)
    ensures Te4(x) == Word(SBox(x), SBox(x), SBox(x), SBox(x))
    ensures Te0(x) == Word(Times(SBox(x), 2), SBox(x), SBox(x), Times(SBox(x), 3))
    ensures Te1(x) == Word(Times(SBox(x), 3), Times(SBox(x), 2), SBox(x), SBox(x))
    ensures Te2(x) == Word(SBox(x), Times(SBox(x), 3), Times(SBox(x), 2), SBox(x))
    ensures Te3(x) == Word(SBox(x), SBox(x), Times(SBox(x), 3), Times(SBox(x), 2))
  {
    hide Te0, Te1, Te2, Te3, Te4, SBox, Times, XTime, Word, Unaffine;
    EntriesAreRight(x);
    SmallTimes(SBox(x));
  }

  lemma SmallTimes(s: bv8)
    ensures Times(s, 2) == XTime(s) && Times(s, 3) == XTime(s) ^ s
  {}

  /** The four lookups of a column are SubBytes and MixColumns of the bytes ShiftRows brings together. */
  lemma ColumnRefined(a: bv32, b: bv32, c: bv32, d: bv32)
    ensures
      var (p, q, r, s) := (SBox(ByteAt(a, 0)), SBox(ByteAt(b, 1)), SBox(ByteAt(c, 2)), SBox(ByteAt(d, 3)));
      var w := TMix(a, b, c, d);
      && ByteAt(w, 0) == MixedByte(p, q, r, s) && ByteAt(w, 1) == MixedByte(q, r, s, p)
      && ByteAt(w, 2) == MixedByte(r, s, p, q) && ByteAt(w, 3) == MixedByte(s, p, q, r)
  {
    hide Te0, Te1, Te2, Te3, Te4, SBox, Times, XTime, Word, ByteAt, Sum, SumWords;
    var (x, y, z, u) := (ByteAt(a, 0), ByteAt(b, 1), ByteAt(c, 2), ByteAt(d, 3));
    TableEntry(x);
    TableEntry(y);
    TableEntry(z);
    TableEntry(u);
    var (p, q, r, s) := (SBox(x), SBox(y), SBox(z), SBox(u));
    WordBytes(Times(p, 2), p, p, Times(p, 3));
    WordBytes(Times(q, 3), Times(q, 2), q, q);
    WordBytes(r, Times(r, 3), Times(r, 2), r);
    WordBytes(s, s, Times(s, 3), Times(s, 2));
    SumBytes(Te0(x), Te1(y), Te2(z), Te3(u));
    SumTurned(p, Times(q, 2), Times(r, 3), s);
    SumTurned(p, q, Times(r, 2), Times(s, 3));
    SumTurned(Times(p, 3), q, r, Times(s, 2));
  }

  // ---------- rounds on words ----------

  /** SubBytes, ShiftRows and MixColumns through the tables. */
  function TMixed(b: Block): Block {
    Block(TMix(b.w0, b.w1, b.w2, b.w3), TMix(b.w1, b.w2, b.w3, b.w0), TMix(b.w2, b.w3, b.w0, b.w1), TMix(b.w3, b.w0, b.w1, b.w2))
  }

  /** SubBytes and ShiftRows through the last table. */
  function TShifted(b: Block): Block {
    Block(TSub(ByteAt(b.w0, 0), ByteAt(b.w1, 1), ByteAt(b.w2, 2), ByteAt(b.w3, 3)),
          TSub(ByteAt(b.w1, 0), ByteAt(b.w2, 1), ByteAt(b.w3, 2), ByteAt(b.w0, 3)),
          TSub(ByteAt(b.w2, 0), ByteAt(b.w3, 1), ByteAt(b.w0, 2), ByteAt(b.w1, 3)),
          TSub(ByteAt(b.w3, 0), ByteAt(b.w0, 1), ByteAt(b.w1, 2), ByteAt(b.w2, 3)))
  }

  function Keyed(b: Block, w: seq<bv32>, round: nat): Block
    requires 4 * round + 4 <= |w|
  {
    Block(AddWord(b.w0, w[4 * round]), AddWord(b.w1, w[4 * round + 1]),
          AddWord(b.w2, w[4 * round + 2]), AddWord(b.w3, w[4 * round + 3]))
  }

  function Loaded(s: seq<bv8>): Block
    requires |s| == 16
  {
    Block(GetU32(s, 0), GetU32(s, 4), GetU32(s, 8), GetU32(s, 12))
  }

  function TRounds(s: seq<bv8>, w: seq<bv32>, n: nat): Block
    requires |s| == 16 && 4 * n + 4 <= |w|
  {
    if n == 0 then Keyed(Loaded(s), w, 0) else Keyed(TMixed(TRounds(s, w, n - 1)), w, n)
  }

  predicate ColumnIs(p: bv8, q: bv8, r: bv8, t: bv8, w: bv32) {
    p == ByteAt(w, 0) && q == ByteAt(w, 1) && r == ByteAt(w, 2) && t == ByteAt(w, 3)
  }

  /** The words hold the bytes of the state, column by column. */
  predicate StateIs(s: seq<bv8>, b: Block) {
    && |s| == 16
    && ColumnIs(s[0], s[1], s[2], s[3], b.w0)
    && ColumnIs(s[4], s[5], s[6], s[7], b.w1)
    && ColumnIs(s[8], s[9], s[10], s[11], b.w2)
    && ColumnIs(s[12], s[13], s[14], s[15], b.w3)
  }

  lemma LoadedState(s: seq<bv8>)
    requires |s| == 16
    ensures StateIs(s, Loaded(s))
  {
    hide ByteAt, GetU32, Word;
    LoadedColumn(s, 0);
    LoadedColumn(s, 4);
    LoadedColumn(s, 8);
    LoadedColumn(s, 12);
  }

  lemma LoadedColumn(s: seq<bv8>, i: nat)
    requires i + 4 <= |s|
    ensures ColumnIs(s[i], s[i + 1], s[i + 2], s[i + 3], GetU32(s, i))
  {
    hide ByteAt, GetU32, Word;
    GetU32Is(s, i);
    WordBytes(s[i], s[i + 1], s[i + 2], s[i + 3]);
  }

  lemma KeyedColumn(p: bv8, q: bv8, r: bv8, t: bv8, v: bv32, k: bv32)
    requires ColumnIs(p, q, r, t, v)
    ensures ColumnIs(Add(p, ByteAt(k, 0)), Add(q, ByteAt(k, 1)), Add(r, ByteAt(k, 2)), Add(t, ByteAt(k, 3)), AddWord(v, k))
  {
    hide ByteAt, Add, AddWord;
    AddBytes(v, k);
  }

  lemma KeyedState(s: seq<bv8>, b: Block, w: seq<bv32>, round: nat)
    requires StateIs(s, b) && 4 * round + 4 <= |w|
    ensures StateIs(AddRoundKey(s, w, round), Keyed(b, w, round))
  {
    hide ByteAt, Add, AddWord, ColumnIs;
    KeyedColumn(s[0], s[1], s[2], s[3], b.w0, w[4 * round]);
    KeyedColumn(s[4], s[5], s[6], s[7], b.w1, w[4 * round + 1]);
    KeyedColumn(s[8], s[9], s[10], s[11], b.w2, w[4 * round + 2]);
    KeyedColumn(s[12], s[13], s[14], s[15], b.w3, w[4 * round + 3]);
  }

  lemma MixedColumn(p: bv32, q: bv32, r: bv32, t: bv32)
    ensures
      var (x, y, z, u) := (SBox(ByteAt(p, 0)), SBox(ByteAt(q, 1)), SBox(ByteAt(r, 2)), SBox(ByteAt(t, 3)));
      var m := MixColumn(x, y, z, u);
      ColumnIs(m[0], m[1], m[2], m[3], TMix(p, q, r, t))
  {
    hide ByteAt, SBox, TMix, MixedByte;
    ColumnRefined(p, q, r, t);
  }

  lemma MixedState(s: seq<bv8>, b: Block)
    requires StateIs(s, b)
    ensures StateIs(MixColumns(ShiftRows(SubBytes(s))), TMixed(b))
  {
    hide ByteAt, SBox, TMix, MixColumn;
    MixedColumn(b.w0, b.w1, b.w2, b.w3);
    MixedColumn(b.w1, b.w2, b.w3, b.w0);
    MixedColumn(b.w2, b.w3, b.w0, b.w1);
    MixedColumn(b.w3, b.w0, b.w1, b.w2);
  }

  lemma ShiftedColumn(x: bv8, y: bv8, z: bv8, u: bv8)
    ensures ColumnIs(SBox(x), SBox(y), SBox(z), SBox(u), TSub(x, y, z, u))
  {
    hide ByteAt, SBox, TSub, Word;
    TSubIs(x, y, z, u);
    WordBytes(SBox(x), SBox(y), SBox(z), SBox(u));
  }

  lemma ShiftedState(s: seq<bv8>, b: Block)
    requires StateIs(s, b)
    ensures StateIs(ShiftRows(SubBytes(s)), TShifted(b))
  {
    hide ByteAt, SBox, TSub;
    ShiftedColumn(ByteAt(b.w0, 0), ByteAt(b.w1, 1), ByteAt(b.w2, 2), ByteAt(b.w3, 3));
    ShiftedColumn(ByteAt(b.w1, 0), ByteAt(b.w2, 1), ByteAt(b.w3, 2), ByteAt(b.w0, 3));
    ShiftedColumn(ByteAt(b.w2, 0), ByteAt(b.w3, 1), ByteAt(b.w0, 2), ByteAt(b.w1, 3));
    ShiftedColumn(ByteAt(b.w3, 0), ByteAt(b.w0, 1), ByteAt(b.w1, 2), ByteAt(b.w2, 3));
  }

  /** The unrolled table rounds refine the textbook rounds. */
  lemma {:induction false} RoundsRefined(s: seq<bv8>, w: seq<bv32>, n: nat)
    requires |s| == 16 && 4 * n + 4 <= |w|
    ensures StateIs(Rounds(s, w, n), TRounds(s, w, n))
  {
    hide StateIs, TMixed, Keyed, Loaded, AddRoundKey, MixColumns, ShiftRows, SubBytes;
    if n == 0 {
      LoadedState(s);
      KeyedState(s, Loaded(s), w, 0);
    } else {
      RoundsRefined(s, w, n - 1);
      MixedState(Rounds(s, w, n - 1), TRounds(s, w, n - 1));
      KeyedState(MixColumns(ShiftRows(SubBytes(Rounds(s, w, n - 1)))), TMixed(TRounds(s, w, n - 1)), w, n);
    }
  }

  lemma LastRefined(s: seq<bv8>, b: Block, w: seq<bv32>, round: nat)
    requires StateIs(s, b) && 4 * round + 4 <= |w|
    ensures StateIs(LastRound(s, w, round), Keyed(TShifted(b), w, round))
  {
    assert |s| == 16;
    hide StateIs, TShifted, Keyed, AddRoundKey, ShiftRows, SubBytes;
    ShiftedState(s, b);
    KeyedState(ShiftRows(SubBytes(s)), TShifted(b), w, round);
  }

  // ---------- the source's own code ----------

  /** How many whole rounds the unrolled code runs. */
  function WholeRounds(nrounds: nat): nat {
    if nrounds > 12 then 13 else if nrounds > 10 then 11 else 9
  }

  /** AesEncrypt: what it leaves in `ciphertext`, which may be the plaintext's own array. */
  method AesEncrypt(rk: array<bv32>, nrounds: nat, plaintext: array<bv8>, ciphertext: array<bv8>)
    requires rk.Length >= 4 * nrounds + 4 && rk.Length >= 4 * WholeRounds(nrounds) + 4
    requires plaintext.Length >= 16 && ciphertext.Length >= 16
    modifies ciphertext
    ensures ciphertext[..16] == LastRound(Rounds(old(plaintext[..16]), rk[..], WholeRounds(nrounds)), rk[..], nrounds)
    ensures nrounds in {10, 12, 14} ==> ciphertext[..16] == Cipher(old(plaintext[..16]), rk[..], nrounds)
    ensures ciphertext[16..] == old(ciphertext[16..])
  {
    hide TMix, TSub, GetU32, ByteAt, StateIs, LastRound, Rounds, TRounds, AddWord, Cipher;
    ghost var block, w := plaintext[..16], rk[..];
    var s0 := AddWord(GetU32(plaintext[..], 0), rk[0]);
    var s1 := AddWord(GetU32(plaintext[..], 4), rk[1]);
    var s2 := AddWord(GetU32(plaintext[..], 8), rk[2]);
    var s3 := AddWord(GetU32(plaintext[..], 12), rk[3]);
    FirstDone(s0, s1, s2, s3, plaintext[..], w);
    var t0, t1, t2, t3 := Unrolled(rk, nrounds, s0, s1, s2, s3, block);
    var base := 4 * nrounds;
    s0 := AddWord(TSub(ByteAt(t0, 0), ByteAt(t1, 1), ByteAt(t2, 2), ByteAt(t3, 3)), rk[base]);
    s1 := AddWord(TSub(ByteAt(t1, 0), ByteAt(t2, 1), ByteAt(t3, 2), ByteAt(t0, 3)), rk[base + 1]);
    s2 := AddWord(TSub(ByteAt(t2, 0), ByteAt(t3, 1), ByteAt(t0, 2), ByteAt(t1, 3)), rk[base + 2]);
    s3 := AddWord(TSub(ByteAt(t3, 0), ByteAt(t0, 1), ByteAt(t1, 2), ByteAt(t2, 3)), rk[base + 3]);
    StoreBlock(ciphertext, s0, s1, s2, s3);
    ghost var last := Block(s0, s1, s2, s3);
    assert last == Keyed(TShifted(Block(t0, t1, t2, t3)), w, nrounds);
    hide Keyed, TShifted;
    Encrypted(block, Block(t0, t1, t2, t3), w, nrounds);
    SameState(ciphertext[..16], LastRound(Rounds(block, w, WholeRounds(nrounds)), w, nrounds), last);
  }

  /** One of the source's unrolled rounds. */
  method TableRound(rk: array<bv32>, n: nat, s0: bv32, s1: bv32, s2: bv32, s3: bv32, ghost block: seq<bv8>)
    returns (t0: bv32, t1: bv32, t2: bv32, t3: bv32)
    requires |block| == 16 && n >= 1 && rk.Length >= 4 * n + 4 && Block(s0, s1, s2, s3) == TRounds(block, rk[..], n - 1)
    ensures Block(t0, t1, t2, t3) == TRounds(block, rk[..], n)
  {
    hide TMix, AddWord;
    t0 := AddWord(TMix(s0, s1, s2, s3), rk[4 * n]);
    t1 := AddWord(TMix(s1, s2, s3, s0), rk[4 * n + 1]);
    t2 := AddWord(TMix(s2, s3, s0, s1), rk[4 * n + 2]);
    t3 := AddWord(TMix(s3, s0, s1, s2), rk[4 * n + 3]);
  }

  /** The unrolled rounds of AesEncrypt, back and forth between `s` and `t`. */
  method Unrolled(rk: array<bv32>, nrounds: nat, first0: bv32, first1: bv32, first2: bv32, first3: bv32,
      ghost block: seq<bv8>)
    returns (t0: bv32, t1: bv32, t2: bv32, t3: bv32)
    requires |block| == 16 && rk.Length >= 4 * WholeRounds(nrounds) + 4
    requires Block(first0, first1, first2, first3) == TRounds(block, rk[..], 0)
    ensures Block(t0, t1, t2, t3) == TRounds(block, rk[..], WholeRounds(nrounds))
  {
    hide TRounds;
    var s0, s1, s2, s3 := first0, first1, first2, first3;
    t0, t1, t2, t3 := TableRound(rk, 1, s0, s1, s2, s3, block);
    s0, s1, s2, s3 := TableRound(rk, 2, t0, t1, t2, t3, block);
    t0, t1, t2, t3 := TableRound(rk, 3, s0, s1, s2, s3, block);
    s0, s1, s2, s3 := TableRound(rk, 4, t0, t1, t2, t3, block);
    t0, t1, t2, t3 := TableRound(rk, 5, s0, s1, s2, s3, block);
    s0, s1, s2, s3 := TableRound(rk, 6, t0, t1, t2, t3, block);
    t0, t1, t2, t3 := TableRound(rk, 7, s0, s1, s2, s3, block);
    s0, s1, s2, s3 := TableRound(rk, 8, t0, t1, t2, t3, block);
    t0, t1, t2, t3 := TableRound(rk, 9, s0, s1, s2, s3, block);
    if nrounds > 10 {
      s0, s1, s2, s3 := TableRound(rk, 10, t0, t1, t2, t3, block);
      t0, t1, t2, t3 := TableRound(rk, 11, s0, s1, s2, s3, block);
      if nrounds > 12 {
        s0, s1, s2, s3 := TableRound(rk, 12, t0, t1, t2, t3, block);
        t0, t1, t2, t3 := TableRound(rk, 13, s0, s1, s2, s3, block);
      }
    }
  }

  /** The four PUTU32 of the last round. */
  method StoreBlock(ciphertext: array<bv8>, s0: bv32, s1: bv32, s2: bv32, s3: bv32)
    requires ciphertext.Length >= 16
    modifies ciphertext
    ensures StateIs(ciphertext[..16], Block(s0, s1, s2, s3))
    ensures ciphertext[16..] == old(ciphertext[16..])
  {
    hide ByteAt;
    PutU32(ciphertext, 0, s0);
    PutU32(ciphertext, 4, s1);
    PutU32(ciphertext, 8, s2);
    PutU32(ciphertext, 12, s3);
  }

  lemma FirstDone(s0: bv32, s1: bv32, s2: bv32, s3: bv32, plaintext: seq<bv8>, w: seq<bv32>)
    requires |plaintext| >= 16 && |w| >= 4
    requires s0 == AddWord(GetU32(plaintext, 0), w[0]) && s1 == AddWord(GetU32(plaintext, 4), w[1])
    requires s2 == AddWord(GetU32(plaintext, 8), w[2]) && s3 == AddWord(GetU32(plaintext, 12), w[3])
    ensures Block(s0, s1, s2, s3) == TRounds(plaintext[..16], w, 0)
  {
    hide AddWord;
  }

  lemma Encrypted(block: seq<bv8>, b: Block, w: seq<bv32>, nrounds: nat)
    requires |block| == 16 && 4 * nrounds + 4 <= |w| && 4 * WholeRounds(nrounds) + 4 <= |w|
    requires b == TRounds(block, w, WholeRounds(nrounds))
    ensures StateIs(LastRound(Rounds(block, w, WholeRounds(nrounds)), w, nrounds), Keyed(TShifted(b), w, nrounds))
    ensures nrounds in {10, 12, 14} ==>
              Cipher(block, w, nrounds) == LastRound(Rounds(block, w, WholeRounds(nrounds)), w, nrounds)
  {
    hide TRounds, Rounds, LastRound, TShifted, Keyed, StateIs;
    RoundsRefined(block, w, WholeRounds(nrounds));
    LastRefined(Rounds(block, w, WholeRounds(nrounds)), b, w, nrounds);
  }

  lemma SameState(s: seq<bv8>, t: seq<bv8>, b: Block)
    requires StateIs(s, b) && StateIs(t, b)
    ensures s == t
  {
    hide ByteAt;
  }
}
