/** SCTP chunk lists: what the reader's loop over them does, told by their headers, and what it hands over. */
module PcapChunks {
  import opened Bits
  import opened Common
  import opened PcapFormat

  // ---------- any bytes ----------

  function ChunkLen(chunks: seq<bv8>): Port
    requires |chunks| >= 4
  {
    GetBe16(chunks, 2)
  }

  /** DATA with the NGAP payload protocol, looked for 12 bytes on whatever the chunk's length. */
  predicate LooksNgap(chunks: seq<bv8>) {
    |chunks| >= 16 && chunks[0] == 0 && GetBe32(chunks, 12) == 60
  }

  /** The payload of the first chunk would start after its end, or end past the packet's. */
  predicate RunsPast(chunks: seq<bv8>) {
    |chunks| >= 4 && ChunkLen(chunks) >= 4 && LooksNgap(chunks) && !(16 <= ChunkLen(chunks) <= |chunks|)
  }

  /** The length of the first chunk rounds up past 16 bits. */
  predicate StaysInPlace(chunks: seq<bv8>) {
    |chunks| >= 4 && ChunkLen(chunks) > 65532 && !RunsPast(chunks)
  }

  function RoundedUp(n: nat): (r: nat)
    ensures n <= r < n + 4 && r % 4 == 0
  {
    (n + 3) / 4 * 4
  }

  /** No chunk follows the first, going by its length. */
  predicate LastChunk(chunks: seq<bv8>) {
    |chunks| < 4 || ChunkLen(chunks) < 4 || RoundedUp(ChunkLen(chunks)) > |chunks|
  }

  /** Where a walk from header to header ends: at a chunk that cannot be got past, or at the last. */
  function WalkedTo(chunks: seq<bv8>): (r: seq<bv8>)
    ensures RunsPast(r) || StaysInPlace(r) || LastChunk(r)
  {
    if RunsPast(chunks) || StaysInPlace(chunks) || LastChunk(chunks) then chunks
    else WalkedTo(chunks[RoundedUp(ChunkLen(chunks))..])
  }

  /** Every chunk header on the way is one the reader gets past. */
  predicate ChunksFit(chunks: seq<bv8>) {
    !RunsPast(WalkedTo(chunks)) && !StaysInPlace(WalkedTo(chunks))
  }

  lemma AlignedIsRounded(chunkLen: Port)
    requires chunkLen <= 65532
    ensures AlignedLen(chunkLen) == RoundedUp(chunkLen)
  {}

  /** The chunk loop slices out of range or never ends exactly where the walk over the headers says. */
  lemma {:induction false} WalkDecides(chunks: seq<bv8>)
    ensures NgapPayloads(chunks).Panics? <==> RunsPast(WalkedTo(chunks))
    ensures NgapPayloads(chunks).Hangs? <==> StaysInPlace(WalkedTo(chunks))
    ensures NgapPayloads(chunks).Done? <==> ChunksFit(chunks)
    decreases |chunks|
  {
    hide GetBe16, GetBe32, AlignedLen, RoundedUp;
    if |chunks| >= 4 && 4 <= ChunkLen(chunks) <= 65532 {
      AlignedIsRounded(ChunkLen(chunks));
      if RoundedUp(ChunkLen(chunks)) <= |chunks| {
        WalkDecides(chunks[RoundedUp(ChunkLen(chunks))..]);
      }
    }
  }

  /** A DATA chunk whose length leaves no room for the header that its payload protocol is read from. */
  lemma ShortDataChunk()
    ensures NgapPayloads([0, 3, 0, 8, 0, 0, 0, 0, 0, 0, 0, 0, 0, 0, 0, 60]) == Panics
  {
    var chunks: seq<bv8> := [0, 3, 0, 8, 0, 0, 0, 0, 0, 0, 0, 0, 0, 0, 0, 60];
    assert ChunkLen(chunks) == 8 && GetBe32(chunks, 12) == 60;
    WalkDecides(chunks);
  }

  /** A chunk, of whatever type, whose length field is all ones. */
  lemma LongestChunk()
    ensures NgapPayloads([1, 0, 0xff, 0xff]) == Hangs
  {
    var chunks: seq<bv8> := [1, 0, 0xff, 0xff];
    assert ChunkLen(chunks) == 65535;
    WalkDecides(chunks);
  }

  // ---------- chunk lists as RFC 4960 lays them out ----------

  /** A chunk of section 3.2 of RFC 4960: type, flags and value. */
  datatype Chunk = Chunk(kind: bv8, flags: bv8, value: seq<bv8>) {
    function Length(): nat { 4 + |value| }

    /** DATA has at least the twelve bytes before its user data, and no length is rounded up past 16 bits. */
    predicate WellFormed() { Length() <= 65532 && (kind == 0 ==> |value| >= 12) }

    function Padding(): seq<bv8> { seq(RoundedUp(Length()) - Length(), _ => 0) }

    function Bytes(): (r: seq<bv8>)
      ensures |r| == RoundedUp(Length())
    {
      [kind, flags] + Be16(Length()) + value + Padding()
    }

    predicate IsNgap() { kind == 0 && |value| >= 12 && GetBe32(value, 8) == 60 }
  }

  function ChunkBytes(chunks: seq<Chunk>): seq<bv8> {
    if chunks == [] then [] else chunks[0].Bytes() + ChunkBytes(chunks[1..])
  }

  /** The user data of the NGAP chunks. */
  function UserData(chunks: seq<Chunk>): seq<seq<bv8>> {
    if chunks == [] then []
    else (if chunks[0].IsNgap() then [chunks[0].value[12..]] else []) + UserData(chunks[1..])
  }

  predicate AllWellFormed(chunks: seq<Chunk>) {
    forall i | 0 <= i < |chunks| :: chunks[i].WellFormed()
  }

  lemma ChunkHead(c: Chunk, rest: seq<bv8>)
    requires c.WellFormed()
    ensures
      var bytes := c.Bytes() + rest;
      && |bytes| >= 4 && bytes[0] == c.kind && ChunkLen(bytes) == c.Length() && bytes[RoundedUp(c.Length())..] == rest
      && bytes[4..c.Length()] == c.value
  {
    hide Be16, GetBe16, RoundedUp;
    var bytes := c.Bytes() + rest;
    assert bytes[2..4] == Be16(c.Length());
    Be16Back(bytes, 2, c.Length());
  }

  lemma SameBe32(a: seq<bv8>, b: seq<bv8>, i: nat, j: nat)
    requires i + 4 <= |a| && j + 4 <= |b| && a[i..i + 4] == b[j..j + 4]
    ensures GetBe32(a, i) == GetBe32(b, j)
  {
    var x := a[i..i + 4];
    assert x[0] == a[i] && x[1] == a[i + 1] && x[2] == a[i + 2] && x[3] == a[i + 3];
    assert x[0] == b[j] && x[1] == b[j + 1] && x[2] == b[j + 2] && x[3] == b[j + 3];
  }

  /** However many chunks a packet bundles, exactly the user data of those for NGAP is handed over, in order. */
  lemma {:induction false} ChunksBack(chunks: seq<Chunk>)
    requires AllWellFormed(chunks)
    ensures NgapPayloads(ChunkBytes(chunks)) == Done(UserData(chunks))
  {
    hide GetBe16, GetBe32, AlignedLen, RoundedUp;
    if chunks != [] {
      var c, rest := chunks[0], ChunkBytes(chunks[1..]);
      assert c.WellFormed();
      ChunksBack(chunks[1..]);
      FirstChunk(c, rest, UserData(chunks[1..]));
    }
  }

  lemma FirstChunk(c: Chunk, rest: seq<bv8>, later: seq<seq<bv8>>)
    requires c.WellFormed() && NgapPayloads(rest) == Done(later)
    ensures NgapPayloads(c.Bytes() + rest) == Done((if c.IsNgap() then [c.value[12..]] else []) + later)
  {
    hide GetBe16, GetBe32, AlignedLen, RoundedUp, c.Bytes;
    var bytes := c.Bytes() + rest;
    ChunkHead(c, rest);
    AlignedIsRounded(c.Length());
    if c.kind == 0 {
      SliceOfSlice(bytes, 4, c.Length(), 8, 12);
      SliceOfSlice(bytes, 4, c.Length(), 12, c.Length() - 4);
      SameBe32(bytes, c.value, 12, 8);
    }
  }

  lemma SliceOfSlice(s: seq<bv8>, from: nat, to: nat, first: nat, last: nat)
    requires first <= last <= to - from && from <= to <= |s|
    ensures s[from..to][first..last] == s[from + first..from + last]
  {
    var whole := s[from..to];
    forall i | 0 <= i < last - first ensures whole[first..last][i] == s[from + first..from + last][i] {
      assert whole[first..last][i] == whole[first + i] == s[from + (first + i)];
    }
  }
}
