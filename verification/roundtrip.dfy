/** Reading back what was written: scalars, lengths and strings. */
module RoundTrip {
  import opened Bits
  import opened Common
  import opened BitCopy
  import opened Encoding
  import opened Decoding

  // ---------- values and alignment ----------

  lemma ValueBack(s: BitSeq, value: Uint64, n: nat, d: BitSeq)
    requires 0 < n && PutValue(s, value, n).Ok? && PutValue(s, value, n).value <= d
    ensures GetValue(d, |s|, n) == Got(value, |s| + n)
  {
    hide ToNat, FromNat;
    var r := PutValue(s, value, n).value;
    assert d[|s|..|s| + n] == r[|s|..] == FromNat(value, n);
    ToNatFromNat(value, n);
    SmallMod(value, TWO_64);
  }

  lemma AlignBack(s: BitSeq, d: BitSeq)
    requires Align(s) <= d
    ensures SkipAlign(d, |s|) == Got((), |Align(s)|)
  {
    var n := |Align(s)| - |s|;
    if n != 0 {
      assert d[|s|..|s| + n] == Align(s)[|s|..] == Zeros(n);
      ToNatZeros(n);
    }
  }

  lemma PrefixThrough(a: BitSeq, b: BitSeq, d: BitSeq)
    requires a <= b <= d
    ensures a <= d
  {}

  lemma ConstrainedBack(s: BitSeq, range: int, value: nat, d: BitSeq)
    requires PutConstrained(s, range, value).Ok? && PutConstrained(s, range, value).value <= d
    ensures GetConstrained(d, |s|, range) == Got(value, |PutConstrained(s, range, value).value|)
  {
    hide PutValue, GetValue, Align, SkipAlign;
    if range <= 255 {
      ValueBack(s, value, Width(range), d);
    } else {
      var a := Align(s);
      PrefixThrough(a, PutConstrained(s, range, value).value, d);
      AlignBack(s, d);
      ValueBack(a, value, if range == 256 then 8 else 16, d);
    }
  }

  // ---------- lengths ----------

  /** A length the decoder can recover: any bounded one, a short one, or one to four times 16384. */
  predicate LengthFits(sizeRange: int, n: nat) {
    Bounded(sizeRange) || n < 16384 || (n % 16384 == 0 && n <= 65536)
  }

  lemma LengthBack(s: BitSeq, sizeRange: int, n: nat, d: BitSeq)
    requires PutLength(s, sizeRange, n).Ok? && PutLength(s, sizeRange, n).value <= d
    requires LengthFits(sizeRange, n)
    ensures GetLength(d, |s|, sizeRange)
            == Got(Length(n, !Bounded(sizeRange) && n >= 16384), |PutLength(s, sizeRange, n).value|)
  {
    hide PutValue, GetValue, Align, SkipAlign, PutConstrained, GetConstrained, OrC0;
    var r := PutLength(s, sizeRange, n).value;
    if Bounded(sizeRange) {
      ConstrainedBack(s, sizeRange, n, d);
    } else {
      var a := Align(s);
      PrefixThrough(a, r, d);
      AlignBack(s, d);
      if n <= 127 {
        ValueBack(a, n, 8, d);
      } else if n <= 16383 {
        TwoOctets(a, n, d);
      } else {
        FragmentOctet(n);
        ValueBack(a, OrC0(n / 16384), 8, d);
      }
    }
  }

  /** The octet of one to four times 16384 says how many times, under its two high bits. */
  lemma FragmentOctet(n: nat)
    requires n % 16384 == 0 && 16384 <= n <= 65536
    ensures 192 <= OrC0(n / 16384) < 256 && OrC0(n / 16384) % 64 == n / 16384 && 1 <= n / 16384 <= 4
  {}

  /** A two-octet length is read as two octets. */
  lemma TwoOctets(a: BitSeq, n: nat, d: BitSeq)
    requires n < 16384
    requires PutValue(a, n + 0x8000, 16).Ok? && PutValue(a, n + 0x8000, 16).value <= d
    ensures GetValue(d, |a|, 8) == Got(n / 256 + 128, |a| + 8)
    ensures GetValue(d, |a| + 8, 8) == Got(n % 256, |a| + 16)
  {
    var v := n + 0x8000;
    Pow2Values();
    hide FromNat, GetValue, Shr;
    FromNatSplit(v, 8, 8);
    ShrUnique(v, 8, n / 256 + 128);
    var mid := a + FromNat(n / 256 + 128, 8);
    FromNatLow(v, 8);
    assert mid + FromNat(n % 256, 8) == PutValue(a, v, 16).value;
    PrefixThrough(mid, PutValue(a, v, 16).value, d);
    ValueBack(a, n / 256 + 128, 8, d);
    ValueBack(mid, n % 256, 8, d);
  }

  // ---------- fragmented contents ----------

  /** The lengths the fragment loops of the two sides agree on. */
  predicate FragmentsAgree(sizeRange: int, lb: nat, raw: nat) {
    raw < 16384
    || (Bounded(sizeRange) && raw < 65536 && raw % 16384 == 0)
    || (!Bounded(sizeRange) && lb == 0 && raw % 16384 != 0)
  }

  /** The units of `c` are those of `got` followed by the first `n` units of `bytes`. */
  predicate Extends(c: Content, got: Content, bytes: seq<bv8>, n: nat, unit: Unit) {
    && c.n == got.n + n
    && BitsOf(n, unit) <= 8 * |bytes|
    && |c.bytes| == |got.bytes| + BytesOf(n, unit)
    && Unpack(c.bytes)[..8 * |got.bytes| + BitsOf(n, unit)] == Unpack(got.bytes) + Unpack(bytes)[..BitsOf(n, unit)]
  }

  /** The whole octets of units that fit in whole octets of data fit too. */
  lemma WholeOctetsFit(pos: nat, n: nat, unit: Unit, size: nat)
    requires pos % 8 == 0 && size % 8 == 0 && pos + BitsOf(n, unit) <= size
    ensures pos + 8 * BytesOf(n, unit) <= size && BitsOf(n, unit) <= 8 * BytesOf(n, unit)
  {
    var octets, bits := (size - pos) / 8, BitsOf(n, unit);
    assert size - pos == 8 * octets;
    assert (bits + 7) / 8 <= octets;
  }

  /** One fragment is read as it was written. */
  lemma FragmentBack(s: BitSeq, piece: seq<bv8>, part: nat, lb: nat, sizeRange: int, unit: Unit, d: BitSeq)
    requires |d| % 8 == 0 && LengthFits(sizeRange, part) && part + lb > 0
    requires PutLength(s, sizeRange, part).Ok? && |piece| == BytesOf(part + lb, unit)
    requires Align(PutLength(s, sizeRange, part).value) + Unpack(piece)[..BitsOf(part + lb, unit)] <= d
    ensures
      var n := part + lb;
      var f := GetFragment(d, |s|, lb, sizeRange, unit);
      && f.Got?
      && f.pos == |Align(PutLength(s, sizeRange, part).value)| + BitsOf(n, unit)
      && f.value.1 == (!Bounded(sizeRange) && part >= 16384)
      && f.value.0.n == n
      && |f.value.0.bytes| == |piece|
      && Unpack(f.value.0.bytes)[..BitsOf(n, unit)] == Unpack(piece)[..BitsOf(n, unit)]
  {
    hide PutLength, GetLength, Align, SkipAlign, Pack, Unpack;
    var n := part + lb;
    var s1 := PutLength(s, sizeRange, part).value;
    var a := Align(s1);
    var bits := Unpack(piece)[..BitsOf(n, unit)];
    PrefixThrough(a, a + bits, d);
    PrefixThrough(s1, a, d);
    LengthBack(s, sizeRange, part, d);
    AlignBack(s1, d);
    var end := |a| + 8 * BytesOf(n, unit);
    WholeOctetsFit(|a|, n, unit, |d|);
    hide BytesOf, BitsOf;
    var got := Pack(d[|a|..end]);
    UnpackPack(d[|a|..end]);
    assert Unpack(got)[..BitsOf(n, unit)] == d[|a|..|a| + BitsOf(n, unit)] == bits;
    assert GetFragment(d, |s|, lb, sizeRange, unit)
        == Got((Content(got, n), !Bounded(sizeRange) && part >= 16384), |a| + BitsOf(n, unit));
  }

  /** Appending a whole last fragment extends what was read by all of it. */
  lemma ExtendsBy(got: Content, f: Content, piece: seq<bv8>, n: nat, unit: Unit)
    requires f.n == n && |f.bytes| == |piece| == BytesOf(n, unit)
    requires Unpack(f.bytes)[..BitsOf(n, unit)] == Unpack(piece)[..BitsOf(n, unit)]
    ensures Extends(Content(got.bytes + f.bytes, got.n + f.n), got, piece, n, unit)
  {
    hide Unpack;
    UnpackAppend(got.bytes, f.bytes);
  }

  /** The last fragment of a string. */
  lemma LastFragmentBack(s: BitSeq, piece: seq<bv8>, raw: nat, lb: nat, sizeRange: int, unit: Unit, d: BitSeq, got: Content)
    requires |piece| == BytesOf(raw + lb, unit) && |d| % 8 == 0
    requires LengthFits(sizeRange, raw) && (raw < 16384 || Bounded(sizeRange))
    requires PutLength(s, sizeRange, raw).Ok?
    requires raw + lb == 0 ==> PutLength(s, sizeRange, raw).value <= d
    requires raw + lb > 0 ==> Align(PutLength(s, sizeRange, raw).value) + Unpack(piece)[..BitsOf(raw + lb, unit)] <= d
    ensures
      var c := GetFragments(d, |s|, lb, sizeRange, unit, got);
      var s1 := PutLength(s, sizeRange, raw).value;
      && c.Got?
      && c.pos == (if raw + lb == 0 then |s1| else |Align(s1)| + BitsOf(raw + lb, unit))
      && Extends(c.value, got, piece, raw + lb, unit)
  {
    hide PutLength, GetLength, Align, SkipAlign, Unpack, Pack, Extends;
    if raw + lb == 0 {
      LengthBack(s, sizeRange, raw, d);
      ExtendsBy(got, Content([], 0), piece, 0, unit);
    } else {
      hide GetFragment;
      FragmentBack(s, piece, raw, lb, sizeRange, unit, d);
      ExtendsBy(got, GetFragment(d, |s|, lb, sizeRange, unit).value.0, piece, raw + lb, unit);
    }
  }

  /** Lengths both sides agree on are either the last fragment or leave such a length. */
  lemma AgreeingSizes(sizeRange: int, lb: nat, raw: nat)
    requires FragmentsAgree(sizeRange, lb, raw)
    ensures
      var part := FragmentSize(raw);
      if part == raw then LengthFits(sizeRange, raw) && (raw < 16384 || Bounded(sizeRange))
      else !Bounded(sizeRange) && lb == 0 && 16384 <= part <= 65536 && part % 16384 == 0
           && FragmentsAgree(sizeRange, lb, raw - part)
  {
    if raw >= 65536 {
      assert raw / 16384 * 16384 <= raw;
    }
  }

  /** One turn of the encoder's fragment loop. */
  lemma PutFragmentsStep(s: BitSeq, content: seq<bv8>, offset: nat, raw: nat, lb: nat, sizeRange: int, unit: Unit)
    requires offset <= |content|
    requires PutFragments(s, content, offset, raw, lb, sizeRange, unit).Ok?
    ensures
      var part := FragmentSize(raw);
      var end := offset + BytesOf(part + lb, unit);
      var s1 := PutLength(s, sizeRange, part);
      var r := PutFragments(s, content, offset, raw, lb, sizeRange, unit);
      && s1.Ok?
      && (part + lb == 0 ==> r == s1)
      && (part + lb > 0 ==> end <= |content|)
      && (part + lb > 0 && part == raw ==>
            r.value == Align(s1.value) + Unpack(content[offset..end])[..BitsOf(part + lb, unit)])
      && (part + lb > 0 && part != raw ==>
            r == PutFragments(Align(s1.value) + Unpack(content[offset..end]), content, end, raw - part, lb, sizeRange, unit))
  {
    hide PutLength, Align, Unpack, FragmentSize;
  }

  /** The decoder reassembles exactly the units the encoder split, and stops where it stopped. */
  lemma {:induction false} FragmentsBack(s: BitSeq, content: seq<bv8>, offset: nat, raw: nat, lb: nat,
      sizeRange: int, unit: Unit, d: BitSeq, got: Content)
    requires offset <= |content| && |content| - offset == BytesOf(raw + lb, unit) && |d| % 8 == 0
    requires PutFragments(s, content, offset, raw, lb, sizeRange, unit).Ok?
    requires PutFragments(s, content, offset, raw, lb, sizeRange, unit).value <= d
    requires FragmentsAgree(sizeRange, lb, raw)
    ensures
      var c := GetFragments(d, |s|, lb, sizeRange, unit, got);
      && c.Got?
      && c.pos == |PutFragments(s, content, offset, raw, lb, sizeRange, unit).value|
      && Extends(c.value, got, content[offset..], raw + lb, unit)
    decreases |content| - offset
  {
    hide PutLength, GetLength, Align, SkipAlign, Unpack, Pack, GetFragment, GetFragments, Extends;
    hide FragmentSize, FragmentsAgree, LengthFits, PutFragments;
    PutFragmentsStep(s, content, offset, raw, lb, sizeRange, unit);
    var part := FragmentSize(raw);
    AgreeingSizes(sizeRange, lb, raw);
    if part == raw {
      assert content[offset..offset + BytesOf(raw + lb, unit)] == content[offset..];
      LastFragmentBack(s, content[offset..], raw, lb, sizeRange, unit, d, got);
    } else {
      var end := offset + BytesOf(part, unit);
      var s2 := Align(PutLength(s, sizeRange, part).value) + Unpack(content[offset..end]);
      PrefixThrough(s2, PutFragments(s, content, offset, raw, lb, sizeRange, unit).value, d);
      MoreFragmentsBack(s, content[offset..end], part, sizeRange, unit, d, got);
      var more := Content(got.bytes + content[offset..end], got.n + part);
      FragmentsBack(s2, content, end, raw - part, lb, sizeRange, unit, d, more);
      JoinPieces(GetFragments(d, |s2|, lb, sizeRange, unit, more).value, got, content, offset, end, part, raw - part, unit);
    }
  }

  /** A fragment of 16384 units or a multiple is taken whole, and the decoder goes on. */
  lemma MoreFragmentsBack(s: BitSeq, piece: seq<bv8>, part: nat, sizeRange: int, unit: Unit, d: BitSeq, got: Content)
    requires 8 * |piece| == BitsOf(part, unit) && |d| % 8 == 0
    requires !Bounded(sizeRange) && part % 16384 == 0 && 16384 <= part <= 65536
    requires PutLength(s, sizeRange, part).Ok?
    requires Align(PutLength(s, sizeRange, part).value) + Unpack(piece) <= d
    ensures
      var s2 := Align(PutLength(s, sizeRange, part).value) + Unpack(piece);
      GetFragments(d, |s|, 0, sizeRange, unit, got)
      == GetFragments(d, |s2|, 0, sizeRange, unit, Content(got.bytes + piece, got.n + part))
  {
    hide PutLength, GetLength, Align, SkipAlign, Unpack, Pack, GetFragment;
    assert Unpack(piece)[..8 * |piece|] == Unpack(piece);
    FragmentBack(s, piece, part, 0, sizeRange, unit, d);
    var f := GetFragment(d, |s|, 0, sizeRange, unit).value.0;
    assert Unpack(f.bytes) == Unpack(piece) by { assert Unpack(f.bytes)[..8 * |piece|] == Unpack(f.bytes); }
    UnpackInjective(f.bytes, piece);
  }

  lemma JoinPieces(c: Content, got: Content, content: seq<bv8>, offset: nat, end: nat, part: nat, rest: nat, unit: Unit)
    requires offset <= end <= |content| && 8 * (end - offset) == BitsOf(part, unit)
    requires Extends(c, Content(got.bytes + content[offset..end], got.n + part), content[end..], rest, unit)
    ensures Extends(c, got, content[offset..], part + rest, unit)
  {
    hide Unpack;
    UnpackAppend(got.bytes, content[offset..end]);
    assert content[offset..] == content[offset..end] + content[end..];
    UnpackAppend(content[offset..end], content[end..]);
  }

  /** With a positive lower bound, asking for more than the content has left is a slice out of range. */
  lemma {:induction false} Overrun(s: BitSeq, content: seq<bv8>, offset: nat, raw: nat, lb: nat, sizeRange: int, unit: Unit)
    requires lb > 0 && offset <= |content| && |content| - offset < BytesOf(raw + lb, unit)
    ensures PutFragments(s, content, offset, raw, lb, sizeRange, unit).Err?
    decreases |content| - offset
  {
    hide PutLength, Align, Unpack, FragmentSize, PutFragments;
    if PutFragments(s, content, offset, raw, lb, sizeRange, unit).Ok? {
      var part := FragmentSize(raw);
      PutFragmentsStep(s, content, offset, raw, lb, sizeRange, unit);
      var end := offset + BytesOf(part + lb, unit);
      if part != raw {
        var s1 := PutLength(s, sizeRange, part).value;
        Overrun(Align(s1) + Unpack(content[offset..end]), content, end, raw - part, lb, sizeRange, unit);
      }
    }
  }

  /** Outside the lengths both sides agree on, the fragment written first decides what is lost. */
  lemma DisagreeingSizes(sizeRange: int, lb: nat, raw: nat)
    requires !FragmentsAgree(sizeRange, lb, raw)
    ensures
      var part := FragmentSize(raw);
      && raw >= 16384
      && (part == raw ==> !Bounded(sizeRange) && LengthFits(sizeRange, raw))
      && (part == 0 ==> raw == 65536)
      && (part != raw ==> part % 16384 == 0)
      && (part != raw && lb == 0 && part > 0 ==>
            LengthFits(sizeRange, part)
            && (Bounded(sizeRange) || (part % 16384 == 0 && part >= 16384 && !FragmentsAgree(sizeRange, lb, raw - part))))
  {
    if raw > 65536 && !Bounded(sizeRange) && lb == 0 {
      assert (raw - 65536) % 16384 == 0;
    }
  }

  /** Outside them no continuation lets the decoder return as many units, or more, and stop where the encoder did. */
  lemma {:induction false} FragmentsLost(s: BitSeq, content: seq<bv8>, offset: nat, raw: nat, lb: nat,
      sizeRange: int, unit: Unit, d: BitSeq, got: Content)
    requires offset <= |content| && |content| - offset == BytesOf(raw + lb, unit) && |d| % 8 == 0
    requires PutFragments(s, content, offset, raw, lb, sizeRange, unit).Ok?
    requires PutFragments(s, content, offset, raw, lb, sizeRange, unit).value <= d
    requires !FragmentsAgree(sizeRange, lb, raw)
    ensures
      var c := GetFragments(d, |s|, lb, sizeRange, unit, got);
      !(c.Got? && c.pos == |PutFragments(s, content, offset, raw, lb, sizeRange, unit).value| && c.value.n >= got.n + raw + lb)
    decreases |content| - offset
  {
    hide PutLength, GetLength, Align, SkipAlign, Unpack, Pack, GetFragment, GetFragments;
    hide FragmentSize, FragmentsAgree, LengthFits, PutFragments, BytesOf, BitsOf;
    PutFragmentsStep(s, content, offset, raw, lb, sizeRange, unit);
    DisagreeingSizes(sizeRange, lb, raw);
    var part := FragmentSize(raw);
    var end := offset + BytesOf(part + lb, unit);
    if part == raw {
      FitsInBytes(raw + lb, unit);
      OneTooMany(s, content[offset..end], raw, lb, sizeRange, unit, d, got);
    } else if lb > 0 {
      SecondPieceFails(s, content, offset, raw, lb, sizeRange, unit);
    } else if part == 0 {
      NothingRead(s, sizeRange, unit, d, got);
    } else {
      var piece := content[offset..end];
      var s2 := Align(PutLength(s, sizeRange, part).value) + Unpack(piece);
      PrefixThrough(s2, PutFragments(s, content, offset, raw, lb, sizeRange, unit).value, d);
      PieceLeaves(raw, part, unit);
      if Bounded(sizeRange) {
        OnlyOnePiece(s, piece, part, sizeRange, unit, d, got);
      } else {
        MoreFragmentsBack(s, piece, part, sizeRange, unit, d, got);
        FragmentsLost(s2, content, end, raw - part, lb, sizeRange, unit, d, Content(got.bytes + piece, got.n + part));
      }
    }
  }

  lemma FitsInBytes(n: nat, unit: Unit)
    ensures BitsOf(n, unit) <= 8 * BytesOf(n, unit)
  {}

  lemma PieceLeaves(raw: nat, part: nat, unit: Unit)
    requires part <= raw && part % 8 == 0
    ensures 8 * BytesOf(part, unit) == BitsOf(part, unit) && BytesOf(part, unit) <= part
    ensures part > 0 ==> BytesOf(part, unit) > 0
    ensures BytesOf(raw, unit) == BytesOf(part, unit) + BytesOf(raw - part, unit)
  {}

  /** With a positive lower bound a second fragment is never written. */
  lemma SecondPieceFails(s: BitSeq, content: seq<bv8>, offset: nat, raw: nat, lb: nat, sizeRange: int, unit: Unit)
    requires offset <= |content| && |content| - offset == BytesOf(raw + lb, unit)
    requires lb > 0 && FragmentSize(raw) != raw && FragmentSize(raw) % 8 == 0
    ensures PutFragments(s, content, offset, raw, lb, sizeRange, unit).Err?
  {
    hide PutLength, Align, Unpack, FragmentSize, PutFragments, BytesOf;
    if PutFragments(s, content, offset, raw, lb, sizeRange, unit).Ok? {
      var part := FragmentSize(raw);
      PutFragmentsStep(s, content, offset, raw, lb, sizeRange, unit);
      var end := offset + BytesOf(part + lb, unit);
      PiecesOverlap(raw, part, lb, unit);
      Overrun(Align(PutLength(s, sizeRange, part).value) + Unpack(content[offset..end]),
              content, end, raw - part, lb, sizeRange, unit);
    }
  }

  /** Each fragment repeats the lower bound, so two of them ask for more than the whole. */
  lemma PiecesOverlap(raw: nat, part: nat, lb: nat, unit: Unit)
    requires part <= raw && part % 8 == 0 && lb > 0
    ensures BytesOf(raw + lb, unit) < BytesOf(part + lb, unit) + BytesOf(raw - part + lb, unit)
  {}

  /** A last fragment of 16384 units or more makes the decoder look for another. */
  lemma OneTooMany(s: BitSeq, piece: seq<bv8>, part: nat, lb: nat, sizeRange: int, unit: Unit, d: BitSeq, got: Content)
    requires |piece| == BytesOf(part + lb, unit) && |d| % 8 == 0
    requires !Bounded(sizeRange) && LengthFits(sizeRange, part) && part >= 16384
    requires PutLength(s, sizeRange, part).Ok?
    requires Align(PutLength(s, sizeRange, part).value) + Unpack(piece)[..BitsOf(part + lb, unit)] <= d
    ensures
      var c := GetFragments(d, |s|, lb, sizeRange, unit, got);
      c.Got? ==> c.pos > |Align(PutLength(s, sizeRange, part).value)| + BitsOf(part + lb, unit)
  {
    hide PutLength, GetLength, Align, SkipAlign, Unpack, Pack, GetFragment, LengthFits;
    FragmentBack(s, piece, part, lb, sizeRange, unit, d);
  }

  /** A length of zero ends the string. */
  lemma NothingRead(s: BitSeq, sizeRange: int, unit: Unit, d: BitSeq, got: Content)
    requires PutLength(s, sizeRange, 0).Ok? && PutLength(s, sizeRange, 0).value <= d
    ensures GetFragments(d, |s|, 0, sizeRange, unit, got).Got?
    ensures GetFragments(d, |s|, 0, sizeRange, unit, got).value.n == got.n
  {
    hide PutLength, GetLength;
    LengthBack(s, sizeRange, 0, d);
  }

  /** A bounded length is never followed by another fragment. */
  lemma OnlyOnePiece(s: BitSeq, piece: seq<bv8>, part: nat, sizeRange: int, unit: Unit, d: BitSeq, got: Content)
    requires Bounded(sizeRange) && part > 0 && |d| % 8 == 0 && |piece| == BytesOf(part, unit)
    requires PutLength(s, sizeRange, part).Ok?
    requires Align(PutLength(s, sizeRange, part).value) + Unpack(piece) <= d
    ensures GetFragments(d, |s|, 0, sizeRange, unit, got).Got?
    ensures GetFragments(d, |s|, 0, sizeRange, unit, got).value.n == got.n + part
  {
    hide PutLength, GetLength, Align, SkipAlign, Unpack, Pack, GetFragment;
    var a := Align(PutLength(s, sizeRange, part).value);
    PrefixThrough(a + Unpack(piece)[..BitsOf(part, unit)], a + Unpack(piece), d);
    FragmentBack(s, piece, part, 0, sizeRange, unit, d);
  }

  /** Of whole octets, exactly those. */
  lemma OnlyThosePieces(s: BitSeq, piece: seq<bv8>, sizeRange: int, d: BitSeq, got: Content)
    requires Bounded(sizeRange) && piece != [] && |d| % 8 == 0
    requires PutLength(s, sizeRange, |piece|).Ok?
    requires Align(PutLength(s, sizeRange, |piece|).value) + Unpack(piece) <= d
    ensures GetFragments(d, |s|, 0, sizeRange, 8, got).Got?
    ensures GetFragments(d, |s|, 0, sizeRange, 8, got).value == Content(got.bytes + piece, got.n + |piece|)
  {
    hide PutLength, GetLength, Align, SkipAlign, Unpack, Pack, GetFragment;
    assert Unpack(piece)[..8 * |piece|] == Unpack(piece);
    FragmentBack(s, piece, |piece|, 0, sizeRange, 8, d);
    SameWhole(GetFragment(d, |s|, 0, sizeRange, 8).value.0.bytes, piece);
  }

  lemma SameWhole(a: seq<bv8>, b: seq<bv8>)
    requires |a| == |b| && Unpack(a)[..8 * |b|] == Unpack(b)[..8 * |b|]
    ensures a == b
  {
    hide Unpack;
    assert Unpack(a)[..8 * |b|] == Unpack(a) && Unpack(b)[..8 * |b|] == Unpack(b);
    UnpackInjective(a, b);
  }

  // ---------- BIT STRING and OCTET STRING ----------

  /** A SIZE constraint the two sides read alike: an upper bound comes with a lower one, an extension marker with both. */
  predicate SizeUsable(extensible: bool, lb: Option<Size>, ub: Option<Size>) {
    (ub.Some? ==> lb.Some?) && (extensible ==> ub.Some?)
  }

  /** The string lengths the two sides agree on. */
  predicate StringAgrees(n: nat, extensible: bool, lb: Option<Size>, ub: Option<Size>) {
    var form := StringForm(n, extensible, lb, ub);
    && form.Ok?
    && if form.value.sizeRange == 1 then n == ub.value && n > 0
       else n >= form.value.lb && FragmentsAgree(form.value.sizeRange, form.value.lb, n - form.value.lb)
  }

  /** The decoder returns `n` units, those of `content`, and stops at `pos`. */
  predicate Returns(c: Read<Content>, content: seq<bv8>, n: nat, unit: Unit, pos: nat)
    requires |content| == BytesOf(n, unit)
  {
    c.Got? && c.pos == pos && c.value.n == n && |c.value.bytes| == |content|
    && Unpack(c.value.bytes)[..BitsOf(n, unit)] == Unpack(content)[..BitsOf(n, unit)]
  }

  /** A string comes back exactly when its length is one the two sides agree on. */
  lemma StringBack(s: BitSeq, content: seq<bv8>, n: nat, unit: Unit, extensible: bool, lb: Option<Size>,
      ub: Option<Size>, d: BitSeq)
    requires |content| == BytesOf(n, unit) && |d| % 8 == 0 && SizeUsable(extensible, lb, ub)
    requires PutString(s, content, n, unit, extensible, lb, ub).Ok?
    requires PutString(s, content, n, unit, extensible, lb, ub).value <= d
    ensures
      var extension := StringForm(n, extensible, lb, ub).value.extension;
      Returns(GetString(d, |s| + |extension|, unit, extension == [true], lb, ub), content, n, unit,
              |PutString(s, content, n, unit, extensible, lb, ub).value|)
      <==> StringAgrees(n, extensible, lb, ub)
  {
    hide PutFragments, GetFragments, PutFixed, GetFixed, Unpack, FragmentsAgree, BytesOf;
    var form := StringForm(n, extensible, lb, ub).value;
    var s0 := s + form.extension;
    if form.sizeRange == 1 {
      FixedBack(s0, content, n, unit, ub.value, d);
    } else if n < form.lb {
      TooShort(s0, content, n, form.lb, form.sizeRange, unit);
    } else {
      FragmentedBack(s0, content, n, form.lb, form.sizeRange, unit, d);
    }
  }

  lemma FragmentedBack(s: BitSeq, content: seq<bv8>, n: nat, lb: Size, sizeRange: int, unit: Unit, d: BitSeq)
    requires |content| == BytesOf(n, unit) && |d| % 8 == 0 && n >= lb
    requires PutFragments(s, content, 0, n - lb, lb, sizeRange, unit).Ok?
    requires PutFragments(s, content, 0, n - lb, lb, sizeRange, unit).value <= d
    ensures Returns(GetFragments(d, |s|, lb, sizeRange, unit, Content([], 0)), content, n, unit,
                    |PutFragments(s, content, 0, n - lb, lb, sizeRange, unit).value|)
            <==> FragmentsAgree(sizeRange, lb, n - lb)
  {
    hide PutFragments, GetFragments, FragmentsAgree, BytesOf, BitsOf;
    var none := Content([], 0);
    if FragmentsAgree(sizeRange, lb, n - lb) {
      FragmentsBack(s, content, 0, n - lb, lb, sizeRange, unit, d, none);
      assert content[0..] == content;
      assert Unpack(none.bytes) == [];
    } else {
      FragmentsLost(s, content, 0, n - lb, lb, sizeRange, unit, d, none);
    }
  }

  /** A string shorter than its lower bound is never written with a length. */
  lemma TooShort(s: BitSeq, content: seq<bv8>, n: nat, lb: Size, sizeRange: int, unit: Unit)
    requires |content| == BytesOf(n, unit) && n < lb
    ensures PutFragments(s, content, 0, RawCount(n, lb), lb, sizeRange, unit).Err?
  {
    Overrun(s, content, 0, RawCount(n, lb), lb, sizeRange, unit);
  }

  lemma FixedBack(s: BitSeq, content: seq<bv8>, n: nat, unit: Unit, ub: nat, d: BitSeq)
    requires |content| == BytesOf(n, unit) && |d| % 8 == 0
    requires PutFixed(s, content, n, unit, ub).Ok? && PutFixed(s, content, n, unit, ub).value <= d
    ensures Returns(GetFixed(d, |s|, unit, ub), content, n, unit, |PutFixed(s, content, n, unit, ub).value|)
            <==> n == ub && n > 0
  {
    hide Unpack, Pack, Align, SkipAlign, Padded;
    if n == ub && n > 0 {
      if |content| > 2 { LongFixedBack(s, content, n, unit, d); } else { ShortFixedBack(s, content, n, unit, d); }
    }
  }

  lemma LongFixedBack(s: BitSeq, content: seq<bv8>, n: nat, unit: Unit, d: BitSeq)
    requires |content| == BytesOf(n, unit) > 2 && |d| % 8 == 0
    requires Align(s) + Unpack(content)[..BitsOf(n, unit)] <= d
    ensures Returns(GetFixed(d, |s|, unit, n), content, n, unit, |Align(s)| + BitsOf(n, unit))
  {
    hide Unpack, Pack, Align, SkipAlign;
    var a := Align(s);
    var bits := Unpack(content)[..BitsOf(n, unit)];
    PrefixThrough(a, a + bits, d);
    AlignBack(s, d);
    var end := |a| + 8 * BytesOf(n, unit);
    assert end <= |d|;
    UnpackPack(d[|a|..end]);
    assert d[|a|..end][..BitsOf(n, unit)] == bits;
  }

  lemma ShortFixedBack(s: BitSeq, content: seq<bv8>, n: nat, unit: Unit, d: BitSeq)
    requires |content| == BytesOf(n, unit) <= 2 && n > 0
    requires s + Unpack(content)[..BitsOf(n, unit)] <= d
    ensures Returns(GetFixed(d, |s|, unit, n), content, n, unit, |s| + BitsOf(n, unit))
  {
    hide Unpack, Pack;
    var bits := Unpack(content)[..BitsOf(n, unit)];
    assert d[|s|..|s| + BitsOf(n, unit)] == bits;
    UnpackPack(Padded(bits));
  }
}
