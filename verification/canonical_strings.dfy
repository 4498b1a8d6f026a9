/** Which of the BIT STRINGs and OCTET STRINGs the decoder accepts are those the encoder writes. */
module CanonicalStrings {
  import opened Bits
  import opened Common
  import opened BitCopy
  import opened Encoding
  import opened Decoding
  import opened RoundTrip
  import opened WholeValue
  import opened WritableValues
  import opened CanonicalForms

  const NONE := Content([], 0)

  // ---------- one fragment ----------

  /** The last fragment of a string. */
  predicate EndsHere(d: BitSeq, pos: nat, lb: nat, sizeRange: int, unit: Unit)
    requires pos <= |d|
  {
    var f := GetFragment(d, pos, lb, sizeRange, unit);
    f.Got? && !f.value.1
  }

  /** Every length takes the fewest octets, and a fragment that another follows is of 65536 units unless that one is
      the last. */
  predicate FewestFragments(d: BitSeq, pos: nat, lb: nat, sizeRange: int, unit: Unit)
    requires pos <= |d|
    decreases |d| - pos
  {
    var f := GetFragment(d, pos, lb, sizeRange, unit);
    && FewestOctets(d, pos, sizeRange) && f.Got?
    && (f.value.1 ==>
          && (f.value.0.n == 65536 + lb || EndsHere(d, f.pos, lb, sizeRange, unit))
          && FewestFragments(d, f.pos, lb, sizeRange, unit))
  }

  /** Only a length of one to four times 16384 is followed by another fragment; any other is below that. */
  lemma LengthKinds(d: BitSeq, pos: nat, sizeRange: int)
    requires pos <= |d| && GetLength(d, pos, sizeRange).Got?
    ensures
      var length := GetLength(d, pos, sizeRange).value;
      if Bounded(sizeRange) then !length.repeat && length.n < 65536
      else if length.repeat then length.n % 16384 == 0 && 16384 <= length.n <= 65536
      else length.n < 16384
  {
    hide GetValue, SkipAlign, GetConstrained;
    if !Bounded(sizeRange) {
      var p0 := SkipAlign(d, pos).pos;
      OctetRead(d, p0);
      var first := GetValue(d, p0, 8).value;
      if 128 <= first < 192 {
        OctetRead(d, p0 + 8);
        LongForm(first, GetValue(d, p0 + 8, 8).value);
      }
    }
  }

  /** A fragment is a length, padding, and the units themselves. */
  lemma FragmentParts(d: BitSeq, pos: nat, lb: nat, sizeRange: int, unit: Unit)
    requires pos <= |d| && GetFragment(d, pos, lb, sizeRange, unit).Got?
    ensures GetLength(d, pos, sizeRange).Got?
    ensures
      var f := GetFragment(d, pos, lb, sizeRange, unit);
      var length := GetLength(d, pos, sizeRange);
      var n := length.value.n + lb;
      && f.value.0.n == n && f.value.1 == (n > 0 && length.value.repeat)
      && BitsOf(n, unit) <= 8 * |f.value.0.bytes| && |f.value.0.bytes| == BytesOf(n, unit)
      && if n == 0 then f.pos == length.pos
         else |Align(d[..length.pos])| + BitsOf(n, unit) == f.pos
              && d[..f.pos] == Align(d[..length.pos]) + Unpack(f.value.0.bytes)[..BitsOf(n, unit)]
  {
    hide GetLength, SkipAlign, Align, Pack, Unpack;
    var length := GetLength(d, pos, sizeRange);
    var n := length.value.n + lb;
    if n > 0 {
      AlignCanonical(d, length.pos);
      var p2 := SkipAlign(d, length.pos).pos;
      var end := p2 + 8 * BytesOf(n, unit);
      UnpackPack(d[p2..end]);
      assert d[p2..end][..BitsOf(n, unit)] == d[p2..p2 + BitsOf(n, unit)];
    }
  }

  /** What the decoder reads first is what the encoder wrote first. */
  lemma PartRead(d: BitSeq, pos: nat, content: seq<bv8>, offset: nat, raw: nat, lb: nat, sizeRange: int, unit: Unit)
    requires pos <= |d| && offset <= |content| && LengthFits(sizeRange, FragmentSize(raw))
    requires PutFragments(d[..pos], content, offset, raw, lb, sizeRange, unit).Ok?
    requires PutFragments(d[..pos], content, offset, raw, lb, sizeRange, unit).value <= d
    ensures GetLength(d, pos, sizeRange).Got? && GetLength(d, pos, sizeRange).value.n == FragmentSize(raw)
    ensures FewestOctets(d, pos, sizeRange)
  {
    hide PutLength, GetLength, Align, Unpack, FragmentSize, PutFragments, BytesOf, LengthFits, FewestOctets;
    PutFragmentsStep(d[..pos], content, offset, raw, lb, sizeRange, unit);
    var s1 := PutLength(d[..pos], sizeRange, FragmentSize(raw)).value;
    PrefixThrough(s1, PutFragments(d[..pos], content, offset, raw, lb, sizeRange, unit).value, d);
    LengthBack(d[..pos], sizeRange, FragmentSize(raw), d);
    assert s1 == d[..|s1|];
    LengthCanonical(d, pos, sizeRange);
  }

  /** The content from `offset` on has the units of `bytes`. */
  predicate SameUnits(content: seq<bv8>, offset: nat, bytes: seq<bv8>, n: nat, unit: Unit) {
    && offset <= |content| && |content| - offset == BytesOf(n, unit) && BitsOf(n, unit) <= 8 * |bytes|
    && BitsOf(n, unit) <= 8 * (|content| - offset)
    && Unpack(content[offset..])[..BitsOf(n, unit)] == Unpack(bytes)[..BitsOf(n, unit)]
  }

  /** The last fragment is the encoder's when its length is. */
  lemma LastCanonical(d: BitSeq, pos: nat, content: seq<bv8>, offset: nat, raw: nat, lb: nat, sizeRange: int, unit: Unit)
    requires pos <= |d| && EndsHere(d, pos, lb, sizeRange, unit)
    requires GetFragment(d, pos, lb, sizeRange, unit).value.0.n == raw + lb
    requires FragmentSize(raw) == raw && LengthFits(sizeRange, raw)
    requires SameUnits(content, offset, GetFragment(d, pos, lb, sizeRange, unit).value.0.bytes, raw + lb, unit)
    ensures PutFragments(d[..pos], content, offset, raw, lb, sizeRange, unit)
              == Ok(d[..GetFragment(d, pos, lb, sizeRange, unit).pos])
            <==> FewestOctets(d, pos, sizeRange)
  {
    hide PutLength, GetLength, Align, Unpack, FragmentSize, PutFragments, BytesOf, BitsOf, LengthFits, FewestOctets, GetFragment;
    FragmentParts(d, pos, lb, sizeRange, unit);
    LengthCanonical(d, pos, sizeRange);
    var f := GetFragment(d, pos, lb, sizeRange, unit);
    if FewestOctets(d, pos, sizeRange) {
      OneTurn(d[..pos], content, offset, raw, lb, sizeRange, unit);
      assert content[offset..offset + BytesOf(raw + lb, unit)] == content[offset..];
    } else if PutFragments(d[..pos], content, offset, raw, lb, sizeRange, unit) == Ok(d[..f.pos]) {
      PartRead(d, pos, content, offset, raw, lb, sizeRange, unit);
    }
  }

  lemma OneTurn(s: BitSeq, content: seq<bv8>, offset: nat, raw: nat, lb: nat, sizeRange: int, unit: Unit)
    requires offset <= |content| && FragmentSize(raw) == raw && PutLength(s, sizeRange, raw).Ok?
    requires offset + BytesOf(raw + lb, unit) <= |content| && BitsOf(raw + lb, unit) <= 8 * BytesOf(raw + lb, unit)
    ensures
      var s1, end := PutLength(s, sizeRange, raw).value, offset + BytesOf(raw + lb, unit);
      PutFragments(s, content, offset, raw, lb, sizeRange, unit)
      == Ok(if raw + lb == 0 then s1 else Align(s1) + Unpack(content[offset..end])[..BitsOf(raw + lb, unit)])
  {
    hide PutLength, Align, Unpack, FragmentSize;
  }

  // ---------- several fragments ----------

  /** What the loop gathers is appended to what it had. */
  lemma {:induction false} GatheredAfter(d: BitSeq, pos: nat, lb: nat, sizeRange: int, unit: Unit, got: Content)
    requires pos <= |d|
    ensures
      var c, rest := GetFragments(d, pos, lb, sizeRange, unit, got), GetFragments(d, pos, lb, sizeRange, unit, NONE);
      && (c.Got? <==> rest.Got?) && c.pos == rest.pos
      && (c.Got? ==> c.value == Content(got.bytes + rest.value.bytes, got.n + rest.value.n))
    decreases |d| - pos
  {
    hide GetFragment, GetFragments;
    var f := GetFragment(d, pos, lb, sizeRange, unit);
    Turn(d, pos, lb, sizeRange, unit, got);
    Turn(d, pos, lb, sizeRange, unit, NONE);
    if f.Got? {
      var piece := f.value.0;
      assert NONE.bytes + piece.bytes == piece.bytes;
      if f.value.1 {
        var after := GetFragments(d, f.pos, lb, sizeRange, unit, NONE);
        GatheredAfter(d, f.pos, lb, sizeRange, unit, Content(got.bytes + piece.bytes, got.n + piece.n));
        GatheredAfter(d, f.pos, lb, sizeRange, unit, piece);
        if after.Got? {
          assert got.bytes + piece.bytes + after.value.bytes == got.bytes + (piece.bytes + after.value.bytes);
        }
      }
    }
  }

  /** One turn of the decoder's loop. */
  lemma Turn(d: BitSeq, pos: nat, lb: nat, sizeRange: int, unit: Unit, got: Content)
    requires pos <= |d|
    ensures
      var f, c := GetFragment(d, pos, lb, sizeRange, unit), GetFragments(d, pos, lb, sizeRange, unit, got);
      if f.Fail? then c.Fail? && c.pos == f.pos
      else
        var more := Content(got.bytes + f.value.0.bytes, got.n + f.value.0.n);
        c == if f.value.1 then GetFragments(d, f.pos, lb, sizeRange, unit, more) else Got(more, f.pos)
  {
    hide GetFragment;
  }

  /** A string in several fragments is the first and what is gathered after it. */
  lemma MoreGathered(d: BitSeq, pos: nat, lb: nat, sizeRange: int, unit: Unit)
    requires pos <= |d| && GetFragments(d, pos, lb, sizeRange, unit, NONE).Got?
    ensures GetFragment(d, pos, lb, sizeRange, unit).Got?
    ensures
      var f, c := GetFragment(d, pos, lb, sizeRange, unit), GetFragments(d, pos, lb, sizeRange, unit, NONE);
      if f.value.1 then
        var rest := GetFragments(d, f.pos, lb, sizeRange, unit, NONE);
        && rest.Got? && c.pos == rest.pos && BitsOf(rest.value.n, unit) <= 8 * |rest.value.bytes|
        && c.value == Content(f.value.0.bytes + rest.value.bytes, f.value.0.n + rest.value.n)
      else c.pos == f.pos && c.value == f.value.0
  {
    hide GetFragment;
    var f := GetFragment(d, pos, lb, sizeRange, unit);
    assert NONE.bytes + f.value.0.bytes == f.value.0.bytes;
    if f.value.1 { GatheredAfter(d, f.pos, lb, sizeRange, unit, f.value.0); }
  }

  /** Without a lower bound a string ends with its first fragment exactly when it is below 16384 units. */
  lemma EndsBelow(d: BitSeq, pos: nat, sizeRange: int, unit: Unit)
    requires pos <= |d| && !Bounded(sizeRange) && GetFragments(d, pos, 0, sizeRange, unit, NONE).Got?
    ensures EndsHere(d, pos, 0, sizeRange, unit) <==> GetFragments(d, pos, 0, sizeRange, unit, NONE).value.n < 16384
  {
    hide GetFragment, GetFragments, GetLength;
    MoreGathered(d, pos, 0, sizeRange, unit);
    FragmentParts(d, pos, 0, sizeRange, unit);
    LengthKinds(d, pos, sizeRange);
  }

  /** A part with `rest` units after it is the encoder's choice when it is of 65536 units or the rest is one fragment. */
  lemma PartOfRest(sizeRange: int, part: nat, rest: nat)
    requires !Bounded(sizeRange) && part % 16384 == 0 && 16384 <= part <= 65536 && FragmentsAgree(sizeRange, 0, part + rest)
    ensures FragmentSize(part + rest) == part <==> part == 65536 || rest < 16384
    ensures FragmentsAgree(sizeRange, 0, rest) && part < part + rest
    ensures LengthFits(sizeRange, FragmentSize(part + rest))
  {}

  lemma OnePart(sizeRange: int, raw: nat)
    requires raw < 16384
    ensures FragmentSize(raw) == raw && LengthFits(sizeRange, raw)
  {}

  lemma SplitUnits(content: seq<bv8>, offset: nat, piece: seq<bv8>, part: nat, after: seq<bv8>, rest: nat, unit: Unit)
    requires part % 8 == 0 && |piece| == BytesOf(part, unit) && BitsOf(rest, unit) <= 8 * |after|
    requires SameUnits(content, offset, piece + after, part + rest, unit)
    ensures offset + |piece| <= |content| && content[offset..offset + |piece|] == piece
    ensures SameUnits(content, offset + |piece|, after, rest, unit)
  {
    hide Unpack, BytesOf;
    PieceLeaves(part + rest, part, unit);
    FitsInBytes(rest, unit);
    var end := offset + |piece|;
    assert content[offset..] == content[offset..end] + content[end..];
    UnpackAppend(content[offset..end], content[end..]);
    UnpackAppend(piece, after);
    hide BitsOf;
    CutBoth(Unpack(content[offset..end]), Unpack(content[end..]), Unpack(piece), Unpack(after), BitsOf(rest, unit));
    UnpackInjective(content[offset..end], piece);
  }

  lemma CutBoth(a: BitSeq, b: BitSeq, x: BitSeq, y: BitSeq, n: nat)
    requires |a| == |x| && n <= |b| && n <= |y| && (a + b)[..|a| + n] == (x + y)[..|x| + n]
    ensures a == x && b[..n] == y[..n]
  {
    assert (a + b)[..|a| + n] == a + b[..n] && (x + y)[..|x| + n] == x + y[..n];
    assert (a + b[..n])[..|a|] == a && (x + y[..n])[..|x|] == x;
    assert (a + b[..n])[|a|..] == b[..n] && (x + y[..n])[|x|..] == y[..n];
  }

  lemma FewestOne(d: BitSeq, pos: nat, lb: nat, sizeRange: int, unit: Unit)
    requires pos <= |d| && EndsHere(d, pos, lb, sizeRange, unit)
    ensures FewestFragments(d, pos, lb, sizeRange, unit) <==> FewestOctets(d, pos, sizeRange)
  {
    hide GetFragment, FewestOctets;
  }

  lemma FewestMore(d: BitSeq, pos: nat, lb: nat, sizeRange: int, unit: Unit)
    requires pos <= |d| && GetFragment(d, pos, lb, sizeRange, unit).Got? && GetFragment(d, pos, lb, sizeRange, unit).value.1
    ensures
      var f := GetFragment(d, pos, lb, sizeRange, unit);
      FewestFragments(d, pos, lb, sizeRange, unit)
      <==> FewestOctets(d, pos, sizeRange) && FewestFragments(d, f.pos, lb, sizeRange, unit)
           && (f.value.0.n == 65536 + lb || EndsHere(d, f.pos, lb, sizeRange, unit))
  {
    hide GetFragment, FewestOctets, EndsHere;
  }

  /** Without a lower bound, fragments are the encoder's exactly when they are as few and as short as they can be. */
  lemma {:induction false} FragmentsCanonical(d: BitSeq, pos: nat, content: seq<bv8>, offset: nat, sizeRange: int, unit: Unit)
    requires pos <= |d| && offset <= |content|
    requires !Bounded(sizeRange) && GetFragments(d, pos, 0, sizeRange, unit, NONE).Got?
    requires
      var c := GetFragments(d, pos, 0, sizeRange, unit, NONE).value;
      FragmentsAgree(sizeRange, 0, c.n) && SameUnits(content, offset, c.bytes, c.n, unit)
    ensures
      var c := GetFragments(d, pos, 0, sizeRange, unit, NONE);
      PutFragments(d[..pos], content, offset, c.value.n, 0, sizeRange, unit) == Ok(d[..c.pos])
      <==> FewestFragments(d, pos, 0, sizeRange, unit)
    decreases |d| - pos
  {
    hide PutLength, GetLength, Align, Unpack, FragmentSize, PutFragments, GetFragment, GetFragments, BytesOf, BitsOf;
    hide LengthFits, FewestOctets, SameUnits, FragmentsAgree, FewestFragments;
    var c, f := GetFragments(d, pos, 0, sizeRange, unit, NONE), GetFragment(d, pos, 0, sizeRange, unit);
    MoreGathered(d, pos, 0, sizeRange, unit);
    FragmentParts(d, pos, 0, sizeRange, unit);
    LengthKinds(d, pos, sizeRange);
    var raw, part := c.value.n, f.value.0.n;
    if !f.value.1 {
      OnePart(sizeRange, raw);
      FewestOne(d, pos, 0, sizeRange, unit);
      LastCanonical(d, pos, content, offset, raw, 0, sizeRange, unit);
    } else {
      var rest := GetFragments(d, f.pos, 0, sizeRange, unit, NONE);
      EndsBelow(d, f.pos, sizeRange, unit);
      FewestMore(d, pos, 0, sizeRange, unit);
      hide EndsHere;
      PartOfRest(sizeRange, part, rest.value.n);
      if FragmentSize(raw) == part {
        SplitUnits(content, offset, f.value.0.bytes, part, rest.value.bytes, rest.value.n, unit);
        WrittenAsRead(d, pos, content, offset, raw, sizeRange, unit);
        FragmentsCanonical(d, f.pos, content, offset + |f.value.0.bytes|, sizeRange, unit);
      } else if PutFragments(d[..pos], content, offset, raw, 0, sizeRange, unit) == Ok(d[..c.pos]) {
        PartRead(d, pos, content, offset, raw, 0, sizeRange, unit);
      }
    }
  }

  /** The part the encoder would choose, once it has been read, is written as it was read. */
  lemma WrittenAsRead(d: BitSeq, pos: nat, content: seq<bv8>, offset: nat, raw: nat, sizeRange: int, unit: Unit)
    requires pos <= |d| && !Bounded(sizeRange) && GetFragment(d, pos, 0, sizeRange, unit).Got?
    requires
      var f := GetFragment(d, pos, 0, sizeRange, unit);
      && f.value.1 && FragmentSize(raw) == f.value.0.n < raw
      && offset + |f.value.0.bytes| <= |content| && content[offset..offset + |f.value.0.bytes|] == f.value.0.bytes
    ensures FewestOctets(d, pos, sizeRange)
    ensures
      var f := GetFragment(d, pos, 0, sizeRange, unit);
      PutFragments(d[..pos], content, offset, raw, 0, sizeRange, unit)
      == PutFragments(d[..f.pos], content, offset + |f.value.0.bytes|, raw - f.value.0.n, 0, sizeRange, unit)
  {
    hide PutLength, GetLength, Align, Unpack, FragmentSize, PutFragments, GetFragment, BytesOf, BitsOf;
    var f := GetFragment(d, pos, 0, sizeRange, unit);
    FragmentParts(d, pos, 0, sizeRange, unit);
    LengthKinds(d, pos, sizeRange);
    LengthCanonical(d, pos, sizeRange);
    PieceLeaves(raw, f.value.0.n, unit);
    assert Unpack(f.value.0.bytes)[..BitsOf(f.value.0.n, unit)] == Unpack(f.value.0.bytes);
    TurnWritten(d[..pos], content, offset, raw, 0, sizeRange, unit);
  }

  /** With a lower bound or both, a string the two sides agree on is one fragment. */
  lemma OneFragmentRead(d: BitSeq, pos: nat, lb: nat, sizeRange: int, unit: Unit)
    requires pos <= |d| && (Bounded(sizeRange) || lb > 0) && GetFragments(d, pos, lb, sizeRange, unit, NONE).Got?
    ensures GetFragments(d, pos, lb, sizeRange, unit, NONE).value.n >= lb
    ensures FragmentsAgree(sizeRange, lb, GetFragments(d, pos, lb, sizeRange, unit, NONE).value.n - lb)
            ==> EndsHere(d, pos, lb, sizeRange, unit)
  {
    hide GetFragment, GetFragments, GetLength, BytesOf, BitsOf;
    MoreGathered(d, pos, lb, sizeRange, unit);
    FragmentParts(d, pos, lb, sizeRange, unit);
    LengthKinds(d, pos, sizeRange);
  }

  lemma WholePart(sizeRange: int, lb: nat, raw: nat)
    requires (Bounded(sizeRange) || lb > 0) && FragmentsAgree(sizeRange, lb, raw)
    ensures FragmentSize(raw) == raw && LengthFits(sizeRange, raw)
  {}

  /** A string with a length is the encoder's when the two sides agree on its length and its fragments are as few and
      as short as they can be. */
  lemma LengthedCanonical(d: BitSeq, pos: nat, content: seq<bv8>, lb: Size, sizeRange: int, unit: Unit)
    requires pos <= |d| && |d| % 8 == 0 && GetFragments(d, pos, lb, sizeRange, unit, NONE).Got?
    requires
      var c := GetFragments(d, pos, lb, sizeRange, unit, NONE).value;
      c.n >= lb && |content| == BytesOf(c.n, unit) && SameUnits(content, 0, c.bytes, c.n, unit)
    ensures
      var c := GetFragments(d, pos, lb, sizeRange, unit, NONE);
      PutFragments(d[..pos], content, 0, c.value.n - lb, lb, sizeRange, unit) == Ok(d[..c.pos])
      <==> FragmentsAgree(sizeRange, lb, c.value.n - lb) && FewestFragments(d, pos, lb, sizeRange, unit)
  {
    hide PutFragments, GetFragments, GetFragment, BytesOf, BitsOf, FragmentsAgree, FragmentSize, FewestFragments, FewestOctets;
    hide SameUnits, LengthFits, EndsHere;
    var c := GetFragments(d, pos, lb, sizeRange, unit, NONE);
    if !FragmentsAgree(sizeRange, lb, c.value.n - lb) {
      if PutFragments(d[..pos], content, 0, c.value.n - lb, lb, sizeRange, unit) == Ok(d[..c.pos]) {
        FragmentsLost(d[..pos], content, 0, c.value.n - lb, lb, sizeRange, unit, d, NONE);
      }
    } else if Bounded(sizeRange) || lb > 0 {
      OneFragmentRead(d, pos, lb, sizeRange, unit);
      WholePart(sizeRange, lb, c.value.n - lb);
      FewestOne(d, pos, lb, sizeRange, unit);
      OnlyFragment(d, pos, lb, sizeRange, unit);
      LastCanonical(d, pos, content, 0, c.value.n - lb, lb, sizeRange, unit);
    } else {
      FragmentsCanonical(d, pos, content, 0, sizeRange, unit);
    }
  }

  lemma OnlyFragment(d: BitSeq, pos: nat, lb: nat, sizeRange: int, unit: Unit)
    requires pos <= |d| && EndsHere(d, pos, lb, sizeRange, unit)
    ensures
      var f := GetFragment(d, pos, lb, sizeRange, unit);
      GetFragments(d, pos, lb, sizeRange, unit, NONE) == Got(f.value.0, f.pos)
  {
    hide GetFragment, GetFragments;
    Turn(d, pos, lb, sizeRange, unit, NONE);
    var piece := GetFragment(d, pos, lb, sizeRange, unit).value.0;
    assert NONE.bytes + piece.bytes == piece.bytes;
  }

  // ---------- whole strings ----------

  /** A string of fixed size is always the encoder's. */
  lemma FixedCanonical(d: BitSeq, pos: nat, content: seq<bv8>, unit: Unit, ub: nat)
    requires pos <= |d| && GetFixed(d, pos, unit, ub).Got?
    requires |content| == BytesOf(ub, unit) && SameUnits(content, 0, GetFixed(d, pos, unit, ub).value.bytes, ub, unit)
    ensures ub > 0 && PutFixed(d[..pos], content, ub, unit, ub) == Ok(d[..GetFixed(d, pos, unit, ub).pos])
  {
    hide SkipAlign, Align, Pack, Unpack, Padded;
    assert content[0..] == content;
    var n := BitsOf(ub, unit);
    if BytesOf(ub, unit) > 2 {
      AlignCanonical(d, pos);
      var p := SkipAlign(d, pos).pos;
      var end := p + 8 * BytesOf(ub, unit);
      UnpackPack(d[p..end]);
      FitsInBytes(ub, unit);
      assert d[p..end][..n] == d[p..p + n] && d[..p + n] == d[..p] + d[p..p + n];
    } else {
      PackedBits(d[pos..pos + n]);
      assert d[..pos + n] == d[..pos] + d[pos..pos + n];
    }
  }

  lemma PackedBits(bits: BitSeq)
    ensures |Padded(bits)| % 8 == 0 && |Padded(bits)| >= |bits|
    ensures Unpack(Pack(Padded(bits)))[..|bits|] == bits
  {
    UnpackPack(Padded(bits));
  }

  /** An accepted string is within its bounds, under the extension bit the encoder would choose, of a length the two
      sides agree on and, unless its size is fixed, in fragments as few and as short as they can be. */
  predicate StringIsEncoders(s: BitSeq, d: BitSeq, n: nat, unit: Unit, extended: bool, extensible: bool, lb: Option<Size>,
      ub: Option<Size>)
    requires |s| + |ExtensionRead(extensible, extended)| <= |d|
  {
    var r, ext := StringForm(n, extensible, lb, ub), ExtensionRead(extensible, extended);
    && r.Ok? && r.value.extension == ext && StringAgrees(n, extensible, lb, ub)
    && (r.value.sizeRange != 1 ==> FewestFragments(d, |s| + |ext|, r.value.lb, r.value.sizeRange, unit))
  }

  /** Of the strings that hold the units the decoder returns, `content` is written as the bits that were read exactly
      when these are the encoder's. */
  lemma StringCanonical(s: BitSeq, d: BitSeq, content: seq<bv8>, unit: Unit, extended: bool, extensible: bool,
      lb: Option<Size>, ub: Option<Size>)
    requires SizeUsable(extensible, lb, ub) && (extended ==> extensible) && |d| % 8 == 0
    requires s + ExtensionRead(extensible, extended) <= d
    requires
      var r := GetString(d, |s| + |ExtensionRead(extensible, extended)|, unit, extended, lb, ub);
      r.Got? && |content| == BytesOf(r.value.n, unit) && SameUnits(content, 0, r.value.bytes, r.value.n, unit)
    ensures
      var r := GetString(d, |s| + |ExtensionRead(extensible, extended)|, unit, extended, lb, ub);
      PutString(s, content, r.value.n, unit, extensible, lb, ub) == Ok(d[..r.pos])
      <==> StringIsEncoders(s, d, r.value.n, unit, extended, extensible, lb, ub)
  {
    hide PutFragments, GetFragments, PutFixed, GetFixed, BytesOf, FragmentsAgree, FewestFragments, SameUnits;
    var s0 := s + ExtensionRead(extensible, extended);
    var r := GetString(d, |s0|, unit, extended, lb, ub);
    var n := r.value.n;
    var form := StringForm(n, extensible, lb, ub);
    assert d[..|s0|] == s0;
    if form.Err? {
    } else if form.value.extension != ExtensionRead(extensible, extended) {
      if PutString(s, content, n, unit, extensible, lb, ub) == Ok(d[..r.pos]) {
        OtherStringExtension(s, d, content, n, unit, extended, extensible, lb, ub);
      }
    } else if form.value.sizeRange == 1 {
      FixedCanonical(d, |s0|, content, unit, ub.value);
    } else {
      if n < form.value.lb {
        TooShort(s0, content, n, form.value.lb, form.value.sizeRange, unit);
      } else {
        LengthedCanonical(d, |s0|, content, form.value.lb, form.value.sizeRange, unit);
      }
    }
  }

  /** Nothing written under one extension bit begins with the other. */
  lemma OtherStringExtension(s: BitSeq, d: BitSeq, content: seq<bv8>, n: nat, unit: Unit, extended: bool, extensible: bool,
      lb: Option<Size>, ub: Option<Size>)
    requires SizeUsable(extensible, lb, ub) && (extended ==> extensible) && s + ExtensionRead(extensible, extended) <= d
    requires |content| == BytesOf(n, unit) && PutString(s, content, n, unit, extensible, lb, ub).Ok?
    requires PutString(s, content, n, unit, extensible, lb, ub).value <= d
    ensures StringForm(n, extensible, lb, ub).value.extension == ExtensionRead(extensible, extended)
  {
    hide PutString, BytesOf;
    StringStarts(s, content, n, unit, extensible, lb, ub);
    var ext := StringForm(n, extensible, lb, ub).value.extension;
    if extensible {
      assert (s + ext)[|s|] == PutString(s, content, n, unit, extensible, lb, ub).value[|s|] == d[|s|] == (s + [extended])[|s|];
    }
  }
}
