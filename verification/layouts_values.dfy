/** The bits of integers, enumerations, CHOICE indices and SEQUENCE OF counts, as clauses 13, 14, 20 and 23 of X.691
    lay them out, and where the encoder departs from them. */
module ValueLayouts {
  import opened Bits
  import opened Common
  import opened BitCopy
  import opened Encoding
  import opened Decoding
  import opened IntegerRoundTrip
  import opened Layouts

  // ---------- INTEGER and ENUMERATED ----------

  /** Up to 65536 values, clause 13.2.6: the offset as a constrained whole number, and nothing for a single value. */
  lemma SmallRangeInteger(s: BitSeq, v: Int64, extensible: bool, lb: Int64, ub: Int64)
    requires lb <= v <= ub <= lb + 65535
    ensures
      var s0 := if extensible then s + [false] else s;
      PutInteger(s, v, extensible, Some(lb), Some(ub)) == if lb == ub then Ok(s0) else PutConstrained(s0, ub - lb + 1, v - lb)
  {
    hide PutConstrained, PutRawInteger;
    assert s + [] == s;
  }

  /** More values: an octet count of `w` bits and, aligned, the offset in as many octets as the value itself takes.
      The clause counts the octets of the offset, and by the range's own octets; `w` is one bit short of that for
      ranges from 65537 to 131072 and from 2^32 + 1 to 2^33. */
  lemma LargeRangeInteger(s: BitSeq, v: Int64, extensible: bool, lb: Int64, ub: Int64, n: nat, w: nat)
    requires lb <= v <= ub && 65536 <= ub - lb < 0x7fff_ffff_ffff_ffff && 1 <= n <= 8
    requires var u: int := if v < 0 then -1 - v else v; u < Pow2(8 * n) && (n > 1 ==> Pow2(8 * (n - 1)) <= u)
    requires w == if ub - lb < 0x2_0000 then 1 else if ub - lb < 0x2_0000_0000 then 2 else 3
    ensures
      var s0 := if extensible then s + [false] else s;
      PutInteger(s, v, extensible, Some(lb), Some(ub))
      == if n <= Pow2(w) && v - lb < Pow2(8 * n) then Ok(Align(s0 + FromNat(n - 1, w)) + FromNat(v - lb, 8 * n))
         else Err(OverCapacity)
  {
    hide FromNat, Align, Pow2, RawLength, Width, PutByteLen, PutInteger;
    var range := ub - lb + 1;
    CountedOctets(v, range, n);
    PutByteLenIs(range - 1);
    SmallWidths();
    IsCounted(s, v, extensible, lb, ub);
  }

  lemma IsCounted(s: BitSeq, v: Int64, extensible: bool, lb: Int64, ub: Int64)
    requires lb <= v <= ub && 65536 <= ub - lb < 0x7fff_ffff_ffff_ffff
    ensures PutInteger(s, v, extensible, Some(lb), Some(ub))
         == PutRawInteger(if extensible then s + [false] else s, v, IntForm(lb, ub - lb + 1, if extensible then [false] else []))
  {
    hide PutConstrained, PutRawInteger;
    assert s + [] == s;
  }

  lemma CountedOctets(v: Int64, range: Int64, n: nat)
    requires range > 65536 && 1 <= n <= 8
    requires var u: int := if v < 0 then -1 - v else v; u < Pow2(8 * n) && (n > 1 ==> Pow2(8 * (n - 1)) <= u)
    ensures RawLength(v, range) == n
  {
    hide Pow2, Octets;
    var u := Magnitude(v);
    UnsignedOctetsMinimal(u, range);
    assert RawLength(u, range) == RawLength(v, range);
    var m := RawLength(u, range);
    if m < n { Pow2Monotone(8 * m, 8 * (n - 1)); }
  }

  lemma SignedOctets(v: Int64, range: Int64, n: nat)
    requires range <= 0 && 1 <= n <= 8 && FitsSigned(v, n) && (n > 1 ==> !FitsSigned(v, n - 1))
    ensures RawLength(v, range) == n
  {
    hide Pow2, RawLength;
    SignedOctetsMinimal(v, range);
    var m := RawLength(v, range);
    if m < n {
      Pow2Monotone(8 * m - 1, 8 * (n - 1) - 1);
    }
  }

  /** No lower bound, clause 13.2.4: a length octet and the fewest octets of two's complement. */
  lemma UnconstrainedInteger(s: BitSeq, v: Int64, extensible: bool, ub: Option<Int64>, n: nat)
    requires 1 <= n <= 8 && -(Pow2(8 * n - 1) as int) <= v < Pow2(8 * n - 1)
    requires n > 1 ==> !(-(Pow2(8 * (n - 1) - 1) as int) <= v < Pow2(8 * (n - 1) - 1))
    ensures
      var bits := if v < 0 then v + Pow2(8 * n) else v;
      PutInteger(s, v, extensible, None, ub) == Ok(Align(s) + FromNat(n, 8) + FromNat(bits, 8 * n))
  {
    hide FromNat, Align, Pow2, RawLength;
    SignedOctets(v, -1, n);
    var bits := if v < 0 then v + Pow2(8 * n) else v;
    assert Pow2(8 * n) == 2 * Pow2(8 * n - 1) by { DoubledPower(8 * n); }
    assert v % Pow2(8 * n) == bits by { ModUnique(v, Pow2(8 * n), if v < 0 then -1 else 0, bits); }
    WholeOctets(Align(s) + FromNat(n, 8));
    assert s + [] == s;
  }

  lemma DoubledPower(n: nat)
    requires n > 0
    ensures Pow2(n) == 2 * Pow2(n - 1)
  {}

  /** A lower bound alone: the same length octet, counted for the value's own two's complement, and the offset. */
  lemma SemiConstrainedInteger(s: BitSeq, v: Int64, extensible: bool, lb: Int64, n: nat)
    requires lb <= v && 1 <= n <= 8 && -(Pow2(8 * n - 1) as int) <= v < Pow2(8 * n - 1)
    requires n > 1 ==> !(-(Pow2(8 * (n - 1) - 1) as int) <= v < Pow2(8 * (n - 1) - 1))
    ensures PutInteger(s, v, extensible, Some(lb), None)
         == if v - lb < Pow2(8 * n) then Ok(Align(s) + FromNat(n, 8) + FromNat(v - lb, 8 * n)) else Err(OverCapacity)
  {
    hide FromNat, Align, Pow2, RawLength;
    SignedOctets(v, 0, n);
    WholeOctets(Align(s) + FromNat(n, 8));
    assert s + [] == s;
  }

  /** Outside its bounds an integer is refused; above the upper one of an extensible range it is written as if it had
      no bounds, after the extension bit. */
  lemma OutOfRangeInteger(s: BitSeq, v: Int64, lb: Int64, ub: Int64)
    ensures v < lb ==> PutInteger(s, v, false, Some(lb), Some(ub)) == Err(UnderLowerBound)
    ensures v < lb ==> PutInteger(s, v, true, Some(lb), Some(ub)) == Err(UnderLowerBound)
    ensures lb <= ub < v ==> PutInteger(s, v, false, Some(lb), Some(ub)) == Err(OverUpperBound)
    ensures 0 <= lb <= ub < v ==> PutInteger(s, v, true, Some(lb), Some(ub)) == PutInteger(s + [true], v, false, None, None)
  {
    hide PutConstrained, RawLength, FromNat, Align;
    assert s + [true] + [] == s + [true];
  }

  /** An enumeration of several values is written as the value itself, not as its offset. */
  lemma EnumeratedLayout(s: BitSeq, v: Uint64, extensible: bool, lb: Int64, ub: Int64)
    requires 0 <= lb <= ub < 0x7fff_ffff_ffff_ffff && v < 0x8000_0000_0000_0000
    ensures lb <= v <= ub ==>
              PutEnumerated(s, v, extensible, Some(lb), Some(ub))
              == var s0 := if extensible then s + [false] else s;
                 if lb == ub then Ok(s0) else PutConstrained(s0, ub - lb + 1, v)
    ensures v < lb ==> PutEnumerated(s, v, extensible, Some(lb), Some(ub)) == Err(UnderLowerBound)
    ensures v > ub ==> PutEnumerated(s, v, false, Some(lb), Some(ub)) == Err(OverUpperBound)
    ensures v > ub ==> PutEnumerated(s, v, true, Some(lb), Some(ub)) == Err(UnsupportedExtension)
    ensures PutEnumerated(s, v, extensible, None, Some(ub)) == PutEnumerated(s, v, extensible, Some(lb), None) == Err(ConstraintMissing)
  {
    hide PutConstrained;
  }

  // ---------- CHOICE indices and SEQUENCE OF counts ----------

  /** Clause 23.6: the index from zero, in a range of one more than the upper bound. */
  lemma ChoiceIndexLayout(s: BitSeq, present: Int64, extensible: bool, ub: Int64)
    requires 1 <= present && 0 <= ub < 0x7fff_ffff_ffff_ffff
    ensures present - 1 <= ub || !extensible ==> PutChoiceIndex(s, present, extensible, Some(ub)) == PutConstrained(s, ub + 1, present - 1)
    ensures present - 1 > ub && extensible ==> PutChoiceIndex(s, present, extensible, Some(ub)) == Err(UnsupportedExtension)
    ensures PutChoiceIndex(s, present, extensible, None) == Err(ConstraintMissing)
  {
    hide PutConstrained;
  }

  /** Clause 20: a bounded count as a constrained whole number, none for a fixed one, and any other as one octet. */
  lemma CountLayout(s: BitSeq, n: nat, extensible: bool, lb: Size, ub: Size)
    requires lb <= ub
    ensures lb <= n <= ub < 65536 ==>
              PutCount(s, n, extensible, Some(lb), Some(ub))
              == var s0 := if extensible then s + [false] else s;
                 if lb == ub then Ok(s0) else PutConstrained(s0, ub - lb + 1, n - lb)
    ensures n < lb && ub < 65536 ==> PutCount(s, n, extensible, Some(lb), Some(ub)) == Err(UnderLowerBound)
    ensures n > ub && ub < 65536 ==> PutCount(s, n, false, Some(lb), Some(ub)) == Err(OverUpperBound)
    ensures n > ub && ub < 65536 ==>
              PutCount(s, n, true, Some(lb), Some(ub)) == Ok(Align(s + [true]) + FromNat(n % 256, 8))
    ensures lb <= n && lb < 65536 && (ub >= 65536 || n > ub) && (ub >= 65536 || extensible) ==>
              PutCount(s, n, extensible, Some(lb), if ub >= 65536 then Some(ub) else None) == Ok(Align(s) + FromNat(n % 256, 8))
    ensures PutCount(s, n, extensible, None, None) == Ok(Align(s) + FromNat(n % 256, 8))
  {
    hide PutConstrained, FromNat, Align;
    assert s + [] == s;
  }
}
