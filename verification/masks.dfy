/** A list of flags packed into a 64-bit mask, first flag highest. */
module PresenceMasks {
  import opened Bits
  import opened Common

  /** `optionalPresents & (1 << c) == 0`. */
  predicate MaskBitClear(optionalPresents: Uint64, c: nat) {
    c >= 64 || Shr(optionalPresents, c) % 2 == 0
  }

  lemma {:induction false} FromNatAt(v: nat, n: nat, k: nat)
    requires k < n
    ensures FromNat(v, n)[k] == (Shr(v, n - 1 - k) % 2 == 1)
  {
    if k == n - 1 {
      assert Shr(v, 0) == v;
    } else {
      FromNatAt(v / 2, n - 1, k);
      ShrShr(v, 1, n - 2 - k);
      assert Shr(v, 1) == v / 2;
    }
  }

  /** A mask of 64 bits keeps the last 64 flags and drops the ones before them. */
  lemma MaskKeeps(x: BitSeq, k: nat)
    requires k < |x|
    ensures FromNat(ToNat(x) % TWO_64, |x|)[k] == (x[k] && |x| - k <= 64)
    ensures ToNat(x) % TWO_64 < Pow2(|x|)
  {
    hide ToNat, FromNat, Pow2, Shr;
    var v, n := ToNat(x), |x|;
    ToNatBound(x);
    FromNatToNat(x);
    Pow2Values();
    if n <= 64 {
      Pow2Monotone(n, 64);
      ModUnique(v, TWO_64, 0, v);
    } else {
      Pow2Monotone(64, n);
      LowMask(v, n);
      FromNatSplit(v, n - 64, 64);
    }
  }

  lemma LowMask(v: nat, n: nat)
    requires n > 64
    ensures FromNat(v % TWO_64, n) == Zeros(n - 64) + FromNat(v, 64)
  {
    hide FromNat, Pow2, Shr;
    assert Pow2(64) == TWO_64 by { Pow2Values(); }
    var m := v % TWO_64;
    FromNatSplit(m, n - 64, 64);
    ShrUnique(m, 64, 0);
    FromNatZero(n - 64);
    FromNatLow(v, 64);
  }
}
