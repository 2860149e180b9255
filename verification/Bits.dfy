/**
 64-bit flag words read as sets of bit positions, and vectors of such words read as sets of pages.

 The words stay real bit-vectors: the masks below are the shift expressions the repository writes, and each
 function's contract says which positions they select. Everything else in this project reasons about positions:
 the modules that use a mask hide its definition and rely on its contract, so that bit-vector arithmetic stays in
 the few short proofs of this file.
 */
module Bits {

  const ALL: bv64 := 0xFFFF_FFFF_FFFF_FFFF

  /** A bit position as the six-bit shift amount `x & 63`. */
  function Ix(k: nat): bv6
    requires k < 64
  {
    k as bv6
  }

  predicate At(w: bv64, k: bv6) {
    (w >> k) & 1 == 1
  }

  predicate Bit(w: bv64, k: nat)
    requires k < 64
  {
    At(w, Ix(k))
  }

  lemma IxBack(i: nat)
    requires i < 64
    ensures Ix(i) as int == i
  {}

  lemma ShiftOrder(a: bv6, b: bv6)
    ensures a <= b <==> a as int <= b as int
  {}

  lemma ShiftFlip(a: bv6)
    ensures (63 - a) as int == 63 - a as int
  {}

  lemma ShiftInjective(a: bv6, b: bv6)
    requires a as int == b as int
    ensures a == b
  {}

  lemma IxOrder(i: nat, j: nat)
    requires i < 64 && j < 64
    ensures i <= j <==> Ix(i) <= Ix(j)
  {
    IxBack(i);
    IxBack(j);
    ShiftOrder(Ix(i), Ix(j));
  }

  lemma IxFlip(i: nat)
    requires i < 64
    ensures Ix(63 - i) == 63 - Ix(i)
  {
    IxBack(i);
    IxBack(63 - i);
    ShiftFlip(Ix(i));
    ShiftInjective(Ix(63 - i), 63 - Ix(i));
  }

  /** Every shift amount is some position. */
  function Un(k: bv6): (i: nat)
    ensures i < 64 && Ix(i) == k
  {
    var i := k as nat;
    IxBack(i);
    ShiftInjective(Ix(i), k);
    i
  }

  // ----- word operations -----

  lemma AndAt(a: bv64, b: bv64, k: bv6)
    ensures At(a & b, k) <==> At(a, k) && At(b, k)
  {}

  lemma OrAt(a: bv64, b: bv64, k: bv6)
    ensures At(a | b, k) <==> At(a, k) || At(b, k)
  {}

  lemma NotAt(a: bv64, k: bv6)
    ensures At(!a, k) <==> !At(a, k)
  {}

  lemma FromAt(f: bv6, k: bv6)
    ensures At(ALL << f, k) <==> f <= k
  {}

  lemma UpToAt(l: bv6, k: bv6)
    ensures At(ALL >> (63 - l), k) <==> k <= l
  {}

  lemma BelowAt(f: bv6, k: bv6)
    ensures At((1 << f) - 1, k) <==> k < f
  {}

  function And(a: bv64, b: bv64): (r: bv64)
    ensures forall k | 0 <= k < 64 :: Bit(r, k) <==> Bit(a, k) && Bit(b, k)
  {
    forall k | 0 <= k < 64 { AndAt(a, b, Ix(k)); }
    a & b
  }

  function Or(a: bv64, b: bv64): (r: bv64)
    ensures forall k | 0 <= k < 64 :: Bit(r, k) <==> Bit(a, k) || Bit(b, k)
  {
    forall k | 0 <= k < 64 { OrAt(a, b, Ix(k)); }
    a | b
  }

  function Not(a: bv64): (r: bv64)
    ensures forall k | 0 <= k < 64 :: Bit(r, k) <==> !Bit(a, k)
  {
    forall k | 0 <= k < 64 { NotAt(a, Ix(k)); }
    !a
  }

  /** `UINT64_MAX << f`. */
  function MaskFrom(f: nat): (r: bv64)
    requires f < 64
    ensures forall k | 0 <= k < 64 :: Bit(r, k) <==> f <= k
  {
    var r := ALL << Ix(f);
    forall k | 0 <= k < 64
      ensures Bit(r, k) <==> f <= k
    {
      FromAt(Ix(f), Ix(k));
      IxOrder(f, k);
    }
    r
  }

  /** `UINT64_MAX >> (63 - l)`. */
  function MaskUpTo(l: nat): (r: bv64)
    requires l < 64
    ensures forall k | 0 <= k < 64 :: Bit(r, k) <==> k <= l
  {
    IxFlip(l);
    var r := ALL >> Ix(63 - l);
    forall k | 0 <= k < 64
      ensures Bit(r, k) <==> k <= l
    {
      UpToAt(Ix(l), Ix(k));
      IxOrder(k, l);
    }
    r
  }

  /** `(uint64_t(1) << f) - 1`. */
  function MaskBelow(f: nat): (r: bv64)
    requires f < 64
    ensures forall k | 0 <= k < 64 :: Bit(r, k) <==> k < f
  {
    var r := (1 << Ix(f)) - 1;
    forall k | 0 <= k < 64
      ensures Bit(r, k) <==> k < f
    {
      BelowAt(Ix(f), Ix(k));
      IxOrder(f, k);
    }
    r
  }

  /** `(uint64_t(1) << (l + 1)) - 1`, used only when `l` is not 63. */
  function MaskThrough(l: nat): (r: bv64)
    requires l < 63
    ensures forall k | 0 <= k < 64 :: Bit(r, k) <==> k <= l
  {
    MaskBelow(l + 1)
  }

  lemma AllBits()
    ensures forall k | 0 <= k < 64 :: Bit(ALL, k)
  {
    forall k | 0 <= k < 64 { AllAt(Ix(k)); }
  }

  lemma AllAt(k: bv6)
    ensures At(ALL, k)
  {}

  lemma ZeroBits()
    ensures forall k | 0 <= k < 64 :: !Bit(0, k)
  {
    forall k | 0 <= k < 64 { ZeroAt(Ix(k)); }
  }

  lemma ZeroAt(k: bv6)
    ensures !At(0, k)
  {}

  /** A word with no set bit is zero, and two words with the same bits are one. */
  lemma WordExt(a: bv64, b: bv64)
    requires forall k | 0 <= k < 64 :: Bit(a, k) == Bit(b, k)
    ensures a == b
  {
    if a != b {
      var k := LowestAt(a ^ b);
      assert Bit(a, Un(k)) == Bit(b, Un(k));
      XorAt(a, b, k);
    }
  }

  lemma XorAt(a: bv64, b: bv64, k: bv6)
    ensures At(a ^ b, k) <==> At(a, k) != At(b, k)
  {}

  lemma LowestAt(w: bv64) returns (k: bv6)
    requires w != 0
    ensures At(w, k)
  {
    k := 63;
    while k != 0 && !At(w, k)
      invariant w << (63 - k) != 0
      decreases k
    {
      ShiftOff(w, k);
      k := k - 1;
    }
    LastOne(w);
  }

  lemma ShiftOff(w: bv64, k: bv6)
    requires k != 0 && w << (63 - k) != 0 && !At(w, k)
    ensures w << (63 - (k - 1)) != 0 && k - 1 < k
  {}

  lemma LastOne(w: bv64)
    ensures w << 63 != 0 ==> At(w, 0)
  {}

  // ----- bit scans -----

  /** `bit_scan_forward` from a position: the lowest set bit, or 64 when there is none. */
  function ScanFrom(w: bv64, from: nat): (r: nat)
    requires from <= 64
    ensures from <= r <= 64
    ensures r < 64 ==> Bit(w, r)
    ensures forall k | from <= k < r :: !Bit(w, k)
    decreases 64 - from
  {
    if from == 64 then 64
    else if Bit(w, from) then from
    else ScanFrom(w, from + 1)
  }

  /** `64 - lzcnt(w)`, looking below a position: one past the highest set bit, or 0. */
  function TopBelow(w: bv64, below: nat): (r: nat)
    requires below <= 64
    ensures r <= below
    ensures r > 0 ==> Bit(w, r - 1)
    ensures forall k | r <= k < below :: !Bit(w, k)
  {
    if below == 0 then 0
    else if Bit(w, below - 1) then below
    else TopBelow(w, below - 1)
  }

  // ----- vectors of words -----

  /** Page `p` is flagged in a vector of 64-page words. */
  predicate Has(words: seq<bv64>, p: nat)
    requires p < 64 * |words|
  {
    Bit(words[p / 64], p % 64)
  }

  /** The mask every span loop builds for one word of the inclusive page span. */
  function SpanMask(word: nat, first: nat, last: nat): (r: bv64)
    requires first <= last && first / 64 <= word <= last / 64
    ensures forall k | 0 <= k < 64 :: Bit(r, k) <==> first <= 64 * word + k <= last
  {
    AllBits();
    var low := if word == first / 64 then And(ALL, MaskFrom(first % 64)) else ALL;
    if word == last / 64 then And(low, MaskUpTo(last % 64)) else low
  }
}
