/**
 Bit operations on machine words, as the allocator's bitmaps and the scheduler's
 ready mask use them.  A word is a natural number and each operation works on its
 binary digits, lowest first.
 */
module Bits32 {

  /** `1U << n` */
  function Pow2(n: nat): (p: nat)
    ensures p >= 1
  {
    if n == 0 then 1 else 2 * Pow2(n - 1)
  }

  /** `a & b` */
  function And(a: nat, b: nat): nat
  {
    if a == 0 || b == 0 then 0 else And(a / 2, b / 2) * 2 + (if a % 2 == 1 && b % 2 == 1 then 1 else 0)
  }

  /** `w & (1U << i)` is non-zero */
  predicate Bit(w: nat, i: nat)
  {
    if i == 0 then w % 2 == 1 else Bit(w / 2, i - 1)
  }

  /** `w | (1U << i)` */
  function SetBit(w: nat, i: nat): nat
  {
    if i == 0 then w / 2 * 2 + 1 else SetBit(w / 2, i - 1) * 2 + w % 2
  }

  /** `w & ~(1U << i)` */
  function ClearBit(w: nat, i: nat): nat
  {
    if i == 0 then w / 2 * 2 else ClearBit(w / 2, i - 1) * 2 + w % 2
  }

  /** `w & (~0U << k)` */
  function BitsFrom(w: nat, k: nat): nat
  {
    if k == 0 then w else BitsFrom(w / 2, k - 1) * 2
  }

  /** `__builtin_ctz(w)` */
  function Ctz(w: nat): nat
    requires w != 0
  {
    if w % 2 == 1 then 0 else 1 + Ctz(w / 2)
  }

  /** `31 - __builtin_clz(w)` */
  function HighestBit(w: nat): nat
    requires w != 0
  {
    if w == 1 then 0 else 1 + HighestBit(w / 2)
  }

  lemma {:induction false} PowGrows(a: nat, b: nat)
    requires a <= b
    ensures Pow2(a) <= Pow2(b)
  {
    if a < b {
      PowGrows(a, b - 1);
    }
  }

  lemma {:induction false} BitOfSet(w: nat, i: nat, j: nat)
    ensures Bit(SetBit(w, i), j) <==> Bit(w, j) || i == j
  {
    if i > 0 && j > 0 {
      BitOfSet(w / 2, i - 1, j - 1);
    }
  }

  lemma {:induction false} BitOfClear(w: nat, i: nat, j: nat)
    ensures Bit(ClearBit(w, i), j) <==> Bit(w, j) && i != j
  {
    if i > 0 && j > 0 {
      BitOfClear(w / 2, i - 1, j - 1);
    }
  }

  lemma {:induction false} BitOfFrom(w: nat, k: nat, j: nat)
    ensures Bit(BitsFrom(w, k), j) <==> Bit(w, j) && k <= j
  {
    if k > 0 && j > 0 {
      BitOfFrom(w / 2, k - 1, j - 1);
    }
  }

  /** A non-zero word has a lowest set bit, and `Ctz` is it. */
  lemma {:induction false} CtzIsLowest(w: nat)
    requires w != 0
    ensures Bit(w, Ctz(w))
    ensures forall j: nat :: j < Ctz(w) ==> !Bit(w, j)
  {
    if w % 2 == 0 {
      CtzIsLowest(w / 2);
      forall j: nat | j < Ctz(w)
        ensures !Bit(w, j)
      {
        if j > 0 {
          assert !Bit(w / 2, j - 1);
        }
      }
    }
  }

  /** A non-zero word has a highest set bit, and `HighestBit` is it. */
  lemma {:induction false} HighestBitIsHighest(w: nat)
    requires w != 0
    ensures Bit(w, HighestBit(w))
    ensures forall j: nat :: HighestBit(w) < j ==> !Bit(w, j)
  {
    if w == 1 {
      forall j: nat | 0 < j
        ensures !Bit(w, j)
      {
        ZeroHasNoBits(j - 1);
      }
    } else {
      HighestBitIsHighest(w / 2);
      forall j: nat | HighestBit(w) < j
        ensures !Bit(w, j)
      {
        assert !Bit(w / 2, j - 1);
      }
    }
  }

  lemma {:induction false} ZeroHasNoBits(j: nat)
    ensures !Bit(0, j)
  {
    if j > 0 {
      ZeroHasNoBits(j - 1);
    }
  }
}
