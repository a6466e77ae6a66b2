/**
 Free-running 32-bit indices: `size_t` arithmetic modulo 2^32, and the bit mask that turns an index
 into a buffer position.
 */
module Wrap32 {
  import opened Bits32

  const WORD := 0x1_0000_0000

  /** `IS_POWER_OF_TWO` */
  predicate IsPowerOfTwo(x: nat)
  {
    x != 0 && And(x, x - 1) == 0
  }

  /** An index that has run freely, as 32 bits keep it */
  function Wrap(x: nat): (w: nat)
    ensures w < WORD
  {
    x % WORD
  }

  /** The buffer position of an index */
  function Slot(x: nat, size: nat): (s: nat)
    requires size > 0
    ensures s < size
  {
    x % size
  }

  /** `tail - head` in 32-bit unsigned arithmetic */
  function Minus(tail: nat, head: nat): nat
    requires head < WORD
  {
    Wrap(tail + WORD - head)
  }

  // ---------- powers of two ----------

  lemma {:induction false} AndSelf(a: nat)
    ensures And(a, a) == a
  {
    if a != 0 {
      AndSelf(a / 2);
    }
  }

  /** The bit trick accepts exactly the powers of two. */
  lemma {:induction false} PowerOfTwoTest(x: nat)
    ensures IsPowerOfTwo(x) <==> exists k: nat :: x == Pow2(k)
  {
    if x == 1 {
      assert x == Pow2(0);
    } else if x > 1 && x % 2 == 0 {
      PowerOfTwoTest(x / 2);
      HalfOfPower(x);
    } else if x > 1 {
      AndSelf(x / 2);
      OddIsNoPower(x);
    }
  }

  lemma OddIsNoPower(x: nat)
    requires x > 1 && x % 2 == 1
    ensures !exists k: nat :: x == Pow2(k)
  {
    forall k: nat
      ensures x != Pow2(k)
    {
    }
  }

  lemma HalfOfPower(x: nat)
    requires x > 1 && x % 2 == 0
    ensures (exists k: nat :: x == Pow2(k)) <==> exists k: nat :: x / 2 == Pow2(k)
  {
    if k: nat :| x == Pow2(k) {
      var j := k - 1;
      assert x / 2 == Pow2(j);
    }
    if k: nat :| x / 2 == Pow2(k) {
      var j := k + 1;
      assert x == Pow2(j);
    }
  }

  /** For a power of two, masking is the remainder. */
  lemma {:induction false} MaskIsMod(x: nat, k: nat)
    ensures And(x, Pow2(k) - 1) == Slot(x, Pow2(k))
  {
    if k > 0 {
      var p := Pow2(k - 1);
      MaskIsMod(x / 2, k - 1);
      HalveMod(x, p);
      HalveOnes(p);
      AndHalves(x, 2 * p - 1);
    }
  }

  lemma AndHalves(a: nat, b: nat)
    requires b % 2 == 1
    ensures And(a, b) == And(a / 2, b / 2) * 2 + a % 2
  {
  }

  lemma HalveOnes(p: nat)
    requires p >= 1
    ensures (2 * p - 1) / 2 == p - 1 && (2 * p - 1) % 2 == 1
  {
  }

  lemma HalveMod(x: nat, p: nat)
    requires p >= 1
    ensures x % (2 * p) == (x / 2 % p) * 2 + x % 2
  {
    var q, r := x / 2 / p, x / 2 % p;
    assert x / 2 == p * q + r;
    assert x == (2 * p) * q + (2 * r + x % 2) by {
      assert 2 * (p * q) == (2 * p) * q;
    }
    Remainder(x, 2 * p, q, 2 * r + x % 2);
  }

  lemma {:induction false} PowSum(a: nat, b: nat)
    ensures Pow2(a + b) == Pow2(a) * Pow2(b)
  {
    if a > 0 {
      PowSum(a - 1, b);
    }
  }

  lemma WordIsPower()
    ensures Pow2(32) == WORD
  {
    assert Pow2(8) == 256;
    PowSum(8, 8);
    PowSum(16, 16);
  }

  /** A power of two that is a 32-bit value divides 2^32. */
  lemma SizeDividesWord(k: nat)
    requires Pow2(k) < WORD
    ensures k < 32 && Pow2(k) * Pow2(32 - k) == WORD
  {
    WordIsPower();
    if k >= 32 {
      PowGrows(32, k);
    } else {
      PowSum(k, 32 - k);
    }
  }

  // ---------- remainders ----------

  lemma MulAtLeast(m: nat, d: int)
    ensures d >= 1 ==> m * d >= m
    ensures d <= -1 ==> m * d + m <= 0
  {
  }

  lemma Remainder(x: int, m: nat, q: int, r: nat)
    requires r < m && x == m * q + r
    ensures x % m == r && x / m == q
  {
    assert m * (x / m - q) == r - x % m by {
      assert x == m * (x / m) + x % m;
      assert m * (x / m - q) == m * (x / m) - m * q;
    }
    MulAtLeast(m, x / m - q);
  }

  /** Wrapping an index at 2^32 does not change its position in the buffer, because the size divides 2^32. */
  lemma WrapKeepsSlot(x: nat, size: nat, n: nat)
    requires size > 0 && n > 0 && size * n == WORD
    ensures Slot(Wrap(x), size) == Slot(x, size)
  {
    var q, r := x / WORD, x % WORD;
    var q', r' := r / size, r % size;
    assert x == WORD * q + r;
    assert r == size * q' + r';
    assert x == size * (n * q + q') + r' by {
      assert size * (n * q + q') == size * n * q + size * q';
    }
    Remainder(x, size, n * q + q', r');
  }

  /** Two indices less than a buffer apart have different positions. */
  lemma SlotsApart(i: nat, j: nat, size: nat)
    requires size > 0 && i < j < i + size
    ensures Slot(i, size) != Slot(j, size)
  {
    assert i == size * (i / size) + i % size;
    assert j == size * (j / size) + j % size;
    if i % size == j % size {
      assert j - i == size * (j / size - i / size);
      MulAtLeast(size, j / size - i / size);
    }
  }

  /** Where the index `j` further on goes: up to the end of the buffer, then from its start */
  lemma AddSlot(x: nat, j: nat, size: nat)
    requires size > 0 && j < size
    ensures Slot(x + j, size) == var first := Slot(x, size); if j < size - first then first + j else j - (size - first)
  {
    var q, r := x / size, x % size;
    assert x == size * q + r;
    if j < size - r {
      Remainder(x + j, size, q, r + j);
    } else {
      assert size * (q + 1) == size * q + size;
      Remainder(x + j, size, q + 1, j - (size - r));
    }
  }

  /** The 32-bit difference of two wrapped counters is their true difference. */
  lemma MinusExact(w: nat, d: nat)
    requires d <= w < d + WORD
    ensures Minus(Wrap(w), Wrap(d)) == w - d
  {
  }

  lemma WrapEqual(w: nat, d: nat)
    requires d <= w < d + WORD
    ensures Wrap(w) == Wrap(d) <==> w == d
  {
  }

  lemma WrapAdd(x: nat, n: nat)
    ensures Wrap(Wrap(x) + n) == Wrap(x + n)
  {
  }
}
