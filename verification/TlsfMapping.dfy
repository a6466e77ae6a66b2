/**
 The size-class arithmetic of the TLSF allocator (lib/heap/heap_tlsf.c).

 `Mapping` and `RoundUp` are the allocator's own shift-and-mask computations.
 `Class` and `Bucket` define the same two notions by halving; the first group of
 lemmas shows that they agree, the second derives from the halving form what makes
 the bitmap search sound and complete.
 */
module TlsfMapping {
  import opened Bits32
  import opened Wrap32

  const FL_COUNT := 20
  const SL_COUNT := 8
  const CLASSES := 160

  /** `mapping`: first- and second-level index of a size */
  function Mapping(size: nat): (int, int)
  {
    if size < 64 then (0, size / 8)
    else
      SixBits(size);
      var fl := HighestBit(size);
      (fl - 3, size / Pow2(fl - 3) - 8)
  }

  /** `round_up_size`, in 32-bit arithmetic */
  function RoundUp(size: nat): nat
  {
    if size < 64 then size
    else
      SixBits(size);
      Rounded(size, HighestBit(size)) % WORD
  }

  /** `n` rounded up to a multiple of 2^(f-3) */
  function Rounded(n: nat, f: nat): nat
    requires f >= 3
  {
    (n + Pow2(f - 3) - 1) / Pow2(f - 3) * Pow2(f - 3)
  }

  /** Position of a size's list in `free[20][8]`, counted row by row */
  function Class(size: nat): nat
  {
    if size < 64 then size / 8
    else if size < 128 then 16 + size / 8
    else 8 + Class(size / 2)
  }

  /** Smallest class boundary not below a size */
  function Bucket(size: nat): nat
  {
    if size < 64 then size
    else if size <= 128 then (size + 7) / 8 * 8
    else 2 * Bucket((size + 1) / 2)
  }

  // ---------- the code's arithmetic is the halving definition ----------

  lemma {:induction false} HighestBitBounds(n: nat)
    requires n != 0
    ensures Pow2(HighestBit(n)) <= n < 2 * Pow2(HighestBit(n))
  {
    if n > 1 {
      HighestBitBounds(n / 2);
    }
  }

  lemma {:induction false} HighestBitMonotone(m: nat, n: nat)
    requires 0 < m <= n
    ensures HighestBit(m) <= HighestBit(n)
  {
    if m > 1 {
      HighestBitMonotone(m / 2, n / 2);
    }
  }

  lemma SixBits(size: nat)
    requires size >= 64
    ensures HighestBit(size) >= 6
    ensures size < 128 ==> HighestBit(size) == 6
    ensures Pow2(3) == 8
  {
    HighestBitMonotone(64, size);
    assert HighestBit(64) == 6 && HighestBit(127) == 6;
    if size < 128 {
      HighestBitMonotone(size, 127);
    }
    assert Pow2(3) == 2 * Pow2(2) == 4 * Pow2(1) == 8 * Pow2(0);
  }

  lemma MulCancel(a: int, b: int, p: nat)
    requires a * p < b * p
    ensures a < b
  {
  }

  lemma DivMul(n: nat, p: nat)
    requires p > 0
    ensures n / p * p <= n < (n / p + 1) * p
  {
    assert n == n / p * p + n % p;
    assert (n / p + 1) * p == n / p * p + p;
  }

  lemma DivBounds(n: nat, p: nat, lo: nat, hi: nat)
    requires p > 0 && lo * p <= n < hi * p
    ensures lo <= n / p < hi
  {
    DivMul(n, p);
    MulCancel(n / p, hi, p);
    MulCancel(lo, n / p + 1, p);
  }

  lemma DivTwice(n: nat, p: nat)
    requires p > 0
    ensures n / (2 * p) == n / 2 / p
  {
    var q := n / 2 / p;
    DivMul(n / 2, p);
    assert q * (2 * p) == 2 * (q * p);
    assert (q + 1) * (2 * p) == 2 * ((q + 1) * p);
    DivBounds(n, 2 * p, q, q + 1);
  }

  /** Row and column of `mapping`, read row by row, are the class. */
  lemma {:induction false} MappingIsClass(size: nat)
    ensures var (fl, sl) := Mapping(size); 0 <= fl && 0 <= sl < 8 && 8 * fl + sl == Class(size)
  {
    if size >= 64 {
      SixBits(size);
      if size >= 128 {
        MappingIsClass(size / 2);
        SixBits(size / 2);
        var fl := HighestBit(size);
        assert Pow2(fl - 3) == 2 * Pow2(fl - 4);
        DivTwice(size, Pow2(fl - 4));
      }
    }
  }

  lemma RoundedHalf(n: nat, f: nat)
    requires f >= 7
    ensures Rounded(n, f) == 2 * Rounded((n + 1) / 2, f - 1)
  {
    var p := Pow2(f - 4);
    assert Pow2(f - 3) == 2 * p;
    DivTwice(n + 2 * p - 1, p);
    assert (n + 2 * p - 1) / 2 == (n + 1) / 2 + p - 1;
    var k := (n + 2 * p - 1) / (2 * p);
    assert k * (2 * p) == 2 * (k * p);
  }

  lemma {:induction false} RoundedIsBucket(n: nat, f: nat)
    requires f >= 6 && Pow2(f) <= n <= 2 * Pow2(f)
    ensures Rounded(n, f) == Bucket(n)
  {
    assert Pow2(6) == 2 * Pow2(5) == 4 * Pow2(4) == 8 * Pow2(3) && Pow2(3) == 8 by {
      SixBits(64);
      assert Pow2(4) == 16;
    }
    if f > 6 {
      RoundedHalf(n, f);
      assert Pow2(f) == 2 * Pow2(f - 1);
      RoundedIsBucket((n + 1) / 2, f - 1);
      PowGrows(6, f - 1);
    }
  }

  lemma Powers()
    ensures Pow2(19) == 0x8_0000 && Pow2(22) == 0x40_0000 && Pow2(28) == 0x1000_0000 && Pow2(31) == 0x8000_0000
  {
    assert Pow2(5) == 0x20;
    assert Pow2(10) == 0x20 * Pow2(5);
    assert Pow2(15) == 0x20 * Pow2(10);
    assert Pow2(19) == 0x10 * Pow2(15);
    assert Pow2(22) == 8 * Pow2(19);
    assert Pow2(28) == 0x40 * Pow2(22);
    assert Pow2(31) == 8 * Pow2(28);
  }

  lemma {:induction false} HighestBitIs(n: nat, f: nat)
    requires Pow2(f) <= n < 2 * Pow2(f)
    ensures HighestBit(n) == f
  {
    if f > 0 {
      HighestBitIs(n / 2, f - 1);
    }
  }

  /** The boundaries in the top octave of 32-bit sizes, and in that of the table */
  lemma TopBuckets(size: nat)
    ensures 0x8000_0000 <= size < WORD ==>
              HighestBit(size) == 31 && Bucket(size) == (size + 0xFFF_FFFF) / 0x1000_0000 * 0x1000_0000
    ensures 0x40_0000 <= size < 0x80_0000 ==> Bucket(size) == (size + 0x7_FFFF) / 0x8_0000 * 0x8_0000
  {
    hide Pow2, Bucket, HighestBit;
    Powers();
    if 0x8000_0000 <= size < WORD {
      HighestBitIs(size, 31);
      RoundedIsBucket(size, 31);
    } else if 0x40_0000 <= size < 0x80_0000 {
      RoundedIsBucket(size, 22);
    }
  }

  /** `round_up_size` computes the next class boundary, unless that is 2^32: then the result is 0. */
  lemma RoundUpIsBucket(size: nat)
    requires size < WORD
    ensures RoundUp(size) == if size <= 0xF000_0000 then Bucket(size) else 0
  {
    hide Pow2, HighestBit, Rounded, Bucket;
    if size < 64 {
      SmallBucket(size);
    } else {
      SixBits(size);
      HighestBitBounds(size);
      RoundedIsBucket(size, HighestBit(size));
      BucketWraps(size);
    }
  }

  lemma SmallBucket(size: nat)
    requires size < 64
    ensures Bucket(size) == size
  {
  }

  lemma BucketWraps(size: nat)
    requires 64 <= size < WORD
    ensures Bucket(size) % WORD == if size <= 0xF000_0000 then Bucket(size) else 0
  {
    hide Bucket, HighestBit;
    if size >= 0x8000_0000 {
      TopBuckets(size);
    } else {
      BucketBounds(size);
    }
  }

  /** The boundary is inside the table exactly up to the last one, 15 / 16 of 2^23. */
  lemma BucketInTable(size: nat)
    ensures Bucket(size) < 0x80_0000 <==> size <= 0x78_0000
  {
    hide Pow2, HighestBit;
    BucketBounds(size);
    TopBuckets(size);
  }

  // ---------- what the search relies on ----------

  /** The two sides of the first row boundaries */
  lemma {:induction false} ClassRows(size: nat)
    ensures size < 64 ==> Class(size) <= 7
    ensures 64 <= size < 128 ==> 24 <= Class(size) <= 31
    ensures size >= 128 ==> Class(size) >= 32
  {
    if size >= 128 {
      ClassRows(size / 2);
    }
  }

  /** Larger sizes never map to an earlier list. */
  lemma {:induction false} ClassMonotone(m: nat, n: nat)
    requires m <= n
    ensures Class(m) <= Class(n)
  {
    ClassRows(m);
    ClassRows(n);
    if m >= 128 {
      ClassMonotone(m / 2, n / 2);
    }
  }

  lemma {:induction false} ClassBelow(size: nat, k: nat)
    requires size < 128 * Pow2(k)
    ensures Class(size) < 32 + 8 * k
  {
    if size >= 128 {
      ClassBelow(size / 2, k - 1);
    }
  }

  /** Exactly the sizes below 2^23 have a class inside the 20 by 8 table. */
  lemma ClassInTable(size: nat)
    ensures Class(size) < CLASSES <==> size < 0x80_0000
  {
    if size < 0x80_0000 {
      assert Pow2(16) == 0x1_0000 by {
        assert Pow2(5) == 0x20;
        assert Pow2(10) == 0x20 * Pow2(5);
        assert Pow2(15) == 0x20 * Pow2(10);
      }
      ClassBelow(size, 16);
    } else {
      FirstOutside();
      ClassMonotone(0x80_0000, size);
    }
  }

  lemma FirstOutside()
    ensures Class(0x80_0000) == CLASSES
  {
    ClassOfPower(17);
    assert Pow2(17) == 0x2_0000 by {
      assert Pow2(5) == 0x20;
      assert Pow2(10) == 0x20 * Pow2(5);
      assert Pow2(15) == 0x20 * Pow2(10);
    }
  }

  /** Each doubling is a row of eight classes further. */
  lemma {:induction false} ClassOfPower(k: nat)
    ensures Class(64 * Pow2(k)) == 24 + 8 * k
  {
    if k > 0 {
      ClassOfPower(k - 1);
      assert 64 * Pow2(k) == 2 * (64 * Pow2(k - 1));
    }
  }

  lemma DoubledGranule(size: nat, half: nat, bucket: nat, g: nat)
    requires size > 128 && half == (size + 1) / 2
    requires half <= bucket < half + g && bucket % 8 == 0
    requires if half == 64 then g == 8 else 8 * g < half
    ensures size <= 2 * bucket < size + 2 * g && 2 * bucket % 8 == 0 && 8 * (2 * g) < size
  {
    assert bucket == 8 * (bucket / 8);
  }

  /** `g` is the distance between the class boundaries around a size. */
  lemma {:induction false} BucketGranule(size: nat) returns (g: nat)
    requires size >= 64
    ensures size <= Bucket(size) < size + g && Bucket(size) % 8 == 0
    ensures if size == 64 then g == 8 else 8 * g < size
  {
    if size <= 128 {
      g := 8;
    } else {
      var half := (size + 1) / 2;
      g := BucketGranule(half);
      DoubledGranule(size, half, Bucket(half), g);
      g := 2 * g;
    }
  }

  /** The boundary is not below the size and wastes less than an eighth of it. */
  lemma BucketBounds(size: nat)
    ensures size <= Bucket(size)
    ensures size >= 64 ==> Bucket(size) < size + size / 8 && Bucket(size) % 8 == 0
  {
    if size >= 64 {
      var g := BucketGranule(size);
    }
  }

  /** A boundary is the smallest size of its class: whatever lies in that class or a later one is as large. */
  lemma {:induction false} BucketIsClassMinimum(size: nat, n: nat)
    requires size % 8 == 0 || size >= 64
    requires Class(n) >= Class(Bucket(size))
    ensures n >= Bucket(size)
  {
    ClassRows(n);
    ClassRows(Bucket(size));
    if size > 128 {
      var half := (size + 1) / 2;
      BucketBounds(half);
      assert Bucket(size) == 2 * Bucket(half) && Class(Bucket(size)) == 8 + Class(Bucket(half));
      assert n >= 128 ==> Class(n) == 8 + Class(n / 2);
      BucketIsClassMinimum(half, n / 2);
    }
  }
}
