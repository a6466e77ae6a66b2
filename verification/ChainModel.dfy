/**
 The block chain shared by the first-fit and best-fit heaps (lib/heap/heap_priv.h) as a value:
 the physical sequence of blocks.  A block's address follows from the sizes before it, so a chain
 tiles its pool by construction.
 */
module ChainModel {
  import opened Wrap32

  const HDR := 16                       // HDR_SIZE on a 32-bit target
  const MIN_PAYLOAD := 8                // BLK_MIN_PAYLOAD
  const NULL := -1                      // no offset into the pool

  datatype Cell = Cell(size: nat, used: bool)

  /** Offset of the i-th header; for i == |c|, the end of the last block */
  function Addr(c: seq<Cell>, i: nat): nat
    requires i <= |c|
  {
    if i == 0 then 0 else Addr(c, i - 1) + HDR + c[i - 1].size
  }

  /** Block i gives up all but `size` bytes to a new free block behind it. */
  function SplitAt(c: seq<Cell>, i: nat, size: nat): seq<Cell>
    requires i < |c| && size + HDR <= c[i].size
  {
    c[..i] + [Cell(size, c[i].used), Cell(c[i].size - size - HDR, false)] + c[i + 1..]
  }

  /** Block i takes over its successor. */
  function MergeAt(c: seq<Cell>, i: nat): seq<Cell>
    requires i + 1 < |c|
  {
    c[..i] + [Cell(c[i].size + HDR + c[i + 1].size, c[i].used)] + c[i + 2..]
  }

  /** `heap_split` */
  function Split(c: seq<Cell>, i: nat, size: nat): seq<Cell>
    requires i < |c| && size <= c[i].size
  {
    if c[i].size - size < HDR + MIN_PAYLOAD then c else SplitAt(c, i, size)
  }

  /** `heap_coalesce`: first with the next block, then with the previous one */
  function Coalesce(c: seq<Cell>, i: nat): seq<Cell>
    requires i < |c|
  {
    var c1 := if i + 1 < |c| && !c[i + 1].used then MergeAt(c, i) else c;
    if i > 0 && !c1[i - 1].used then MergeAt(c1, i - 1) else c1
  }

  /** Allocation of `size` bytes from block i */
  function Take(c: seq<Cell>, i: nat, size: nat): (d: seq<Cell>)
    requires i < |c| && size <= c[i].size
    ensures |c| <= |d| <= |c| + 1
  {
    var c1 := Split(c, i, size);
    c1[i := c1[i].(used := true)]
  }

  /** Freeing of block i */
  function Give(c: seq<Cell>, i: nat): seq<Cell>
    requires i < |c|
  {
    Coalesce(c[i := c[i].(used := false)], i)
  }

  // ---------- the two searches ----------

  predicate Fits(b: Cell, size: nat) { !b.used && size <= b.size }

  /** Leftmost block that fits; |c| when there is none */
  function FirstFit(c: seq<Cell>, size: nat): (i: nat)
    ensures i <= |c|
    ensures i < |c| ==> Fits(c[i], size)
    ensures forall j :: 0 <= j < i ==> !Fits(c[j], size)
  {
    if c == [] || Fits(c[0], size) then 0
    else
      var i := FirstFit(c[1..], size);
      assert forall j :: 1 <= j < 1 + i ==> c[j] == c[1..][j - 1];
      1 + i
  }

  /** Index i holds the smallest fitting block, and the leftmost of those. */
  ghost predicate IsBestFit(c: seq<Cell>, size: nat, i: nat)
  {
    && i < |c| && Fits(c[i], size)
    && forall j :: 0 <= j < |c| && Fits(c[j], size) ==> c[i].size <= c[j].size && (c[i].size == c[j].size ==> i <= j)
  }

  /** The best block among the first k, as the scan of the best-fit heap keeps it; |c| when there is none */
  function BestUpTo(c: seq<Cell>, size: nat, k: nat): (b: nat)
    requires k <= |c|
    ensures b < k || b == |c|
  {
    if k == 0 then |c|
    else
      var b := BestUpTo(c, size, k - 1);
      if Fits(c[k - 1], size) && (b == |c| || c[k - 1].size < c[b].size) then k - 1 else b
  }

  function BestFit(c: seq<Cell>, size: nat): nat { BestUpTo(c, size, |c|) }

  lemma {:induction false} BestUpToIsBest(c: seq<Cell>, size: nat, k: nat)
    requires k <= |c|
    ensures var b := BestUpTo(c, size, k);
            if b == |c| then forall j :: 0 <= j < k ==> !Fits(c[j], size)
            else
              && Fits(c[b], size)
              && forall j :: 0 <= j < k && Fits(c[j], size) ==>
                   c[b].size <= c[j].size && (c[b].size == c[j].size ==> b <= j)
  {
    if k > 0 {
      BestUpToIsBest(c, size, k - 1);
    }
  }

  /** An exact fit cannot be improved on, so stopping at one loses nothing. */
  lemma {:induction false} ExactFitStays(c: seq<Cell>, size: nat, k: nat, l: nat)
    requires k <= l <= |c| && BestUpTo(c, size, k) < |c| && c[BestUpTo(c, size, k)].size == size
    ensures BestUpTo(c, size, l) == BestUpTo(c, size, k)
  {
    if k < l {
      ExactFitStays(c, size, k, l - 1);
    }
  }

  /** Best-fit finds the leftmost smallest fitting block, and fails on exactly the chains on which first-fit does. */
  lemma BestFitCorrect(c: seq<Cell>, size: nat)
    ensures BestFit(c, size) < |c| ==> IsBestFit(c, size, BestFit(c, size))
    ensures BestFit(c, size) == |c| <==> FirstFit(c, size) == |c|
    ensures BestFit(c, size) == |c| <==> forall j :: 0 <= j < |c| ==> !Fits(c[j], size)
  {
    BestUpToIsBest(c, size, |c|);
    var i := FirstFit(c, size);
    assert i < |c| ==> Fits(c[i], size);
  }

  // ---------- invariants ----------

  predicate SizeOk(b: Cell) { b.size % 8 == 0 }

  ghost predicate SizesOk(c: seq<Cell>)
  {
    forall i :: 0 <= i < |c| ==> SizeOk(c[i])
  }

  /** Blocks i and i + 1 are not both free. */
  predicate PairOk(c: seq<Cell>, i: nat)
    requires i + 1 < |c|
  {
    c[i].used || c[i + 1].used
  }

  /** Coalescing is complete. */
  ghost predicate NoFreePair(c: seq<Cell>)
  {
    forall i {:trigger PairOk(c, i)} :: 0 <= i < |c| - 1 ==> PairOk(c, i)
  }

  /** The chain of a pool of `poolSize` bytes */
  ghost predicate Inv(c: seq<Cell>, poolSize: nat)
  {
    c != [] && SizesOk(c) && NoFreePair(c) && Addr(c, |c|) == poolSize
  }

  predicate PoolOk(poolSize: nat) { poolSize % 8 == 0 && HDR + MIN_PAYLOAD <= poolSize < WORD }

  /** `heap_pool_init` */
  function Initial(poolSize: nat): seq<Cell>
    requires PoolOk(poolSize)
  {
    [Cell(poolSize - HDR, false)]
  }

  lemma InitialInv(poolSize: nat)
    requires PoolOk(poolSize)
    ensures Inv(Initial(poolSize), poolSize)
  {
    assert Addr(Initial(poolSize), 0) == 0;
  }

  // ---------- addresses under split and merge ----------

  lemma {:induction false} AddrPrefix(c: seq<Cell>, d: seq<Cell>, i: nat)
    requires i <= |c| && i <= |d| && c[..i] == d[..i]
    ensures Addr(c, i) == Addr(d, i)
  {
    if i > 0 {
      assert c[i - 1] == c[..i][i - 1] && d[i - 1] == d[..i][i - 1];
      assert c[..i - 1] == c[..i][..i - 1] && d[..i - 1] == d[..i][..i - 1];
      AddrPrefix(c, d, i - 1);
    }
  }

  /** Where the headers are after a split */
  lemma {:induction false} AddrSplit(c: seq<Cell>, i: nat, size: nat, k: nat)
    requires i < |c| && size + HDR <= c[i].size && k <= |c| + 1
    ensures Addr(SplitAt(c, i, size), k) ==
            if k <= i then Addr(c, k) else if k == i + 1 then Addr(c, i) + HDR + size else Addr(c, k - 1)
  {
    var d := SplitAt(c, i, size);
    if k <= i {
      assert c[..k] == d[..k];
      AddrPrefix(c, d, k);
    } else {
      AddrSplit(c, i, size, k - 1);
    }
  }

  /** A split is undone by a merge at the same place. */
  lemma MergeUndoesSplit(c: seq<Cell>, i: nat, size: nat)
    requires i < |c| && size + HDR <= c[i].size
    ensures MergeAt(SplitAt(c, i, size), i) == c
  {
    var d := SplitAt(c, i, size);
    assert d[i + 2..] == c[i + 1..];
    assert c == c[..i] + [c[i]] + c[i + 1..];
  }

  /** ... and the other way round. */
  lemma SplitUndoesMerge(c: seq<Cell>, i: nat)
    requires i + 1 < |c| && !c[i + 1].used
    ensures SplitAt(MergeAt(c, i), i, c[i].size) == c
  {
    var d := MergeAt(c, i);
    assert d[i + 1..] == c[i + 2..];
    assert c == c[..i] + [c[i], c[i + 1]] + c[i + 2..];
  }

  /** Where the headers are after a merge */
  lemma {:induction false} AddrMerge(c: seq<Cell>, i: nat, k: nat)
    requires i + 1 < |c| && k < |c|
    ensures Addr(MergeAt(c, i), k) == if k <= i then Addr(c, k) else Addr(c, k + 1)
  {
    var d := MergeAt(c, i);
    if k <= i {
      assert c[..k] == d[..k];
      AddrPrefix(c, d, k);
    } else {
      AddrMerge(c, i, k - 1);
    }
  }

  lemma {:induction false} AddrMonotone(c: seq<Cell>, i: nat, j: nat)
    requires i < j <= |c|
    ensures Addr(c, i) + HDR + c[i].size <= Addr(c, j)
  {
    if i + 1 < j {
      AddrMonotone(c, i, j - 1);
    }
  }

  lemma {:induction false} AddrAligned(c: seq<Cell>, i: nat)
    requires SizesOk(c) && i <= |c|
    ensures Addr(c, i) % 8 == 0
  {
    if i > 0 {
      AddrAligned(c, i - 1);
    }
  }

  // ---------- what allocation and freeing keep ----------

  lemma MarkAddr(c: seq<Cell>, i: nat, used: bool, k: nat)
    requires i < |c| && k <= |c|
    ensures Addr(c[i := c[i].(used := used)], k) == Addr(c, k)
  {
    if k > 0 {
      MarkAddr(c, i, used, k - 1);
    }
  }

  lemma SplitSizes(c: seq<Cell>, i: nat, size: nat)
    requires SizesOk(c) && i < |c| && size % 8 == 0 && size <= c[i].size
    ensures SizesOk(Split(c, i, size))
  {
    var d := Split(c, i, size);
    forall k | 0 <= k < |d|
      ensures SizeOk(d[k])
    {
      assert SizeOk(c[i]);
      if |d| > |c| && k > i + 1 {
        assert d[k] == c[k - 1];
      }
    }
  }

  lemma SumOfEights(x: nat, y: nat)
    requires x % 8 == 0 && y % 8 == 0
    ensures (x + HDR + y) % 8 == 0
  {
    var k, l := x / 8, y / 8;
    assert x + HDR + y == 8 * (k + 2 + l);
    EightTimes(k + 2 + l);
  }

  lemma EightTimes(x: int)
    ensures 8 * x % 8 == 0
  {
  }

  lemma MergeSizes(c: seq<Cell>, i: nat)
    requires SizesOk(c) && i + 1 < |c|
    ensures SizesOk(MergeAt(c, i))
  {
    var d := MergeAt(c, i);
    assert SizeOk(c[i]) && SizeOk(c[i + 1]);
    SumOfEights(c[i].size, c[i + 1].size);
    forall k | 0 <= k < |d|
      ensures SizeOk(d[k])
    {
      if k > i {
        assert d[k] == c[k + 1];
      }
    }
  }

  /** Allocation keeps the chain well formed and hands out what was asked for, less than 24 bytes over. */
  lemma TakeInv(c: seq<Cell>, i: nat, size: nat, poolSize: nat)
    requires Inv(c, poolSize) && i < |c| && Fits(c[i], size) && size % 8 == 0
    ensures Inv(Take(c, i, size), poolSize)
    ensures size <= Take(c, i, size)[i].size < size + HDR + MIN_PAYLOAD
  {
    var c1 := Split(c, i, size);
    SplitSizes(c, i, size);
    if c[i].size - size >= HDR + MIN_PAYLOAD {
      AddrSplit(c, i, size, |c| + 1);
    }
    MarkAddr(c1, i, true, |c1|);
    var d := Take(c, i, size);
    forall j | 0 <= j < |d| - 1
      ensures PairOk(d, j)
    {
      if j > i && |d| > |c| {
        assert d[j + 1] == c[j];
        assert j > i + 1 ==> d[j] == c[j - 1];
        assert PairOk(c, j - 1);
      } else if j < |c| - 1 {
        assert PairOk(c, j);
      }
    }
  }

  /** Freeing the block just allocated restores the chain exactly. */
  lemma GiveUndoesTake(c: seq<Cell>, i: nat, size: nat, poolSize: nat)
    requires Inv(c, poolSize) && i < |c| && Fits(c[i], size) && size % 8 == 0
    ensures Give(Take(c, i, size), i) == c
  {
    var d := Take(c, i, size);
    var e := d[i := d[i].(used := false)];
    assert i > 0 ==> PairOk(c, i - 1);
    if c[i].size - size >= HDR + MIN_PAYLOAD {
      assert e == SplitAt(c, i, size);
      MergeUndoesSplit(c, i, size);
    } else {
      assert e == c;
      assert i + 1 < |c| ==> PairOk(c, i);
    }
  }

  /** Every pair of neighbours is good except those around block i. */
  ghost predicate PairsExcept(c: seq<Cell>, i: nat)
  {
    forall j {:trigger PairOk(c, j)} :: 0 <= j < |c| - 1 && j != i && j + 1 != i ==> PairOk(c, j)
  }

  lemma MergePairs(c: seq<Cell>, i: nat)
    requires i + 1 < |c| && PairsExcept(c, i) && (i + 2 < |c| ==> PairOk(c, i + 1))
    ensures PairsExcept(MergeAt(c, i), i)
  {
    var d := MergeAt(c, i);
    forall j | 0 <= j < |d| - 1 && j != i && j + 1 != i
      ensures PairOk(d, j)
    {
      if j > i {
        assert d[j] == c[j + 1] && d[j + 1] == c[j + 2];
        assert PairOk(c, j + 1);
      } else {
        assert PairOk(c, j);
      }
    }
  }

  /** Freeing keeps the chain well formed: no two free neighbours remain. */
  lemma GiveInv(c: seq<Cell>, i: nat, poolSize: nat)
    requires Inv(c, poolSize) && i < |c| && c[i].used
    ensures Inv(Give(c, i), poolSize)
  {
    var e := c[i := c[i].(used := false)];
    MarkAddr(c, i, false, |c|);
    forall j | 0 <= j < |e| - 1 && j != i && j + 1 != i
      ensures PairOk(e, j)
    {
      assert PairOk(c, j);
    }
    GiveForward(e, i, poolSize);
  }

  lemma GiveForward(e: seq<Cell>, i: nat, poolSize: nat)
    requires i < |e| && !e[i].used && SizesOk(e) && PairsExcept(e, i) && Addr(e, |e|) == poolSize
    ensures Inv(Coalesce(e, i), poolSize)
  {
    if i + 1 < |e| && !e[i + 1].used {
      var c1 := MergeAt(e, i);
      assert i + 2 < |e| ==> PairOk(e, i + 1);
      AddrMerge(e, i, |e| - 1);
      MergeSizes(e, i);
      MergePairs(e, i);
      assert i + 1 < |c1| ==> c1[i + 1] == e[i + 2];
      GiveBackward(c1, i, poolSize);
    } else {
      GiveBackward(e, i, poolSize);
    }
  }

  lemma BackwardPairs(c: seq<Cell>, i: nat, j: nat)
    requires 0 < i < |c| && !c[i - 1].used && PairsExcept(c, i) && (i + 1 < |c| ==> c[i + 1].used)
    requires j + 1 < |MergeAt(c, i - 1)|
    ensures PairOk(MergeAt(c, i - 1), j)
  {
    var d := MergeAt(c, i - 1);
    if j >= i - 1 {
      assert d[j + 1] == c[j + 2];
      if j >= i {
        assert d[j] == c[j + 1];
        assert PairOk(c, j + 1);
      }
    } else {
      assert d[j] == c[j];
      assert PairOk(c, j);
    }
  }

  lemma GiveBackward(c: seq<Cell>, i: nat, poolSize: nat)
    requires i < |c| && !c[i].used && SizesOk(c) && PairsExcept(c, i) && Addr(c, |c|) == poolSize
    requires i + 1 < |c| ==> c[i + 1].used
    ensures i > 0 && !c[i - 1].used ==> Inv(MergeAt(c, i - 1), poolSize)
    ensures !(i > 0 && !c[i - 1].used) ==> Inv(c, poolSize)
  {
    if i > 0 && !c[i - 1].used {
      var d := MergeAt(c, i - 1);
      AddrMerge(c, i - 1, |c| - 1);
      MergeSizes(c, i - 1);
      forall j | 0 <= j < |d| - 1
        ensures PairOk(d, j)
      {
        BackwardPairs(c, i, j);
      }
    } else {
      forall j | 0 <= j < |c| - 1
        ensures PairOk(c, j)
      {
        assert j != i && j + 1 != i ==> PairOk(c, j);
      }
    }
  }

  // ---------- no block is too small ----------

  ghost predicate Roomy(c: seq<Cell>)
  {
    forall i :: 0 <= i < |c| ==> c[i].size >= MIN_PAYLOAD
  }

  /** Every payload has the minimum size as long as no smaller request is served ... */
  lemma TakeRoomy(c: seq<Cell>, i: nat, size: nat)
    requires Roomy(c) && i < |c| && size <= c[i].size
    ensures Roomy(Take(c, i, size)) <==> size >= MIN_PAYLOAD || c[i].size - size < HDR + MIN_PAYLOAD
  {
    var d := Take(c, i, size);
    if c[i].size - size < HDR + MIN_PAYLOAD {
      assert |d| == |c| && forall k :: 0 <= k < |c| ==> d[k].size == c[k].size;
    } else {
      assert d[i].size == size && d[i + 1].size == c[i].size - size - HDR;
      assert forall k :: 0 <= k < |d| && k != i && k != i + 1 ==> d[k] == c[if k < i then k else k - 1];
    }
  }

  /** ... and freeing makes none smaller. */
  lemma GiveRoomy(c: seq<Cell>, i: nat)
    requires Roomy(c) && i < |c|
    ensures Roomy(Give(c, i))
  {
    var e := c[i := c[i].(used := false)];
    var c1 := if i + 1 < |e| && !e[i + 1].used then MergeAt(e, i) else e;
    assert Roomy(c1) && i < |c1|;
  }

  // ---------- counters ----------

  /** Bytes in allocated blocks */
  function UsedBytes(c: seq<Cell>): nat
  {
    if c == [] then 0 else UsedBytes(c[..|c| - 1]) + if c[|c| - 1].used then c[|c| - 1].size else 0
  }

  /** Number of allocated blocks */
  function UsedCount(c: seq<Cell>): nat
  {
    if c == [] then 0 else UsedCount(c[..|c| - 1]) + if c[|c| - 1].used then 1 else 0
  }

  lemma {:induction false} UsedConcat(c: seq<Cell>, d: seq<Cell>)
    ensures UsedBytes(c + d) == UsedBytes(c) + UsedBytes(d) && UsedCount(c + d) == UsedCount(c) + UsedCount(d)
  {
    if d == [] {
      assert c + d == c;
    } else {
      assert (c + d)[..|c + d| - 1] == c + d[..|d| - 1];
      UsedConcat(c, d[..|d| - 1]);
    }
  }

  lemma UsedOne(b: Cell)
    ensures UsedBytes([b]) == (if b.used then b.size else 0) && UsedCount([b]) == (if b.used then 1 else 0)
  {
    assert [b][..0] == [];
  }

  /** Replacing a stretch of blocks changes the counters by the difference of that stretch. */
  lemma UsedReplace(a: seq<Cell>, x: seq<Cell>, y: seq<Cell>, b: seq<Cell>)
    ensures UsedBytes(a + x + b) - UsedBytes(x) == UsedBytes(a + y + b) - UsedBytes(y)
    ensures UsedCount(a + x + b) - UsedCount(x) == UsedCount(a + y + b) - UsedCount(y)
  {
    UsedConcat(a + x, b);
    UsedConcat(a, x);
    UsedConcat(a + y, b);
    UsedConcat(a, y);
  }

  lemma UsedTwo(b: Cell, d: Cell)
    ensures UsedBytes([b, d]) == UsedBytes([b]) + UsedBytes([d]) && UsedCount([b, d]) == UsedCount([b]) + UsedCount([d])
  {
    assert [b, d] == [b] + [d];
    UsedConcat([b], [d]);
  }

  lemma MarkUsed(c: seq<Cell>, i: nat, used: bool)
    requires i < |c|
    ensures var d := c[i := c[i].(used := used)];
            && UsedBytes(d) == UsedBytes(c) - UsedBytes([c[i]]) + UsedBytes([d[i]])
            && UsedCount(d) == UsedCount(c) - UsedCount([c[i]]) + UsedCount([d[i]])
  {
    hide UsedBytes, UsedCount;
    var d := c[i := c[i].(used := used)];
    assert c == c[..i] + [c[i]] + c[i + 1..] && d == c[..i] + [d[i]] + c[i + 1..];
    UsedReplace(c[..i], [c[i]], [d[i]], c[i + 1..]);
  }

  lemma MergeUsed(c: seq<Cell>, i: nat)
    requires i + 1 < |c| && !c[i].used && !c[i + 1].used
    ensures UsedBytes(MergeAt(c, i)) == UsedBytes(c) && UsedCount(MergeAt(c, i)) == UsedCount(c)
  {
    hide UsedBytes, UsedCount;
    var m := Cell(c[i].size + HDR + c[i + 1].size, c[i].used);
    assert c == c[..i] + [c[i], c[i + 1]] + c[i + 2..];
    UsedReplace(c[..i], [c[i], c[i + 1]], [m], c[i + 2..]);
    UsedTwo(c[i], c[i + 1]);
    UsedOne(c[i]);
    UsedOne(c[i + 1]);
    UsedOne(m);
  }

  /** Allocation adds the size of the block handed out to the counters, freeing takes it off. */
  lemma TakeCounters(c: seq<Cell>, i: nat, size: nat)
    requires i < |c| && Fits(c[i], size)
    ensures var d := Take(c, i, size);
            UsedBytes(d) == UsedBytes(c) + d[i].size && UsedCount(d) == UsedCount(c) + 1
  {
    var c1 := Split(c, i, size);
    if c[i].size - size >= HDR + MIN_PAYLOAD {
      MergeUsed(c1, i);
      MergeUndoesSplit(c, i, size);
    }
    MarkUsed(c1, i, true);
    UsedOne(c1[i]);
    UsedOne(Take(c, i, size)[i]);
  }

  lemma GiveCounters(c: seq<Cell>, i: nat)
    requires i < |c| && c[i].used
    ensures UsedBytes(Give(c, i)) == UsedBytes(c) - c[i].size && UsedCount(Give(c, i)) == UsedCount(c) - 1
  {
    var e := c[i := c[i].(used := false)];
    MarkUsed(c, i, false);
    UsedOne(c[i]);
    UsedOne(e[i]);
    var c1 := if i + 1 < |e| && !e[i + 1].used then MergeAt(e, i) else e;
    if i + 1 < |e| && !e[i + 1].used {
      MergeUsed(e, i);
    }
    if i > 0 && !c1[i - 1].used {
      MergeUsed(c1, i - 1);
    }
  }

  /** A chain without allocated blocks is the initial one: nothing stays fragmented. */
  lemma AllFreeIsInitial(c: seq<Cell>, poolSize: nat)
    requires Inv(c, poolSize) && PoolOk(poolSize) && UsedCount(c) == 0
    ensures c == Initial(poolSize)
  {
    FirstPair(c);
    AllFree(c);
    assert Addr(c, 0) == 0;
    assert Addr(c, 1) == HDR + c[0].size;
  }

  lemma FirstPair(c: seq<Cell>)
    requires NoFreePair(c)
    ensures |c| > 1 ==> c[0].used || c[1].used
  {
    if |c| > 1 {
      assert PairOk(c, 0);
    }
  }

  lemma {:induction false} AllFree(c: seq<Cell>)
    requires UsedCount(c) == 0
    ensures forall i :: 0 <= i < |c| ==> !c[i].used
  {
    if c != [] {
      AllFree(c[..|c| - 1]);
      assert forall i :: 0 <= i < |c| - 1 ==> c[i] == c[..|c| - 1][i];
    }
  }
}
