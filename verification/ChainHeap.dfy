/**
 The first-fit and best-fit heaps as lib/heap/heap_priv.h, heap_first_fit.c and heap_best_fit.c
 implement them: doubly linked headers at offsets into the pool, edited in place.  The ghost field
 `chain` is the block sequence they represent.
 */
module ChainHeap {
  import opened HeapSizes
  import opened ChainModel
  import opened ChainRuns

  /** `hdr_t`; `used` stands for the two magic values. */
  datatype Header = Header(prev: int, next: int, size: nat, used: bool)

  type Pool = map<int, Header>

  function PrevOf(c: seq<Cell>, i: nat): int
    requires i < |c|
  {
    if i == 0 then NULL else Addr(c, i - 1)
  }

  function NextOf(c: seq<Cell>, i: nat): int
    requires i < |c|
  {
    if i + 1 == |c| then NULL else Addr(c, i + 1)
  }

  ghost predicate HeaderAt(hdrs: Pool, c: seq<Cell>, i: nat)
    requires i < |c|
  {
    Addr(c, i) in hdrs && hdrs[Addr(c, i)] == Header(PrevOf(c, i), NextOf(c, i), c[i].size, c[i].used)
  }

  /** The linked headers are the chain, in both directions. */
  ghost predicate Rep(hdrs: Pool, c: seq<Cell>)
  {
    forall i {:trigger HeaderAt(hdrs, c, i)} :: 0 <= i < |c| ==> HeaderAt(hdrs, c, i)
  }

  /** The writes of `heap_split` */
  function SplitHeaders(hdrs: Pool, b: int, size: nat): Pool
    requires b in hdrs && size + HDR <= hdrs[b].size && (hdrs[b].next != NULL ==> hdrs[b].next in hdrs)
  {
    var nxt := b + HDR + size;
    var after := hdrs[b].next;
    var h := hdrs[nxt := Header(b, after, hdrs[b].size - size - HDR, false)];
    var h' := if after == NULL then h else h[after := h[after].(prev := nxt)];
    if b in h' then h'[b := h'[b].(next := nxt, size := size)] else h'
  }

  lemma SplitRep(hdrs: Pool, c: seq<Cell>, i: nat, size: nat)
    requires Rep(hdrs, c) && i < |c| && !c[i].used && size + HDR <= c[i].size
    ensures HeaderAt(hdrs, c, i) && (i + 1 < |c| ==> HeaderAt(hdrs, c, i + 1))
    ensures Rep(SplitHeaders(hdrs, Addr(c, i), size), SplitAt(c, i, size))
  {
    var d := SplitAt(c, i, size);
    assert HeaderAt(hdrs, c, i) && (i + 1 < |c| ==> HeaderAt(hdrs, c, i + 1));
    var h' := SplitHeaders(hdrs, Addr(c, i), size);
    forall k | 0 <= k < |d|
      ensures HeaderAt(h', d, k)
    {
      SplitRepAt(hdrs, c, i, size, k);
    }
  }

  lemma SplitRepAt(hdrs: Pool, c: seq<Cell>, i: nat, size: nat, k: nat)
    requires Rep(hdrs, c) && i < |c| && !c[i].used && size + HDR <= c[i].size && k <= |c|
    requires HeaderAt(hdrs, c, i) && (i + 1 < |c| ==> HeaderAt(hdrs, c, i + 1))
    ensures HeaderAt(SplitHeaders(hdrs, Addr(c, i), size), SplitAt(c, i, size), k)
  {
    hide Addr;
    var d := SplitAt(c, i, size);
    AddrSplit(c, i, size, k);
    if k > 0 {
      AddrSplit(c, i, size, k - 1);
    }
    if k < |c| {
      AddrSplit(c, i, size, k + 1);
    }
    AddrMonotone(c, i, i + 1);
    if k != i + 1 {
      var j := if k <= i then k else k - 1;
      assert d[k].used == c[j].used && (k != i ==> d[k] == c[j]);
      assert HeaderAt(hdrs, c, j);
      if j < i {
        AddrMonotone(c, j, i);
      } else if i + 1 < j {
        AddrMonotone(c, i + 1, j);
      }
    }
  }

  /** The writes of a merge in `heap_coalesce`: `b` takes over its successor. */
  function MergeHeaders(hdrs: Pool, b: int): Pool
    requires b in hdrs && hdrs[b].next in hdrs
  {
    var nxt := hdrs[b].next;
    var after := hdrs[nxt].next;
    var h := hdrs[b := hdrs[b].(size := hdrs[b].size + HDR + hdrs[nxt].size, next := after)];
    if after == NULL || after !in h then h else h[after := h[after].(prev := b)]
  }

  lemma MergeRep(hdrs: Pool, c: seq<Cell>, i: nat)
    requires Rep(hdrs, c) && i + 1 < |c|
    ensures HeaderAt(hdrs, c, i) && HeaderAt(hdrs, c, i + 1)
    ensures Rep(MergeHeaders(hdrs, Addr(c, i)), MergeAt(c, i))
  {
    var d := MergeAt(c, i);
    assert HeaderAt(hdrs, c, i) && HeaderAt(hdrs, c, i + 1);
    var h' := MergeHeaders(hdrs, Addr(c, i));
    forall k | 0 <= k < |d|
      ensures HeaderAt(h', d, k)
    {
      MergeRepAt(hdrs, c, i, k);
    }
  }

  lemma MergeRepAt(hdrs: Pool, c: seq<Cell>, i: nat, k: nat)
    requires Rep(hdrs, c) && i + 1 < |c| && k < |c| - 1
    requires HeaderAt(hdrs, c, i) && HeaderAt(hdrs, c, i + 1)
    ensures HeaderAt(MergeHeaders(hdrs, Addr(c, i)), MergeAt(c, i), k)
  {
    hide Addr;
    var d := MergeAt(c, i);
    AddrMerge(c, i, k);
    if k > 0 {
      AddrMerge(c, i, k - 1);
    }
    if k + 1 < |d| {
      AddrMerge(c, i, k + 1);
    }
    assert i + 2 < |c| ==> HeaderAt(hdrs, c, i + 2);
    var j := if k <= i then k else k + 1;
    assert k != i ==> d[k] == c[j];
    assert HeaderAt(hdrs, c, j);
    AddrMonotone(c, i, i + 1);
    if j < i {
      AddrMonotone(c, j, i);
    } else if i + 1 < j {
      AddrMonotone(c, i + 1, j);
    }
    if i + 2 < |c| {
      AddrMonotone(c, i + 1, i + 2);
      if i + 2 < j {
        AddrMonotone(c, i + 2, j);
      }
    }
  }

  lemma MarkRep(hdrs: Pool, c: seq<Cell>, i: nat, used: bool)
    requires Rep(hdrs, c) && i < |c|
    ensures HeaderAt(hdrs, c, i)
    ensures Rep(hdrs[Addr(c, i) := hdrs[Addr(c, i)].(used := used)], c[i := c[i].(used := used)])
  {
    hide Addr;
    assert HeaderAt(hdrs, c, i);
    var h' := hdrs[Addr(c, i) := hdrs[Addr(c, i)].(used := used)];
    var d := c[i := c[i].(used := used)];
    forall k | 0 <= k < |d|
      ensures HeaderAt(h', d, k)
    {
      assert HeaderAt(hdrs, c, k);
      MarkAddr(c, i, used, k);
      if k > 0 {
        MarkAddr(c, i, used, k - 1);
      }
      if k + 1 < |c| {
        MarkAddr(c, i, used, k + 1);
      }
      if k != i && Addr(c, k) == Addr(c, i) {
        AddrInjective(c, k, i);
      }
    }
  }

  class HeapState {
    const poolSize: nat
    var hdrs: Pool
    var head: int
    var usedBytes: int
    var allocCount: int
    var initialized: bool
    ghost var chain: seq<Cell>

    ghost predicate Valid()
      reads this
    {
      && PoolOk(poolSize)
      && Inv(chain, poolSize)
      && usedBytes == UsedBytes(chain)
      && allocCount == UsedCount(chain)
      && (if initialized then head == 0 && Rep(hdrs, chain) else chain == Initial(poolSize))
    }

    constructor (poolSize: nat)
      requires PoolOk(poolSize)
      ensures Valid() && this.poolSize == poolSize && chain == Initial(poolSize)
    {
      this.poolSize := poolSize;
      hdrs, head, usedBytes, allocCount, initialized := map[], NULL, 0, 0, false;
      chain := Initial(poolSize);
      InitialInv(poolSize);
      UsedOne(Cell(poolSize - HDR, false));
    }

    /** `heap_pool_init` */
    method Initialise()
      requires Valid() && !initialized
      modifies `hdrs, `head, `initialized
      ensures Valid() && initialized
    {
      hdrs := hdrs[0 := Header(NULL, NULL, poolSize - HDR, false)];
      head, initialized := 0, true;
      assert HeaderAt(hdrs, chain, 0);
    }

    /** `heap_split` of the i-th block, which is free */
    method SplitBlock(b: int, size: nat, ghost i: nat)
      requires Rep(hdrs, chain) && i < |chain| && b == Addr(chain, i) && Fits(chain[i], size)
      modifies `hdrs, `chain
      ensures Rep(hdrs, chain) && chain == Split(old(chain), i, size)
    {
      assert HeaderAt(hdrs, chain, i);
      var leftover := hdrs[b].size - size;
      if leftover < HDR + MIN_PAYLOAD {
        return;
      }
      SplitRep(hdrs, chain, i, size);
      AddrMonotone(chain, i, i + 1);
      var nxt := b + HDR + size;
      var after := hdrs[b].next;
      hdrs := hdrs[nxt := Header(b, after, leftover - HDR, false)];
      if after != NULL {
        hdrs := hdrs[after := hdrs[after].(prev := nxt)];
      }
      hdrs := hdrs[b := hdrs[b].(next := nxt)];
      hdrs := hdrs[b := hdrs[b].(size := size)];
      assert hdrs == SplitHeaders(old(hdrs), b, size);
      chain := SplitAt(chain, i, size);
    }

    /** One merge of `heap_coalesce`: the i-th block takes over the next one. */
    method MergeNext(b: int, ghost i: nat)
      requires Rep(hdrs, chain) && i + 1 < |chain| && b == Addr(chain, i)
      modifies `hdrs, `chain
      ensures Rep(hdrs, chain) && chain == MergeAt(old(chain), i)
    {
      MergeRep(hdrs, chain, i);
      AddrMonotone(chain, i, i + 1);
      if i + 2 < |chain| {
        AddrMonotone(chain, i + 1, i + 2);
        assert HeaderAt(hdrs, chain, i + 2);
      }
      var nxt := hdrs[b].next;
      hdrs := hdrs[b := hdrs[b].(size := hdrs[b].size + HDR + hdrs[nxt].size)];
      hdrs := hdrs[b := hdrs[b].(next := hdrs[nxt].next)];
      if hdrs[nxt].next != NULL {
        hdrs := hdrs[hdrs[nxt].next := hdrs[hdrs[nxt].next].(prev := b)];
      }
      assert hdrs == MergeHeaders(old(hdrs), b);
      chain := MergeAt(chain, i);
    }

    /** `heap_coalesce` of the i-th block, which is free */
    method CoalesceBlock(b: int, ghost i: nat)
      requires Rep(hdrs, chain) && i < |chain| && b == Addr(chain, i)
      modifies `hdrs, `chain
      ensures Rep(hdrs, chain) && chain == Coalesce(old(chain), i)
    {
      assert HeaderAt(hdrs, chain, i);
      var nxt := hdrs[b].next;
      if i + 1 < |chain| {
        assert HeaderAt(hdrs, chain, i + 1);
      }
      if nxt != NULL && !hdrs[nxt].used {
        MergeNext(b, i);
        AddrMerge(old(chain), i, i);
      }
      assert HeaderAt(hdrs, chain, i);
      var prv := hdrs[b].prev;
      if i > 0 {
        assert HeaderAt(hdrs, chain, i - 1);
      }
      if prv != NULL && !hdrs[prv].used {
        MergeNext(prv, i - 1);
      }
    }

    /** The common end of both allocators: split, mark, count. */
    method Claim(b: int, size: nat, ghost i: nat) returns (p: int)
      requires Valid() && initialized && i < |chain| && b == Addr(chain, i) && Fits(chain[i], size)
      requires size % 8 == 0
      modifies `hdrs, `chain, `usedBytes, `allocCount
      ensures Valid() && chain == Take(old(chain), i, size) && p == b + HDR
    {
      TakeInv(chain, i, size, poolSize);
      TakeCounters(chain, i, size);
      if chain[i].size - size >= HDR + MIN_PAYLOAD {
        AddrSplit(chain, i, size, i);
      }
      SplitBlock(b, size, i);
      MarkRep(hdrs, chain, i, true);
      hdrs := hdrs[b := hdrs[b].(used := true)];
      chain := chain[i := chain[i].(used := true)];
      usedBytes := usedBytes + hdrs[b].size;
      allocCount := allocCount + 1;
      p := b + HDR;
    }

    /** `vibe_heap_alloc` of the first-fit heap */
    method AllocFirstFit(n: nat) returns (p: int)
      requires Valid()
      modifies this
      ensures Valid() && (chain, p) == Allocate(First, old(chain), n)
    {
      if n == 0 {
        return NULL;
      }
      var size := AlignUp(n);
      if !initialized {
        Initialise();
      }
      var b := head;
      ghost var i := 0;
      while b != NULL
        invariant i <= |chain| && b == (if i == |chain| then NULL else Addr(chain, i))
        invariant forall j :: 0 <= j < i ==> !Fits(chain[j], size)
        decreases |chain| - i
      {
        assert HeaderAt(hdrs, chain, i);
        if !hdrs[b].used && hdrs[b].size >= size {
          FirstFitUnique(chain, size, i);
          p := Claim(b, size, i);
          return;
        }
        b := hdrs[b].next;
        i := i + 1;
      }
      FirstFitUnique(chain, size, i);
      p := NULL;
    }

    /** `vibe_heap_alloc` of the best-fit heap */
    method AllocBestFit(n: nat) returns (p: int)
      requires Valid()
      modifies this
      ensures Valid() && (chain, p) == Allocate(Best, old(chain), n)
    {
      hide Take, AlignUp, BestUpTo;
      if n == 0 {
        return NULL;
      }
      var size := AlignUp(n);
      if !initialized {
        Initialise();
      }
      ghost var k := BestFit(chain, size);
      var best := FindBest(size);
      BestFitCorrect(chain, size);
      p := NULL;
      if best != NULL {
        p := Claim(best, size, k);
      }
    }

    /** The scan of the best-fit heap, which stops early at an exact fit */
    method FindBest(size: nat) returns (best: int)
      requires head == 0 && Rep(hdrs, chain) && chain != []
      ensures best == At(chain, BestFit(chain, size))
    {
      best := NULL;
      var b := head;
      ghost var i := 0;
      while b != NULL
        invariant i <= |chain| && b == At(chain, i)
        invariant best == At(chain, BestUpTo(chain, size, i))
        decreases |chain| - i
      {
        assert HeaderAt(hdrs, chain, i);
        ghost var k := BestUpTo(chain, size, i);
        assert k < |chain| ==> HeaderAt(hdrs, chain, k);
        i := i + 1;
        if !hdrs[b].used && hdrs[b].size >= size {
          if best == NULL || hdrs[b].size < hdrs[best].size {
            best := b;
            if hdrs[best].size == size {
              ExactFitStays(chain, size, i, |chain|);
              return;
            }
          }
        }
        b := hdrs[b].next;
      }
    }

    /** `vibe_heap_free` of the i-th block, or NULL: a block that is free already is refused. */
    method Free(p: int, ghost i: nat)
      requires Valid()
      requires p != NULL ==> initialized && i < |chain| && p == Addr(chain, i) + HDR
      modifies this
      ensures Valid() && chain == if p != NULL && old(chain)[i].used then Give(old(chain), i) else old(chain)
    {
      if p == NULL {
        return;
      }
      var b := p - HDR;
      assert HeaderAt(hdrs, chain, i);
      if !hdrs[b].used {
        return;
      }
      GiveInv(chain, i, poolSize);
      GiveCounters(chain, i);
      MarkRep(hdrs, chain, i, false);
      usedBytes := usedBytes - hdrs[b].size;
      allocCount := allocCount - 1;
      hdrs := hdrs[b := hdrs[b].(used := false)];
      MarkAddr(chain, i, false, i);
      chain := chain[i := chain[i].(used := false)];
      CoalesceBlock(b, i);
    }
  }

  /** Address of a block, NULL for the index past the end */
  function At(c: seq<Cell>, i: nat): int
    requires i <= |c|
  {
    if i == |c| then NULL else Addr(c, i)
  }

  lemma {:induction false} FirstFitUnique(c: seq<Cell>, size: nat, i: nat)
    requires i <= |c| && (i < |c| ==> Fits(c[i], size)) && forall j :: 0 <= j < i ==> !Fits(c[j], size)
    ensures FirstFit(c, size) == i
  {
    var f := FirstFit(c, size);
    assert f < |c| ==> Fits(c[f], size);
  }
}
