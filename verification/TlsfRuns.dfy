/**
 What the TLSF allocator promises its callers over whole runs, and where it promises less
 than one might expect.
 */
module TlsfRuns {
  import opened HeapSizes
  import opened TlsfMapping
  import opened TlsfModel

  // ---------- the pool is tiled ----------

  /** Every byte of the managed area lies in the span of some block, header or payload ... */
  lemma {:induction false} ByteHasOwner(h: Heap, a: int, x: int) returns (b: int)
    requires Chain(h.sent, h.blocks) && a in h.blocks && a <= x < h.sent + HDR
    ensures b in h.blocks && b <= x < End(h.blocks, b)
    decreases h.sent - a
  {
    if x < End(h.blocks, a) {
      b := a;
    } else {
      assert Linked(h.sent, h.blocks, a);
      Neighbours(h.sent, h.blocks, a);
      b := ByteHasOwner(h, End(h.blocks, a), x);
    }
  }

  /** ... and of no other. */
  lemma ByteOwnerUnique(h: Heap, x: int, b: int, c: int)
    requires Chain(h.sent, h.blocks) && b in h.blocks && c in h.blocks
    requires b <= x < End(h.blocks, b) && c <= x < End(h.blocks, c)
    ensures b == c
  {
    if b < c {
      StartsAfter(h.sent, h.blocks, b, c);
    } else if c < b {
      StartsAfter(h.sent, h.blocks, c, b);
    }
  }

  /** Payload bytes and headers counted by the statistics walk add up to the managed area. */
  lemma {:induction false} BytesConserved(h: Heap, a: int, s: Stats)
    requires Chain(h.sent, h.blocks) && a in h.blocks
    ensures var t := StatsFrom(h, a, s);
            t.used + t.free + HDR * (t.allocs + t.frees) == s.used + s.free + HDR * (s.allocs + s.frees) + h.sent - a
    decreases h.sent - a
  {
    if a != h.sent {
      Neighbours(h.sent, h.blocks, a);
      BytesConserved(h, Next(h, a), s.Add(h.blocks[a]));
    }
  }

  /** Number of blocks at or after `a` that callers hold */
  ghost function HeldFrom(h: Heap, a: int): nat
    requires Chain(h.sent, h.blocks) && a in h.blocks
    decreases h.sent - a
  {
    if a == h.sent then 0
    else
      Neighbours(h.sent, h.blocks, a);
      (if Live(h, a) then 1 else 0) + HeldFrom(h, Next(h, a))
  }

  /** The allocation count of the walk is never too low, and is right exactly when every free block is flagged. */
  lemma {:induction false} AllocationCountExact(h: Heap, a: int, s: Stats)
    requires Inv(h) && a in h.blocks
    ensures var t := StatsFrom(h, a, s);
            && t.allocs >= s.allocs + HeldFrom(h, a)
            && (t.allocs == s.allocs + HeldFrom(h, a) <==>
                 forall b :: b in h.blocks && b >= a && Listed(h, b) ==> h.blocks[b].free)
    decreases h.sent - a
  {
    assert Linked(h.sent, h.blocks, a);
    if a == h.sent {
      assert ListOk(h, 0);
      assert !Listed(h, h.sent);
      forall b | b in h.blocks
        ensures b <= h.sent
      {
        assert Linked(h.sent, h.blocks, b);
      }
    } else {
      Neighbours(h.sent, h.blocks, a);
      assert FreeSound(h, a);
      AllocationCountExact(h, Next(h, a), s.Add(h.blocks[a]));
      forall b | b in h.blocks && b > a
        ensures b >= Next(h, a)
      {
        StartsAfter(h.sent, h.blocks, a, b);
      }
    }
  }

  // ---------- runs ----------

  datatype Op = Alloc(n: nat) | Free(p: int) | Realloc(p: int, n: nat)

  /** The heap and the caller's book: pointers obtained and not given back, with the sizes asked for */
  datatype System = System(heap: Heap, out: map<int, nat>)

  /** What the allocator asks of its callers */
  predicate Allowed(s: System, op: Op)
  {
    match op
    case Alloc(n) => Admissible(n)
    case Free(p) => p == NULL || p in s.out
    case Realloc(p, n) => Admissible(n) && (p == NULL || p in s.out)
  }

  /** The book agrees with the heap. */
  ghost predicate Good(s: System)
  {
    && Inv(s.heap)
    && (forall p {:trigger p in s.out} {:trigger Live(s.heap, p - HDR)} :: p in s.out <==> Live(s.heap, p - HDR))
    && (forall p {:trigger s.out[p]} :: p in s.out ==> Room(s.out[p]) <= s.heap.blocks[p - HDR].size)
  }

  function Booked(out: map<int, nat>, p: int, n: nat): map<int, nat>
  {
    if p == NULL then out else out[p := n]
  }

  function Step(s: System, op: Op): System
    requires Good(s) && Allowed(s, op)
  {
    match op
    case Alloc(n) =>
      var (h, p) := Allocate(s.heap, n);
      System(h, Booked(s.out, p, n))
    case Free(p) =>
      if p == NULL then s else System(Release(s.heap, p), s.out - {p})
    case Realloc(p, n) =>
      var (h, q) := Reallocate(s.heap, p, n);
      System(h, if p == NULL then Booked(s.out, q, n)
                else if n == 0 then s.out - {p}
                else if q == NULL then s.out
                else (s.out - {p})[q := n])
  }

  lemma AllocGood(s: System, n: nat)
    requires Good(s) && Admissible(n)
    ensures var (h, p) := Allocate(s.heap, n);
            Good(System(h, Booked(s.out, p, n))) && (p != NULL ==> p !in s.out)
  {
    hide Obtained, Locate;
    AllocateCorrect(s.heap, n);
    var (h, p) := Allocate(s.heap, n);
    if p != NULL {
      forall q | q in s.out
        ensures h.blocks[q - HDR].size == s.heap.blocks[q - HDR].size
      {
        assert Live(s.heap, q - HDR);
      }
    }
  }

  lemma FreeGood(s: System, p: int)
    requires Good(s) && p in s.out
    ensures Live(s.heap, p - HDR) && Good(System(Release(s.heap, p), s.out - {p}))
  {
    hide Settled, MergePrev;
    ReleaseCorrect(s.heap, p);
    var h := Release(s.heap, p);
    forall q | q in s.out && q != p
      ensures Live(h, q - HDR) && h.blocks[q - HDR].size == s.heap.blocks[q - HDR].size
    {
      assert Live(s.heap, q - HDR);
    }
  }

  lemma ReallocGood(s: System, p: int, n: nat)
    requires Good(s) && Admissible(n) && p in s.out && p != NULL && n != 0
    requires Live(s.heap, p - HDR)
    ensures var (h, q) := Reallocate(s.heap, p, n);
            Good(System(h, if q == NULL then s.out else (s.out - {p})[q := n]))
  {
    hide Obtained, Locate, Release;
    if AlignUp(n) <= s.heap.blocks[p - HDR].size {
      assert (s.out - {p})[p := n] == s.out[p := n];
    } else {
      GrowHolds(s.heap, p, n);
      AllocGood(s, n);
      var (h1, q) := Allocate(s.heap, n);
      if q != NULL {
        var s1 := System(h1, Booked(s.out, q, n));
        FreeGood(s1, p);
        assert s1.out - {p} == (s.out - {p})[q := n];
      }
    }
  }

  lemma StepGood(s: System, op: Op)
    requires Good(s) && Allowed(s, op)
    ensures Good(Step(s, op))
  {
    hide Allocate, Release, Grown;
    match op
    case Alloc(n) => AllocGood(s, n);
    case Free(p) =>
      if p != NULL {
        FreeGood(s, p);
      }
    case Realloc(p, n) =>
      if p == NULL {
        AllocGood(s, n);
      } else if n == 0 {
        FreeGood(s, p);
      } else {
        assert p in s.out;
        ReallocGood(s, p, n);
      }
  }

  /** Every operation of the run is allowed when its turn comes. */
  ghost predicate ValidRun(s: System, ops: seq<Op>)
    requires Good(s)
    decreases |ops|
  {
    ops != [] ==> Allowed(s, ops[0]) && (StepGood(s, ops[0]); ValidRun(Step(s, ops[0]), ops[1..]))
  }

  ghost function Run(s: System, ops: seq<Op>): System
    requires Good(s) && ValidRun(s, ops)
    decreases |ops|
  {
    if ops == [] then s else (StepGood(s, ops[0]); Run(Step(s, ops[0]), ops[1..]))
  }

  lemma {:induction false} RunGood(s: System, ops: seq<Op>)
    requires Good(s) && ValidRun(s, ops)
    ensures Good(Run(s, ops))
    decreases |ops|
  {
    if ops != [] {
      StepGood(s, ops[0]);
      RunGood(Step(s, ops[0]), ops[1..]);
    }
  }

  function Boot(poolSize: int): System
    requires PoolOk(poolSize)
  {
    System(Initial(poolSize), map[])
  }

  lemma BootGood(poolSize: int)
    requires PoolOk(poolSize)
    ensures Good(Boot(poolSize))
  {
    hide Initial;
    InitialInv(poolSize);
  }

  /** A run of allowed operations on a freshly booted system */
  ghost predicate ValidFrom(poolSize: int, ops: seq<Op>)
  {
    PoolOk(poolSize) && (BootGood(poolSize); ValidRun(Boot(poolSize), ops))
  }

  ghost function After(poolSize: int, ops: seq<Op>): System
    requires ValidFrom(poolSize, ops)
  {
    BootGood(poolSize);
    Run(Boot(poolSize), ops)
  }

  /** Memory `p .. p + n` is aligned and inside the managed area. */
  predicate Inside(h: Heap, p: int, n: nat)
  {
    p % 8 == 0 && START + HDR <= p && p + n <= h.sent
  }

  /**
   The allocator's promise, for every pool and every run of allowed operations: the heap stays well
   formed, each pointer the caller still holds is 8-aligned and points to at least the bytes it
   asked for inside the pool, exactly if aligning the request did not wrap, and it shares none of them
   with any other pointer held.
   */
  lemma HeldMemoryIsolated(poolSize: int, ops: seq<Op>)
    requires ValidFrom(poolSize, ops)
    ensures var s := After(poolSize, ops);
            && Inv(s.heap)
            && (forall p :: p in s.out ==>
                  Inside(s.heap, p, Room(s.out[p])) && (Inside(s.heap, p, s.out[p]) <==> s.out[p] <= LARGEST))
            && (forall p, q :: p in s.out && q in s.out && p != q ==>
                  p + Room(s.out[p]) <= q - HDR || q + Room(s.out[q]) <= p - HDR)
  {
    hide Run, ValidRun, Boot;
    BootGood(poolSize);
    RunGood(Boot(poolSize), ops);
    var s := After(poolSize, ops);
    var h := s.heap;
    forall p | p in s.out
      ensures Inside(h, p, Room(s.out[p])) && (Inside(h, p, s.out[p]) <==> s.out[p] <= LARGEST)
    {
      assert Live(h, p - HDR);
      Neighbours(h.sent, h.blocks, p - HDR);
    }
    forall p, q | p in s.out && q in s.out && p != q
      ensures p + Room(s.out[p]) <= q - HDR || q + Room(s.out[q]) <= p - HDR
    {
      assert Live(h, p - HDR) && Live(h, q - HDR);
      assert Apart(h.blocks, p - HDR, q - HDR);
    }
  }

  // ---------- coalescing is partial ----------

  /** The block that a free leaves on the list */
  function Survivor(h: Heap, p: int): int
    requires Inv(h) && Live(h, p - HDR)
  {
    if h.blocks[p - HDR].prevFree then h.blocks[p - HDR].prev else p - HDR
  }

  /**
   What freeing leaves next to the freed memory.  Behind it a free neighbour remains exactly when the
   successor was free without its IS_FREE flag, or was flagged and itself followed by a free block;
   in front of it, exactly when the absorbed predecessor was itself preceded by a free block.
   */
  lemma CoalescingExact(h: Heap, p: int)
    requires Inv(h) && Live(h, p - HDR)
    ensures var h' := Release(h, p);
            var b := Survivor(h, p);
            var n := End(h.blocks, p - HDR);
            && n in h.blocks && (h.blocks[n].free ==> End(h.blocks, n) in h.blocks)
            && b in h.blocks && Listed(h', b) && b <= p - HDR && End(h'.blocks, b) >= n
            && (Listed(h', End(h'.blocks, b)) <==>
                 if h.blocks[n].free then Listed(h, End(h.blocks, n)) else Listed(h, n))
            && (h'.blocks[b].prevFree <==> b != p - HDR && h.blocks[b].prevFree)
  {
    hide MergePrev, Settled;
    var a := p - HDR;
    Neighbours(h.sent, h.blocks, a);
    var n := Next(h, a);
    assert FreeSound(h, n);
    if h.blocks[n].free {
      assert ListOk(h, Class(h.blocks[n].size));
      Neighbours(h.sent, h.blocks, n);
    }
    ReturnTransit(h, a);
    var h1 := SetFree(h, a, true);
    SetFreeGeometry(h, a, true);
    CoalesceBack(h1, a);
    var (h2, b) := MergePrev(h1, a);
    assert b == Survivor(h, p);
    CoalesceForward(h2, b);
    assert Release(h, p) == Settled(h2, b);
    assert h2.blocks[n].free == h.blocks[n].free && (Listed(h2, n) <==> Listed(h, n));
    if h.blocks[n].free {
      assert End(h2.blocks, n) == End(h.blocks, n) > a;
      assert Listed(h2, End(h.blocks, n)) <==> Listed(h, End(h.blocks, n));
    }
  }

  lemma CoalesceBack(h: Heap, a: int)
    requires InTransit(h, a)
    ensures var (h', b) := MergePrev(h, a);
            && b == (if h.blocks[a].prevFree then h.blocks[a].prev else a)
            && InTransit(h', b) && b <= a && b in h.blocks && (b < a <==> h.blocks[a].prevFree)
            && End(h.blocks, a) in h.blocks && End(h'.blocks, b) == End(h.blocks, a)
            && h'.blocks[b].prevFree == h.blocks[b].prevFree
            && (forall c :: c in h.blocks && c > a ==>
                  && c in h'.blocks && h'.blocks[c].size == h.blocks[c].size && h'.blocks[c].free == h.blocks[c].free
                  && (Listed(h', c) <==> Listed(h, c)))
  {
    MergePrevTransit(h, a);
    Neighbours(h.sent, h.blocks, a);
    if h.blocks[a].prevFree {
      MergePrevLists(h, a);
    }
  }

  lemma CoalesceForward(h: Heap, b: int)
    requires InTransit(h, b)
    ensures var h' := Settled(h, b);
            var n := End(h.blocks, b);
            && n in h.blocks && (h.blocks[n].free ==> End(h.blocks, n) in h.blocks)
            && Listed(h', b) && End(h'.blocks, b) >= n && h'.blocks[b].prevFree == h.blocks[b].prevFree
            && (Listed(h', End(h'.blocks, b)) <==>
                 if h.blocks[n].free then Listed(h, End(h.blocks, n)) else Listed(h, n))
  {
    var n := End(h.blocks, b);
    Neighbours(h.sent, h.blocks, b);
    MergeNextTransit(h, b);
    if h.blocks[n].free {
      MergeNextSafe(h, b);
      MergeNextLists(h, b);
    }
    var h1 := MergeNext(h, b);
    ShelveInv(h1, b);
    ShelveLists(h1, b);
  }

  /**
   Consequence: a block that allocation split off is not rejoined when the allocation is freed again,
   although nothing happened in between; the heap is left with two adjacent free blocks.
   */
  lemma SplitNotRejoined(h: Heap, n: nat)
    requires Inv(h) && Admissible(n) && n > 0 && Locate(h, Request(n)) != NULL
    requires var a := Locate(h, Request(n)); a in h.blocks && h.blocks[a].size >= Request(n) + HDR + MIN_PAYLOAD
    ensures var (h1, p) := Allocate(h, n);
            && Inv(h1) && Live(h1, p - HDR)
            && var h2 := Release(h1, p);
            exists b :: Listed(h2, b) && Listed(h2, End(h2.blocks, b))
  {
    hide Locate, Release, Obtained, Request, Bucket;
    var size := Request(n);
    var a := Locate(h, size);
    LocateIsSearch(h, size);
    AllocateCorrect(h, n);
    SplitUnflagged(h, a, size);
    var (h1, p) := Allocate(h, n);
    CoalescingExact(h1, p);
  }

  /**
   Freed memory, with what it merged with, is the first to be handed out again, to the next request whose
   bucket is in its class.
   */
  lemma FreedIsTakenFirst(h: Heap, p: int, n: nat)
    requires Inv(h) && Live(h, p - HDR) && Admissible(n) && n > 0
    ensures var h', b := Release(h, p), Survivor(h, p);
            && Inv(h') && Listed(h', b)
            && (Class(RoundUp(Request(n))) == Class(h'.blocks[b].size) ==> Allocate(h', n).1 == b + HDR)
  {
    hide Class, Request, RoundUp, Bucket, Obtained, Release, Survivor;
    ReleaseCorrect(h, p);
    ReleasedIsFirst(h, p);
    InTable(Request(n));
    var h', c := Release(h, p), Class(RoundUp(Request(n)));
    if c == Class(h'.blocks[Survivor(h, p)].size) {
      assert FirstFrom(h'.lists, c) == c;
      assert Linked(h'.sent, h'.blocks, Survivor(h, p));
    }
  }

  lemma ReleasedIsFirst(h: Heap, p: int)
    requires Inv(h) && Live(h, p - HDR)
    ensures var h', b := Release(h, p), Survivor(h, p);
            && Listed(h', b) && h'.lists[Class(h'.blocks[b].size)][0] == b
  {
    var a := p - HDR;
    ReturnTransit(h, a);
    var h1 := SetFree(h, a, true);
    MergePrevTransit(h1, a);
    var (h2, b) := MergePrev(h1, a);
    MergeNextTransit(h2, b);
    ShelveInv(MergeNext(h2, b), b);
  }

  /** The remainder of a split is listed without its IS_FREE flag. */
  lemma SplitUnflagged(h: Heap, a: int, size: nat)
    requires Inv(h) && Listed(h, a) && size % 8 == 0 && size > 0 && size + HDR + MIN_PAYLOAD <= h.blocks[a].size
    ensures var h' := Obtained(h, a, size);
            var rem := a + HDR + size;
            a in h'.blocks && End(h'.blocks, a) == rem && Listed(h', rem) && !h'.blocks[rem].free
  {
    TakeTransit(h, a);
    var h1 := Unlink(h, a);
    CarveLists(h1, a, size);
    CarveTransit(h1, a, size);
    var h2 := Carve(h1, a, size);
    CommitInv(h2, a);
    SetFreeGeometry(h2, a, false);
    Neighbours(h2.sent, h2.blocks, a);
    SetPrevFreeGeometry(SetFree(h2, a, false), Next(h2, a), false);
  }

  /** Rounding the request up makes the search refuse a block of exactly the size asked for. */
  lemma ExactFitRefused()
    ensures PoolOk(896) && Inv(Initial(896)) && Admissible(136)
    ensures Listed(Initial(896), START) && Initial(896).blocks[START].size == 136
    ensures Allocate(Initial(896), 136).1 == NULL
  {
    InitialInv(896);
    assert Request(136) == 136;
    RoundUpIsBucket(136);
    assert Bucket(136) == 2 * Bucket(68) == 144;
    AllocateCorrect(Initial(896), 136);
    UnlistedGeometry(896);
    ListsLink(Unlisted(896), START);
  }
}
