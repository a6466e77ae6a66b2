/**
 What the first-fit and best-fit heaps promise their callers over whole runs.
 */
module ChainRuns {
  import opened Wrap32
  import opened HeapSizes
  import opened ChainModel

  /** A caller holds `size` bytes at `p`: some allocated block's payload starts there. */
  ghost predicate Held(c: seq<Cell>, p: int, size: nat)
  {
    exists i :: HeldAt(c, p, size, i)
  }

  ghost predicate HeldSome(c: seq<Cell>, p: int)
  {
    exists n :: Held(c, p, n)
  }

  predicate HeldAt(c: seq<Cell>, p: int, size: nat, i: int)
  {
    0 <= i < |c| && c[i].used && p == Addr(c, i) + HDR && c[i].size == size
  }

  lemma AddrInjective(c: seq<Cell>, i: nat, j: nat)
    requires i <= |c| && j <= |c| && Addr(c, i) == Addr(c, j)
    ensures i == j
  {
    if i < j {
      AddrMonotone(c, i, j);
    } else if j < i {
      AddrMonotone(c, j, i);
    }
  }

  /** A free block may be split, and free neighbours merged, without anyone noticing. */
  lemma SplitHeld(c: seq<Cell>, i: nat, size: nat, p: int, n: nat)
    requires i < |c| && size + HDR <= c[i].size && !c[i].used
    ensures Held(SplitAt(c, i, size), p, n) <==> Held(c, p, n)
  {
    var d := SplitAt(c, i, size);
    if Held(c, p, n) {
      var k :| HeldAt(c, p, n, k);
      var l := if k < i then k else k + 1;
      AddrSplit(c, i, size, l);
      assert HeldAt(d, p, n, l);
    }
    if Held(d, p, n) {
      var l :| HeldAt(d, p, n, l);
      AddrSplit(c, i, size, l);
      assert HeldAt(c, p, n, if l < i then l else l - 1);
    }
  }

  lemma MergeHeld(c: seq<Cell>, i: nat, p: int, n: nat)
    requires i + 1 < |c| && !c[i].used && !c[i + 1].used
    ensures Held(MergeAt(c, i), p, n) <==> Held(c, p, n)
  {
    SplitUndoesMerge(c, i);
    SplitHeld(MergeAt(c, i), i, c[i].size, p, n);
  }

  lemma MarkHeld(c: seq<Cell>, i: nat, used: bool, p: int, n: nat)
    requires i < |c|
    ensures p != Addr(c, i) + HDR ==> (Held(c[i := c[i].(used := used)], p, n) <==> Held(c, p, n))
    ensures Held(c[i := c[i].(used := used)], Addr(c, i) + HDR, n) <==> used && n == c[i].size
  {
    var d := c[i := c[i].(used := used)];
    MarkAddr(c, i, used, i);
    if used && n == c[i].size {
      assert HeldAt(d, Addr(c, i) + HDR, n, i);
    }
    if Held(d, Addr(c, i) + HDR, n) {
      var k :| HeldAt(d, Addr(c, i) + HDR, n, k);
      AddrInjective(d, i, k);
    }
    if p != Addr(c, i) + HDR {
      if Held(c, p, n) {
        var k :| HeldAt(c, p, n, k);
        MarkAddr(c, i, used, k);
        assert HeldAt(d, p, n, k);
      }
      if Held(d, p, n) {
        var k :| HeldAt(d, p, n, k);
        MarkAddr(c, i, used, k);
        assert HeldAt(c, p, n, k);
      }
    }
  }

  /** Allocation hands out one new block and leaves all others where they are. */
  lemma TakeHeld(c: seq<Cell>, i: nat, size: nat, p: int, n: nat)
    requires i < |c| && Fits(c[i], size)
    ensures Held(Take(c, i, size), p, n) <==>
            if p == Addr(c, i) + HDR then n == Take(c, i, size)[i].size else Held(c, p, n)
  {
    var c1 := Split(c, i, size);
    if c[i].size - size >= HDR + MIN_PAYLOAD {
      SplitHeld(c, i, size, p, n);
      AddrSplit(c, i, size, i);
    }
    MarkHeld(c1, i, true, p, n);
  }

  lemma CoalesceHeld(c: seq<Cell>, i: nat, p: int, n: nat)
    requires i < |c| && !c[i].used
    ensures Held(Coalesce(c, i), p, n) <==> Held(c, p, n)
  {
    hide Held;
    var c1 := c;
    if i + 1 < |c| && !c[i + 1].used {
      MergeHeld(c, i, p, n);
      c1 := MergeAt(c, i);
    }
    if i > 0 && !c1[i - 1].used {
      MergeHeld(c1, i - 1, p, n);
    }
  }

  /** Freeing takes one block back and leaves all others where they are. */
  lemma GiveHeld(c: seq<Cell>, i: nat, p: int, n: nat)
    requires i < |c| && c[i].used
    ensures Held(Give(c, i), p, n) <==> Held(c, p, n) && p != Addr(c, i) + HDR
  {
    hide Held, Addr, Coalesce;
    MarkHeld(c, i, false, p, n);
    CoalesceHeld(c[i := c[i].(used := false)], i, p, n);
  }

  // ---------- runs ----------

  datatype Policy = First | Best

  /** The block a heap of the given policy would use; |c| when none fits */
  function Pick(policy: Policy, c: seq<Cell>, size: nat): (i: nat)
    ensures i <= |c| && (i < |c| ==> Fits(c[i], size))
    ensures i == |c| <==> forall j :: 0 <= j < |c| ==> !Fits(c[j], size)
  {
    BestFitCorrect(c, size);
    match policy case First => FirstFit(c, size) case Best => BestFit(c, size)
  }

  /** `vibe_heap_alloc` of either heap: the new chain and the user pointer */
  function Allocate(policy: Policy, c: seq<Cell>, n: nat): (seq<Cell>, int)
  {
    if n == 0 then (c, NULL)
    else
      var i := Pick(policy, c, AlignUp(n));
      if i == |c| then (c, NULL) else (Take(c, i, AlignUp(n)), Addr(c, i) + HDR)
  }

  /** Where block i is after block j has been taken, which may have been split */
  function Moved(c: seq<Cell>, d: seq<Cell>, i: nat, j: nat): nat { if j < i && |c| < |d| then i + 1 else i }

  /** `vibe_heap_realloc` of either heap, for the held block i: the new chain and the user pointer */
  function Reallocate(policy: Policy, c: seq<Cell>, i: nat, n: nat): (seq<Cell>, int)
    requires i < |c|
  {
    if n == 0 then (Give(c, i), NULL)
    else if AlignUp(n) <= c[i].size then (c, Addr(c, i) + HDR)
    else
      var j := Pick(policy, c, AlignUp(n));
      if j == |c| then (c, NULL)
      else
        var d := Take(c, j, AlignUp(n));
        (Give(d, Moved(c, d, i, j)), Addr(c, j) + HDR)
  }

  datatype Op = Alloc(n: nat) | Free(i: nat) | Realloc(i: nat, n: nat)

  /** The chain and the caller's book: pointers obtained and not given back, with the sizes asked for */
  datatype System = System(chain: seq<Cell>, out: map<int, nat>)

  /** A caller asks for a 32-bit size and frees what it holds; `i` locates the block. */
  predicate Allowed(s: System, op: Op)
  {
    match op
    case Alloc(n) => n < WORD
    case Free(i) => i < |s.chain| && Addr(s.chain, i) + HDR in s.out
    case Realloc(i, n) => i < |s.chain| && Addr(s.chain, i) + HDR in s.out && n < WORD
  }

  ghost predicate Good(s: System, poolSize: nat)
  {
    && Inv(s.chain, poolSize)
    && (forall p, n {:trigger Held(s.chain, p, n)} :: Held(s.chain, p, n) ==> p in s.out && Room(s.out[p]) <= n)
    && (forall p {:trigger HeldSome(s.chain, p)} :: p in s.out ==> HeldSome(s.chain, p))
  }

  function Step(policy: Policy, s: System, op: Op): System
    requires Allowed(s, op)
  {
    match op
    case Alloc(n) =>
      var (c, p) := Allocate(policy, s.chain, n);
      System(c, if p == NULL then s.out else s.out[p := n])
    case Free(i) => System(Give(s.chain, i), s.out - {Addr(s.chain, i) + HDR})
    case Realloc(i, n) =>
      var p := Addr(s.chain, i) + HDR;
      var (c, q) := Reallocate(policy, s.chain, i, n);
      System(c, if n == 0 then s.out - {p} else if q == NULL then s.out else (s.out - {p})[q := n])
  }

  lemma StepGood(policy: Policy, s: System, op: Op, poolSize: nat)
    requires Good(s, poolSize) && Allowed(s, op)
    ensures Good(Step(policy, s, op), poolSize)
  {
    hide Take, Give, AlignUp, Good, Pick;
    match op
    case Alloc(n) =>
      var size := AlignUp(n);
      var i := Pick(policy, s.chain, size);
      if n > 0 && i < |s.chain| {
        TakeGood(s, i, n, poolSize);
      }
    case Free(i) => GiveGood(s, i, poolSize);
    case Realloc(i, n) =>
      if n == 0 {
        GiveGood(s, i, poolSize);
      } else if AlignUp(n) <= s.chain[i].size {
        KeepGood(s, i, n, poolSize);
      } else {
        var j := Pick(policy, s.chain, AlignUp(n));
        if j < |s.chain| {
          MoveGood(s, i, j, n, poolSize);
        }
      }
  }

  /** A block that is large enough is kept. */
  lemma KeepGood(s: System, i: nat, n: nat, poolSize: nat)
    requires Good(s, poolSize) && Allowed(s, Realloc(i, n)) && AlignUp(n) <= s.chain[i].size
    ensures var p := Addr(s.chain, i) + HDR;
            Good(System(s.chain, (s.out - {p})[p := n]), poolSize)
  {
    hide AlignUp, Addr;
    var q := Addr(s.chain, i) + HDR;
    var out := (s.out - {q})[q := n];
    forall p, m | Held(s.chain, p, m)
      ensures p in out && Room(out[p]) <= m
    {
      if p == q {
        var k :| HeldAt(s.chain, p, m, k);
        AddrInjective(s.chain, i, k);
      }
    }
    forall p | p in out
      ensures HeldSome(s.chain, p)
    {
      assert p in s.out;
    }
  }

  /** Taking block j leaves every other block where it is, at most one place further on in the chain. */
  lemma MovedAddr(c: seq<Cell>, i: nat, j: nat, size: nat)
    requires i < |c| && j < |c| && i != j && Fits(c[j], size)
    ensures var d := Take(c, j, size);
            Moved(c, d, i, j) < |d| && d[Moved(c, d, i, j)] == c[i] && Addr(d, Moved(c, d, i, j)) == Addr(c, i)
  {
    var c1 := Split(c, j, size);
    var d := Take(c, j, size);
    var k := Moved(c, d, i, j);
    if |c| < |d| {
      AddrSplit(c, j, size, k);
    }
    MarkAddr(c1, j, true, k);
  }

  /** Otherwise a new block is taken first and then the old one given back. */
  lemma MoveGood(s: System, i: nat, j: nat, n: nat, poolSize: nat)
    requires Good(s, poolSize) && Allowed(s, Realloc(i, n)) && n > 0
    requires j < |s.chain| && Fits(s.chain[j], AlignUp(n))
    ensures var d := Take(s.chain, j, AlignUp(n));
            var p, q := Addr(s.chain, i) + HDR, Addr(s.chain, j) + HDR;
            && Moved(s.chain, d, i, j) < |d|
            && Good(System(Give(d, Moved(s.chain, d, i, j)), (s.out - {p})[q := n]), poolSize)
  {
    hide Take, AlignUp, Good, Give;
    BookedIsUsed(s, i, poolSize);
    TakeGood(s, j, n, poolSize);
    MovedAddr(s.chain, i, j, AlignUp(n));
    var p, q := Addr(s.chain, i) + HDR, Addr(s.chain, j) + HDR;
    if p == q {
      AddrInjective(s.chain, i, j);
    }
    var d := Take(s.chain, j, AlignUp(n));
    var s1 := System(d, s.out[q := n]);
    GiveGood(s1, Moved(s.chain, d, i, j), poolSize);
    assert s1.out - {p} == (s.out - {p})[q := n];
  }

  lemma TakeGood(s: System, i: nat, n: nat, poolSize: nat)
    requires Good(s, poolSize) && 0 < n < WORD && i < |s.chain| && Fits(s.chain[i], AlignUp(n))
    ensures Good(System(Take(s.chain, i, AlignUp(n)), s.out[Addr(s.chain, i) + HDR := n]), poolSize)
  {
    var size := AlignUp(n);
    var c := s.chain;
    hide Take, AlignUp;
    var d := Take(c, i, size);
    var q := Addr(c, i) + HDR;
    TakeInv(c, i, size, poolSize);
    assert Room(n) <= d[i].size;
    var out := s.out[q := n];
    forall p, m | Held(d, p, m)
      ensures p in out && Room(out[p]) <= m
    {
      TakeHeld(c, i, size, p, m);
    }
    forall p | p in out
      ensures HeldSome(d, p)
    {
      var m: nat;
      if p == q {
        m := d[i].size;
      } else {
        assert HeldSome(c, p);
        m :| Held(c, p, m);
      }
      TakeHeld(c, i, size, p, m);
      assert Held(d, p, m);
    }
  }

  lemma BookedIsUsed(s: System, i: nat, poolSize: nat)
    requires Good(s, poolSize) && i < |s.chain| && Addr(s.chain, i) + HDR in s.out
    ensures s.chain[i].used
  {
    hide Addr, Inv;
    var q := Addr(s.chain, i) + HDR;
    assert HeldSome(s.chain, q);
    var n :| Held(s.chain, q, n);
    var k :| HeldAt(s.chain, q, n, k);
    AddrInjective(s.chain, i, k);
  }

  lemma GiveGood(s: System, i: nat, poolSize: nat)
    requires Good(s, poolSize) && i < |s.chain| && Addr(s.chain, i) + HDR in s.out
    ensures Good(System(Give(s.chain, i), s.out - {Addr(s.chain, i) + HDR}), poolSize)
  {
    hide Give, Held, Addr;
    var c := s.chain;
    var q := Addr(c, i) + HDR;
    BookedIsUsed(s, i, poolSize);
    GiveInv(c, i, poolSize);
    var d := Give(c, i);
    var out := s.out - {q};
    forall p, m | Held(d, p, m)
      ensures p in out && Room(out[p]) <= m
    {
      GiveHeld(c, i, p, m);
    }
    forall p | p in out
      ensures HeldSome(d, p)
    {
      assert HeldSome(c, p);
      var m :| Held(c, p, m);
      GiveHeld(c, i, p, m);
      assert Held(d, p, m);
    }
  }

  ghost predicate ValidRun(policy: Policy, s: System, ops: seq<Op>)
    decreases |ops|
  {
    ops != [] ==> Allowed(s, ops[0]) && ValidRun(policy, Step(policy, s, ops[0]), ops[1..])
  }

  ghost function Run(policy: Policy, s: System, ops: seq<Op>): System
    requires ValidRun(policy, s, ops)
    decreases |ops|
  {
    if ops == [] then s else Run(policy, Step(policy, s, ops[0]), ops[1..])
  }

  lemma {:induction false} RunGood(policy: Policy, s: System, ops: seq<Op>, poolSize: nat)
    requires ValidRun(policy, s, ops) && Good(s, poolSize)
    ensures Good(Run(policy, s, ops), poolSize)
    decreases |ops|
  {
    if ops != [] {
      StepGood(policy, s, ops[0], poolSize);
      RunGood(policy, Step(policy, s, ops[0]), ops[1..], poolSize);
    }
  }

  function Boot(poolSize: nat): System
    requires PoolOk(poolSize)
  {
    System(Initial(poolSize), map[])
  }

  lemma BootGood(poolSize: nat)
    requires PoolOk(poolSize)
    ensures Good(Boot(poolSize), poolSize)
  {
    InitialInv(poolSize);
    var c := Initial(poolSize);
    forall p, n
      ensures !Held(c, p, n)
    {
      assert forall i :: !HeldAt(c, p, n, i);
    }
  }

  /**
   For either policy, every pool and every run: the chain tiles the pool without free neighbours, and
   each pointer the caller still holds is 8-aligned and inside the pool, with all the bytes that were
   asked for exactly if aligning the request did not wrap, and disjoint from the others.
   */
  lemma HeldMemoryIsolated(policy: Policy, poolSize: nat, ops: seq<Op>)
    requires PoolOk(poolSize) && ValidRun(policy, Boot(poolSize), ops)
    ensures var s := Run(policy, Boot(poolSize), ops);
            && Inv(s.chain, poolSize)
            && (forall p :: p in s.out ==> p % 8 == 0 && HDR <= p && p + Room(s.out[p]) <= poolSize)
            && (forall p :: p in s.out ==> (p + s.out[p] <= poolSize <==> s.out[p] <= LARGEST))
            && (forall p, q :: p in s.out && q in s.out && p < q ==> p + Room(s.out[p]) <= q - HDR)
  {
    BootGood(poolSize);
    RunGood(policy, Boot(poolSize), ops, poolSize);
    var s := Run(policy, Boot(poolSize), ops);
    forall p | p in s.out
      ensures p % 8 == 0 && HDR <= p && p + Room(s.out[p]) <= poolSize
      ensures p + s.out[p] <= poolSize <==> s.out[p] <= LARGEST
    {
      HeldInside(s, p, poolSize);
    }
    forall p, q | p in s.out && q in s.out && p < q
      ensures p + Room(s.out[p]) <= q - HDR
    {
      HeldApart(s, p, q, poolSize);
    }
  }

  /** Where a pointer in the book points */
  lemma BlockOf(s: System, p: int, poolSize: nat) returns (i: nat)
    requires Good(s, poolSize) && p in s.out
    ensures i < |s.chain| && p == Addr(s.chain, i) + HDR && Room(s.out[p]) <= s.chain[i].size
  {
    assert HeldSome(s.chain, p);
    var n :| Held(s.chain, p, n);
    i :| HeldAt(s.chain, p, n, i);
  }

  lemma HeldInside(s: System, p: int, poolSize: nat)
    requires Good(s, poolSize) && PoolOk(poolSize) && p in s.out
    ensures p % 8 == 0 && HDR <= p && p + Room(s.out[p]) <= poolSize
    ensures p + s.out[p] <= poolSize <==> s.out[p] <= LARGEST
  {
    hide Addr;
    var i := BlockOf(s, p, poolSize);
    AddrAligned(s.chain, i);
    AddrMonotone(s.chain, i, |s.chain|);
    SumOfEights(Addr(s.chain, i), 0);
  }

  lemma HeldApart(s: System, p: int, q: int, poolSize: nat)
    requires Good(s, poolSize) && p in s.out && q in s.out && p < q
    ensures p + Room(s.out[p]) <= q - HDR
  {
    hide Addr;
    var i := BlockOf(s, p, poolSize);
    var j := BlockOf(s, q, poolSize);
    if j < i {
      AddrMonotone(s.chain, j, i);
    } else {
      AddrMonotone(s.chain, i, j);
    }
  }

  /**
   A request that wraps is served as one of 0 bytes: it succeeds whenever anything is free, with a block
   that is too small, and it alone can leave a block without the minimum payload.
   */
  lemma WrappedRequest(policy: Policy, c: seq<Cell>, n: nat, poolSize: nat)
    requires Inv(c, poolSize) && poolSize < WORD && LARGEST < n < WORD
    ensures var i := Pick(policy, c, 0);
            && (Allocate(policy, c, n).1 == NULL <==> forall j :: 0 <= j < |c| ==> c[j].used)
            && (i < |c| ==>
                  && Allocate(policy, c, n) == (Take(c, i, 0), Addr(c, i) + HDR) && Take(c, i, 0)[i].size < n
                  && (Roomy(c) ==> (Roomy(Allocate(policy, c, n).0) <==> c[i].size < HDR + MIN_PAYLOAD)))
  {
    hide Pick, Take, Roomy;
    var i := Pick(policy, c, 0);
    assert Allocate(policy, c, n).1 == NULL <==> i == |c|;
    if i < |c| {
      NothingTaken(c, i);
      AddrMonotone(c, i, |c|);
      if Roomy(c) {
        TakeRoomy(c, i, 0);
      }
    }
  }

  /** Block i is the one that the policy prefers of those that fit: the first, or the first of the smallest. */
  ghost predicate Preferred(policy: Policy, c: seq<Cell>, size: nat, i: nat)
  {
    && i < |c| && Fits(c[i], size)
    && match policy
       case First => forall j :: 0 <= j < i ==> !Fits(c[j], size)
       case Best => IsBestFit(c, size, i)
  }

  /**
   Allocation: it fails, changing nothing, exactly for 0 bytes or if no free block is large enough;
   otherwise the caller holds the preferred block, cut to size, and everybody else what they held.
   */
  lemma AllocateCorrect(policy: Policy, c: seq<Cell>, n: nat, poolSize: nat)
    requires Inv(c, poolSize) && n < WORD
    ensures var (d, p) := Allocate(policy, c, n);
            && Inv(d, poolSize)
            && (p == NULL <==> n == 0 || forall j :: 0 <= j < |c| ==> !Fits(c[j], AlignUp(n)))
            && (p == NULL ==> d == c)
            && (p != NULL ==>
                  && !HeldSome(c, p)
                  && (exists i :: Preferred(policy, c, AlignUp(n), i) && p == Addr(c, i) + HDR)
                  && (exists m :: AlignUp(n) <= m < AlignUp(n) + HDR + MIN_PAYLOAD && Held(d, p, m))
                  && forall x, m :: x != p ==> (Held(d, x, m) <==> Held(c, x, m)))
  {
    hide Take, AlignUp, Held, Addr, Inv, Pick;
    var size := AlignUp(n);
    var i := Pick(policy, c, size);
    if n > 0 && i < |c| {
      PickPrefers(policy, c, size);
      InvTaken(c, i, size, poolSize);
      NotHeld(c, i);
      var p := Addr(c, i) + HDR;
      forall x, m
        ensures Held(Take(c, i, size), x, m) <==> if x == p then m == Take(c, i, size)[i].size else Held(c, x, m)
      {
        TakeHeld(c, i, size, x, m);
      }
      assert Held(Take(c, i, size), p, Take(c, i, size)[i].size);
    }
  }

  lemma PickPrefers(policy: Policy, c: seq<Cell>, size: nat)
    ensures var i := Pick(policy, c, size); i < |c| ==> Preferred(policy, c, size, i)
  {
    BestFitCorrect(c, size);
  }

  /** Freeing: the caller's block is nobody's any more, and everybody else holds what they held. */
  lemma ReleaseCorrect(c: seq<Cell>, i: nat, poolSize: nat)
    requires Inv(c, poolSize) && i < |c| && c[i].used
    ensures Inv(Give(c, i), poolSize)
    ensures forall x, m :: Held(Give(c, i), x, m) <==> Held(c, x, m) && x != Addr(c, i) + HDR
  {
    hide Give, Held, Addr, Inv;
    GiveInv(c, i, poolSize);
    forall x, m
      ensures Held(Give(c, i), x, m) <==> Held(c, x, m) && x != Addr(c, i) + HDR
    {
      GiveHeld(c, i, x, m);
    }
  }

  /**
   Resizing: a block that is large enough is kept.  Otherwise the resize fails, changing nothing, exactly
   when no free block is large enough; and if it does not fail, the caller holds a block that was free and
   is as large as asked for, in exchange for the old one, and everybody else what they held.
   */
  lemma ReallocateCorrect(policy: Policy, c: seq<Cell>, i: nat, n: nat, poolSize: nat)
    requires Inv(c, poolSize) && i < |c| && c[i].used && n < WORD
    ensures var (d, q) := Reallocate(policy, c, i, n);
            var p := Addr(c, i) + HDR;
            && Inv(d, poolSize)
            && (n == 0 ==> q == NULL && forall x, m :: Held(d, x, m) <==> Held(c, x, m) && x != p)
            && (n > 0 && AlignUp(n) <= c[i].size ==> d == c && q == p)
            && (n > 0 && AlignUp(n) > c[i].size ==>
                  && (q == NULL <==> forall j :: 0 <= j < |c| ==> !Fits(c[j], AlignUp(n)))
                  && (q == NULL ==> d == c)
                  && (q != NULL ==>
                        && q != p && !HeldSome(c, q) && !HeldSome(d, p)
                        && (exists m :: m >= n && Held(d, q, m))
                        && forall x, m :: x != p && x != q ==> (Held(d, x, m) <==> Held(c, x, m))))
  {
    hide Take, Give, Pick, AlignUp, Held, Addr, Inv;
    if n == 0 {
      ReleaseCorrect(c, i, poolSize);
    } else if AlignUp(n) > c[i].size {
      var j := Pick(policy, c, AlignUp(n));
      if j < |c| {
        Exchanged(c, i, j, n, poolSize);
      }
    }
  }

  lemma Exchanged(c: seq<Cell>, i: nat, j: nat, n: nat, poolSize: nat)
    requires Inv(c, poolSize) && i < |c| && j < |c| && c[i].used && Fits(c[j], AlignUp(n))
    requires 0 < n < WORD && c[i].size < AlignUp(n)
    ensures var d := Take(c, j, AlignUp(n));
            var p, q := Addr(c, i) + HDR, Addr(c, j) + HDR;
            && Moved(c, d, i, j) < |d|
            && var e := Give(d, Moved(c, d, i, j));
            && Inv(e, poolSize) && q != p && !HeldSome(c, q) && !HeldSome(e, p)
            && (exists m :: m >= n && Held(e, q, m))
            && forall x, m :: x != p && x != q ==> (Held(e, x, m) <==> Held(c, x, m))
  {
    hide Take, Give, Addr, Held, Inv;
    var size := AlignUp(n);
    var d := Take(c, j, size);
    MovedAddr(c, i, j, size);
    var k := Moved(c, d, i, j);
    var p, q := Addr(c, i) + HDR, Addr(c, j) + HDR;
    if p == q {
      AddrInjective(c, i, j);
    }
    InvTaken(c, j, size, poolSize);
    GiveInv(d, k, poolSize);
    var e := Give(d, k);
    forall x, m
      ensures Held(e, x, m) <==> x != p && if x == q then m == d[j].size else Held(c, x, m)
    {
      TakeHeld(c, j, size, x, m);
      GiveHeld(d, k, x, m);
    }
    NotHeld(c, j);
    assert Held(e, q, d[j].size);
  }

  lemma InvTaken(c: seq<Cell>, j: nat, size: nat, poolSize: nat)
    requires Inv(c, poolSize) && j < |c| && Fits(c[j], size) && size % 8 == 0
    ensures Inv(Take(c, j, size), poolSize) && size <= Take(c, j, size)[j].size < size + HDR + MIN_PAYLOAD
  {
    TakeInv(c, j, size, poolSize);
  }

  /** Nobody holds a free block. */
  lemma NotHeld(c: seq<Cell>, j: nat)
    requires j < |c| && !c[j].used
    ensures !HeldSome(c, Addr(c, j) + HDR)
  {
    var p := Addr(c, j) + HDR;
    forall n
      ensures !Held(c, p, n)
    {
      if Held(c, p, n) {
        var k :| HeldAt(c, p, n, k);
        AddrInjective(c, j, k);
      }
    }
  }

  /** Resizing to such a size reports success and changes nothing. */
  lemma WrappedResize(policy: Policy, c: seq<Cell>, i: nat, n: nat, poolSize: nat)
    requires Inv(c, poolSize) && poolSize < WORD && LARGEST < n < WORD && i < |c|
    ensures Reallocate(policy, c, i, n) == (c, Addr(c, i) + HDR) && c[i].size < n
  {
    hide Pick, Take, Give, Addr, SizesOk, NoFreePair;
    AddrMonotone(c, i, |c|);
  }

  lemma NothingTaken(c: seq<Cell>, i: nat)
    requires i < |c|
    ensures Take(c, i, 0)[i].size <= c[i].size
  {
  }

  lemma StepRoomy(policy: Policy, s: System, op: Op)
    requires Allowed(s, op) && Roomy(s.chain) && (!op.Free? ==> op.n <= LARGEST)
    ensures Roomy(Step(policy, s, op).chain)
  {
    hide Take, Give, Pick, Roomy, AlignUp;
    match op
    case Alloc(n) =>
      var i := Pick(policy, s.chain, AlignUp(n));
      if n > 0 && i < |s.chain| {
        TakeRoomy(s.chain, i, AlignUp(n));
      }
    case Free(i) => GiveRoomy(s.chain, i);
    case Realloc(i, n) =>
      GiveRoomy(s.chain, i);
      var j := Pick(policy, s.chain, AlignUp(n));
      if n > 0 && j < |s.chain| {
        TakeRoomy(s.chain, j, AlignUp(n));
        var d := Take(s.chain, j, AlignUp(n));
        TakenLength(s.chain, j, AlignUp(n));
        GiveRoomy(d, Moved(s.chain, d, i, j));
      }
  }

  lemma TakenLength(c: seq<Cell>, j: nat, size: nat)
    requires j < |c| && size <= c[j].size
    ensures forall i {:trigger Moved(c, Take(c, j, size), i, j)} ::
              0 <= i < |c| ==> Moved(c, Take(c, j, size), i, j) < |Take(c, j, size)|
  {
  }

  /** Over every run without such a request all payloads have the minimum size. */
  lemma {:induction false} PayloadsStayRoomy(policy: Policy, s: System, ops: seq<Op>)
    requires ValidRun(policy, s, ops) && Roomy(s.chain)
    requires forall k :: 0 <= k < |ops| && !ops[k].Free? ==> ops[k].n <= LARGEST
    ensures Roomy(Run(policy, s, ops).chain)
    decreases |ops|
  {
    if ops != [] {
      StepRoomy(policy, s, ops[0]);
      PayloadsStayRoomy(policy, Step(policy, s, ops[0]), ops[1..]);
    }
  }

  lemma {:induction false} SomeUsed(c: seq<Cell>) returns (i: nat)
    requires UsedCount(c) > 0
    ensures i < |c| && c[i].used
  {
    if c[|c| - 1].used {
      i := |c| - 1;
    } else {
      i := SomeUsed(c[..|c| - 1]);
    }
  }

  /** Allocated blocks are in the caller's book. */
  lemma UsedIsBooked(s: System, poolSize: nat)
    requires Good(s, poolSize)
    ensures UsedCount(s.chain) > 0 ==> s.out != map[]
  {
    if UsedCount(s.chain) > 0 {
      var i := SomeUsed(s.chain);
      assert HeldAt(s.chain, Addr(s.chain, i) + HDR, s.chain[i].size, i);
      assert Held(s.chain, Addr(s.chain, i) + HDR, s.chain[i].size);
    }
  }

  /** Once everything has been freed, in whatever order, the heap is again exactly the initial block. */
  lemma AllFreedRestores(policy: Policy, poolSize: nat, ops: seq<Op>)
    requires PoolOk(poolSize) && ValidRun(policy, Boot(poolSize), ops)
    requires Run(policy, Boot(poolSize), ops).out == map[]
    ensures Run(policy, Boot(poolSize), ops) == Boot(poolSize)
  {
    BootGood(poolSize);
    RunGood(policy, Boot(poolSize), ops, poolSize);
    var s := Run(policy, Boot(poolSize), ops);
    UsedIsBooked(s, poolSize);
    AllFreeIsInitial(s.chain, poolSize);
  }

  /** An allocation that is freed at once leaves no trace, for either policy and from any reachable chain. */
  lemma AllocFreeRoundTrip(policy: Policy, c: seq<Cell>, n: nat, poolSize: nat)
    requires Inv(c, poolSize) && n < WORD
    ensures var (d, p) := Allocate(policy, c, n);
            if p == NULL then d == c else exists i :: 0 <= i < |d| && p == Addr(d, i) + HDR && Give(d, i) == c
  {
    var size := AlignUp(n);
    var i := Pick(policy, c, size);
    if n > 0 && i < |c| {
      GiveUndoesTake(c, i, size, poolSize);
      var d := Take(c, i, size);
      AddrPrefix(c, d, i);
      assert Give(d, i) == c;
    }
  }
}
