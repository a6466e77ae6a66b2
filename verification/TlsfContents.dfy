/**
 What callers keep in memory they hold (lib/heap/heap_tlsf.c), over whole runs of calls and of stores by
 the holders: every word is what its holder last stored there, wherever a resize has moved it.
 */
module TlsfContents {
  import opened HeapSizes
  import opened TlsfModel
  import opened TlsfMemory
  import opened TlsfHeap
  import R = TlsfRuns

  /** A call of the allocator, or a store of `v` by the holder of `p`, `i` bytes from its start */
  datatype Deed = Call(op: R.Op) | Store(p: int, i: nat, v: int)

  /** The heap and the callers' book, with the words last stored: by pointer held and offset */
  datatype Noted = Noted(sys: R.System, last: map<(int, int), int>)

  predicate Allowed(n: Noted, d: Deed)
  {
    match d
    case Call(op) => R.Allowed(n.sys, op)
    case Store(p, i, _) => p in n.sys.out && i % 4 == 0 && i < Room(n.sys.out[p])
  }

  function Dropped(last: map<(int, int), int>, p: int): map<(int, int), int>
  {
    map k | k in last && k.0 != p :: last[k]
  }

  /** The words at `p` are now at `q`. */
  function Carried(last: map<(int, int), int>, p: int, q: int): map<(int, int), int>
  {
    var there := set k | k in last && k.0 == p :: (q, k.1);
    map k | k in last.Keys + there && k.0 != p :: if k in there then last[(p, k.1)] else last[k]
  }

  function After(n: Noted, d: Deed): Noted
    requires R.Good(n.sys) && Allowed(n, d)
  {
    match d
    case Store(p, i, v) => n.(last := n.last[(p, i) := v])
    case Call(op) =>
      var sys := R.Step(n.sys, op);
      match op
      case Alloc(_) => n.(sys := sys)
      case Free(p) => Noted(sys, if p == NULL then n.last else Dropped(n.last, p))
      case Realloc(p, size) =>
        if p == NULL then n.(sys := sys)
        else if size == 0 then Noted(sys, Dropped(n.last, p))
        else
          var q := Reallocate(n.sys.heap, p, size).1;
          if q == NULL || q == p then n.(sys := sys) else Noted(sys, Carried(n.last, p, q))
  }

  /** The word at offset `i` of what `p` points to */
  ghost predicate InBlock(h: Heap, p: int, i: int)
  {
    Live(h, p - HDR) && 0 <= i < h.blocks[p - HDR].size && i % 4 == 0
  }

  /** Words are noted for memory that is held, and only for that. */
  ghost predicate NotedOk(n: Noted)
  {
    R.Good(n.sys) && forall k {:trigger k in n.last} :: k in n.last ==> InBlock(n.sys.heap, k.0, k.1)
  }

  /** The memory holds what is noted. */
  ghost predicate Holds(mem: Memory, last: map<(int, int), int>)
  {
    forall k {:trigger k in last} :: k in last ==> k.0 + k.1 in mem && mem[k.0 + k.1] == last[k]
  }

  lemma WordOf(h: Heap, p: int, i: int)
    requires Inv(h) && InBlock(h, p, i)
    ensures Payload(h, p - HDR, p + i)
  {
    Neighbours(h.sent, h.blocks, p - HDR);
    WordInPayload(h, p - HDR, i);
  }

  /** What is noted of blocks that were not written is still there. */
  lemma StillHolds(h: Heap, mem: Memory, mem': Memory, last: map<(int, int), int>, a: int)
    requires Inv(h) && Untouched(h, mem, mem', a) && Holds(mem, last)
    requires forall k {:trigger k in last} :: k in last ==> InBlock(h, k.0, k.1) && (k.0 - HDR != a || a == NULL)
    ensures Holds(mem', last)
  {
    forall k | k in last
      ensures k.0 + k.1 in mem' && mem'[k.0 + k.1] == last[k]
    {
      WordOf(h, k.0, k.1);
      Neighbours(h.sent, h.blocks, k.0 - HDR);
    }
  }

  /** Blocks that stay in their holders' hands keep their words. */
  lemma StillNoted(h: Heap, h': Heap, last: map<(int, int), int>, a: int)
    requires Keeps(h, h', a)
    requires forall k {:trigger k in last} :: k in last ==> InBlock(h, k.0, k.1) && k.0 - HDR != a
    ensures forall k {:trigger k in last} :: k in last ==> InBlock(h', k.0, k.1)
  {
    forall k | k in last
      ensures InBlock(h', k.0, k.1)
    {
      assert Live(h, k.0 - HDR);
    }
  }

  // ---------- one call ----------

  lemma AllocNoted(n: Noted, size: nat)
    requires NotedOk(n) && Admissible(size)
    ensures NotedOk(After(n, Call(R.Alloc(size))))
  {
    hide R.Good, Allocate;
    GoodInv(n.sys);
    R.StepGood(n.sys, R.Alloc(size));
    AllocateCorrect(n.sys.heap, size);
    var (h', p) := Allocate(n.sys.heap, size);
    if p != NULL {
      StillNoted(n.sys.heap, h', n.last, p - HDR);
    }
  }

  lemma GoodInv(sys: R.System)
    requires R.Good(sys)
    ensures Inv(sys.heap) && forall p {:trigger p in sys.out} :: p in sys.out ==> Live(sys.heap, p - HDR)
  {
  }

  lemma FreeNoted(n: Noted, p: int)
    requires NotedOk(n) && p in n.sys.out && p != NULL
    ensures NotedOk(After(n, Call(R.Free(p))))
  {
    hide R.Good, Release;
    GoodInv(n.sys);
    R.StepGood(n.sys, R.Free(p));
    ReleaseCorrect(n.sys.heap, p);
    StillNoted(n.sys.heap, Release(n.sys.heap, p), Dropped(n.last, p), p - HDR);
  }

  /** A resize that moves: who else holds what, and where the words go */
  lemma MoveNoted(n: Noted, p: int, size: nat)
    requires NotedOk(n) && p in n.sys.out && p != NULL && size != 0 && Admissible(size)
    requires Live(n.sys.heap, p - HDR)
    ensures var (h', q) := Reallocate(n.sys.heap, p, size);
            && (q == NULL || q == p ==> h' == n.sys.heap)
            && (q != NULL && q != p ==>
                  && !Live(n.sys.heap, q - HDR) && Live(h', q - HDR)
                  && n.sys.heap.blocks[p - HDR].size <= h'.blocks[q - HDR].size
                  && forall k {:trigger k in n.last} :: k in n.last && k.0 != p ==> InBlock(h', k.0, k.1) && k.0 != q)
  {
    hide R.Good, Allocate, Release;
    GoodInv(n.sys);
    var h := n.sys.heap;
    if AlignUp(size) > h.blocks[p - HDR].size {
      Neighbours(h.sent, h.blocks, p - HDR);
      TooSmall(h.blocks[p - HDR].size, size);
      GrowHolds(h, p, size);
      AllocateCorrect(h, size);
      var (h1, q) := Allocate(h, size);
      if q != NULL {
        ReleaseCorrect(h1, p);
        assert Live(h, p - HDR);
        forall k | k in n.last && k.0 != p
          ensures InBlock(Release(h1, p), k.0, k.1) && k.0 != q
        {
          assert Live(h, k.0 - HDR) && Live(h1, k.0 - HDR);
        }
      }
    }
  }

  lemma ReallocNoted(n: Noted, p: int, size: nat)
    requires NotedOk(n) && Allowed(n, Call(R.Realloc(p, size))) && p != NULL && size != 0
    ensures NotedOk(After(n, Call(R.Realloc(p, size))))
  {
    hide R.Good, Reallocate;
    GoodInv(n.sys);
    R.StepGood(n.sys, R.Realloc(p, size));
    MoveNoted(n, p, size);
    var (h', q) := Reallocate(n.sys.heap, p, size);
    var n' := After(n, Call(R.Realloc(p, size)));
    if q != NULL && q != p {
      forall k | k in n'.last
        ensures InBlock(h', k.0, k.1)
      {
        if k.0 == q {
          assert (p, k.1) in n.last;
        }
      }
    }
  }

  // ---------- on the words ----------

  /** Whoever holds memory, the heap is in use. */
  lemma InUse(heap: Tlsf, a: int)
    requires heap.Valid() && Live(heap.h, a)
    ensures heap.ready
  {
    InitialInv(heap.poolSize);
  }

  method PerformAlloc(heap: Tlsf, size: nat, ghost n: Noted)
    requires heap.Valid() && NotedOk(n) && n.sys.heap == heap.h && Holds(heap.mem, n.last) && Admissible(size)
    modifies heap
    ensures heap.Valid() && heap.h == After(n, Call(R.Alloc(size))).sys.heap
    ensures Holds(heap.mem, n.last)
  {
    hide Tlsf.Valid, R.Good, Allocate;
    GoodInv(n.sys);
    ghost var m := heap.mem;
    var _ := heap.Alloc(size);
    StillHolds(n.sys.heap, m, heap.mem, n.last, NULL);
  }

  method PerformFree(heap: Tlsf, p: int, ghost n: Noted)
    requires heap.Valid() && NotedOk(n) && n.sys.heap == heap.h && Holds(heap.mem, n.last)
    requires p != NULL && p in n.sys.out
    modifies heap
    ensures heap.Valid() && heap.h == Release(n.sys.heap, p) && Holds(heap.mem, Dropped(n.last, p))
  {
    hide Tlsf.Valid, R.Good, Release;
    GoodInv(n.sys);
    InUse(heap, p - HDR);
    ghost var m := heap.mem;
    heap.Free(p);
    StillHolds(n.sys.heap, m, heap.mem, Dropped(n.last, p), p - HDR);
  }

  method PerformRealloc(heap: Tlsf, p: int, size: nat, ghost n: Noted)
    requires heap.Valid() && NotedOk(n) && n.sys.heap == heap.h && Holds(heap.mem, n.last)
    requires p != NULL && p in n.sys.out && size != 0 && Admissible(size)
    modifies heap
    ensures heap.Valid() && heap.h == After(n, Call(R.Realloc(p, size))).sys.heap
    ensures Holds(heap.mem, After(n, Call(R.Realloc(p, size))).last)
  {
    hide Tlsf.Valid, R.Good, Reallocate;
    GoodInv(n.sys);
    InUse(heap, p - HDR);
    MoveNoted(n, p, size);
    ghost var m, h := heap.mem, n.sys.heap;
    var q := heap.Realloc(p, size);
    ghost var kept := Dropped(n.last, p);
    StillHolds(h, m, heap.mem, kept, p - HDR);
    if q == NULL {
      StillHolds(h, m, heap.mem, n.last, NULL);
    } else {
      Carry(h, m, heap.mem, n.last, p, q);
    }
  }

  /** What was noted at `p` is found at `q`, the rest where it was. */
  lemma Carry(h: Heap, m: Memory, m': Memory, last: map<(int, int), int>, p: int, q: int)
    requires Live(h, p - HDR) && Copied(m, p, m', q, h.blocks[p - HDR].size) && Holds(m, last)
    requires Holds(m', Dropped(last, p)) && forall k {:trigger k in last} :: k in last ==> InBlock(h, k.0, k.1)
    ensures q == p ==> Holds(m', last)
    ensures q != p ==> Holds(m', Carried(last, p, q))
  {
    forall k | k in last
      ensures var x := (if k.0 == p then q else k.0) + k.1;
              x in m' && m'[x] == last[k]
    {
      if k.0 == p {
        assert Word(k.1);
      } else {
        assert k in Dropped(last, p);
      }
    }
    if q != p {
      forall k | k in Carried(last, p, q)
        ensures k.0 + k.1 in m' && m'[k.0 + k.1] == Carried(last, p, q)[k]
      {
        assert k in last || (p, k.1) in last;
      }
    }
  }

  /** A deed, with the calls carried out on memory words */
  method Perform(heap: Tlsf, d: Deed, ghost n: Noted)
    requires heap.Valid() && NotedOk(n) && n.sys.heap == heap.h && Holds(heap.mem, n.last) && Allowed(n, d)
    modifies heap
    ensures heap.Valid() && NotedOk(After(n, d)) && After(n, d).sys.heap == heap.h
    ensures Holds(heap.mem, After(n, d).last)
  {
    hide Tlsf.Valid, R.Good, Release, Allocate;
    GoodInv(n.sys);
    match d
    case Store(p, i, v) => PerformStore(heap, p, i, v, n);
    case Call(op) =>
      match op
      case Alloc(size) =>
        AllocNoted(n, size);
        PerformAlloc(heap, size, n);
      case Free(p) =>
        if p != NULL {
          FreeNoted(n, p);
          PerformFree(heap, p, n);
        }
      case Realloc(p, size) =>
        if p == NULL {
          AllocNoted(n, size);
          PerformAlloc(heap, size, n);
        } else if size == 0 {
          FreeNoted(n, p);
          PerformFree(heap, p, n);
        } else {
          ReallocNoted(n, p, size);
          PerformRealloc(heap, p, size, n);
        }
  }

  method PerformStore(heap: Tlsf, p: int, i: nat, v: int, ghost n: Noted)
    requires heap.Valid() && NotedOk(n) && n.sys.heap == heap.h && Holds(heap.mem, n.last)
    requires Allowed(n, Store(p, i, v))
    modifies heap
    ensures heap.Valid() && heap.h == n.sys.heap && NotedOk(After(n, Store(p, i, v)))
    ensures Holds(heap.mem, After(n, Store(p, i, v)).last)
  {
    hide Tlsf.Valid;
    GoodInv(n.sys);
    InUse(heap, p - HDR);
    assert InBlock(heap.h, p, i);
    WordOf(heap.h, p, i);
    Distinct(n, p, i);
    heap.StoreWord(p - HDR, p + i, v);
  }

  /** No other noted word is at the same address. */
  lemma Distinct(n: Noted, p: int, i: int)
    requires NotedOk(n) && InBlock(n.sys.heap, p, i)
    ensures forall k {:trigger k in n.last} :: k in n.last && k != (p, i) ==> k.0 + k.1 != p + i
  {
    var h := n.sys.heap;
    forall k | k in n.last && k != (p, i)
      ensures k.0 + k.1 != p + i
    {
      if k.0 != p {
        assert Apart(h.blocks, p - HDR, k.0 - HDR);
      }
    }
  }

  // ---------- runs ----------

  ghost predicate ValidRun(n: Noted, deeds: seq<Deed>)
    requires R.Good(n.sys)
    decreases |deeds|
  {
    deeds != [] ==> Allowed(n, deeds[0]) && (AfterGood(n, deeds[0]); ValidRun(After(n, deeds[0]), deeds[1..]))
  }

  lemma AfterGood(n: Noted, d: Deed)
    requires R.Good(n.sys) && Allowed(n, d)
    ensures R.Good(After(n, d).sys)
  {
    if d.Call? {
      R.StepGood(n.sys, d.op);
    }
  }

  ghost function Run(n: Noted, deeds: seq<Deed>): Noted
    requires R.Good(n.sys) && ValidRun(n, deeds)
    decreases |deeds|
  {
    if deeds == [] then n else (AfterGood(n, deeds[0]); Run(After(n, deeds[0]), deeds[1..]))
  }

  /**
   Over every run of calls and stores, every word of memory that is held is what its holder last stored
   there, through whatever the allocator did for others and wherever it moved the block.
   */
  method Execute(heap: Tlsf, deeds: seq<Deed>, ghost n: Noted) returns (ghost n': Noted)
    requires heap.Valid() && NotedOk(n) && n.sys.heap == heap.h && Holds(heap.mem, n.last) && ValidRun(n, deeds)
    modifies heap
    ensures heap.Valid() && n' == Run(n, deeds) && NotedOk(n') && n'.sys.heap == heap.h
    ensures Holds(heap.mem, n'.last)
  {
    hide Tlsf.Valid, R.Good, After, Allowed;
    n' := n;
    for k := 0 to |deeds|
      invariant heap.Valid() && NotedOk(n') && n'.sys.heap == heap.h && Holds(heap.mem, n'.last)
      invariant R.Good(n'.sys) && ValidRun(n', deeds[k..]) && Run(n', deeds[k..]) == Run(n, deeds)
    {
      assert deeds[k..][1..] == deeds[k + 1..];
      Perform(heap, deeds[k], n');
      n' := After(n', deeds[k]);
    }
  }
}
