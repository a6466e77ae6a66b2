/**
 `vibe_heap_free` of any block of the heap (lib/heap/heap_tlsf.c), also of one that is free already: what
 the guard against a second free catches and what it lets through.
 */
module TlsfMisuse {
  import opened Seqs
  import opened HeapSizes
  import opened Wrap32
  import opened TlsfMapping
  import opened TlsfModel
  import opened TlsfRuns

  /** The code's backward merge, wherever the flags and links allow it */
  function RawMergePrev(h: Heap, a: int): (Heap, int)
    requires a in h.blocks
    requires h.blocks[a].prevFree ==>
               Listed(h, h.blocks[a].prev) && End(h.blocks, h.blocks[a].prev) == a && End(h.blocks, a) in h.blocks
  {
    if h.blocks[a].prevFree then
      var p := h.blocks[a].prev;
      var h1 := Unlink(h, p);
      (h1.(blocks := AbsorbBlocks(h1.blocks, p)), p)
    else (h, a)
  }

  function RawMergeNext(h: Heap, a: int): Heap
    requires a in h.blocks && Next(h, a) in h.blocks
    requires h.blocks[Next(h, a)].free ==> Listed(h, Next(h, a)) && End(h.blocks, Next(h, a)) in h.blocks
  {
    var n := Next(h, a);
    if h.blocks[n].free then
      var h1 := Unlink(h, n);
      h1.(blocks := AbsorbBlocks(h1.blocks, a))
    else h
  }

  /** What the first half of the call relies on: PREV_FREE is exact. */
  lemma PrevReady(h: Heap, a: int)
    requires Inv(h) && a in h.blocks && a != h.sent
    ensures var h1 := SetFree(h, a, true);
            && Geometry(h1) && (forall b :: Listed(h1, b) <==> Listed(h, b))
            && (h.blocks[a].prevFree ==>
                  && Listed(h1, h.blocks[a].prev) && h.blocks[a].prev != h.sent && h.blocks[a].prev != a
                  && End(h1.blocks, h.blocks[a].prev) == a && End(h1.blocks, a) in h1.blocks)
  {
    SetFreeGeometry(h, a, true);
    var h1 := SetFree(h, a, true);
    assert PrevExact(h, a) && Linked(h1.sent, h1.blocks, a);
    Neighbours(h1.sent, h1.blocks, a);
  }

  /** The call up to the backward merge */
  function HalfFreed(h: Heap, a: int): (Heap, int)
    requires Inv(h) && a in h.blocks && a != h.sent
  {
    PrevReady(h, a);
    RawMergePrev(SetFree(h, a, true), a)
  }

  /** What the second half relies on: IS_FREE is set on free blocks only. */
  lemma NextReady(h: Heap, a: int)
    requires Inv(h) && a in h.blocks && a != h.sent
    ensures var (h2, b) := HalfFreed(h, a);
            && |h2.lists| == CLASSES
            && Chain(h2.sent, h2.blocks) && b in h2.blocks && b != h2.sent && Next(h2, b) in h2.blocks
            && h2.sent == h.sent
            && Next(h2, b) == End(h.blocks, a) && End(h.blocks, a) in h.blocks
            && h2.blocks[Next(h2, b)].free == h.blocks[Next(h2, b)].free
            && (h2.blocks[Next(h2, b)].free ==>
                  Listed(h2, Next(h2, b)) && Next(h2, b) != h2.sent && End(h2.blocks, Next(h2, b)) in h2.blocks)
  {
    PrevReady(h, a);
    var h1 := SetFree(h, a, true);
    var (h2, b) := RawMergePrev(h1, a);
    Neighbours(h.sent, h.blocks, a);
    var n := End(h.blocks, a);
    if h.blocks[a].prevFree {
      ChainAbsorb(h1.sent, h1.blocks, b);
      assert ListOk(h1, Class(h1.blocks[b].size));
      WithoutMembers(h1.lists[Class(h1.blocks[b].size)], b);
    }
    Neighbours(h2.sent, h2.blocks, b);
    if h.blocks[n].free {
      assert FreeSound(h, n) && ListOk(h, Class(h.blocks[n].size));
      Neighbours(h2.sent, h2.blocks, n);
    }
  }

  /** `vibe_heap_free` of any block: ignored if it carries IS_FREE, otherwise merged and listed */
  function FreeCall(h: Heap, p: int): Heap
    requires Inv(h) && p - HDR in h.blocks && p - HDR != h.sent
  {
    var a := p - HDR;
    if h.blocks[a].free then h
    else
      LastReady(h, a);
      var (b, h3) := (HalfFreed(h, a).1, Merged(h, a));
      Link(SetPrevFree(h3, Next(h3, b), true), b)
  }

  /** The call up to the forward merge */
  function Merged(h: Heap, a: int): Heap
    requires Inv(h) && a in h.blocks && a != h.sent
  {
    NextReady(h, a);
    var (h2, b) := HalfFreed(h, a);
    RawMergeNext(h2, b)
  }

  lemma LastReady(h: Heap, a: int)
    requires Inv(h) && a in h.blocks && a != h.sent
    ensures var (h2, b) := HalfFreed(h, a);
            var h3 := Merged(h, a);
            && b in h3.blocks && Next(h3, b) in h3.blocks && Next(h3, b) != b
            && |h3.lists| == CLASSES && Class(h3.blocks[b].size) < CLASSES
  {
    NextReady(h, a);
    var (h2, b) := HalfFreed(h, a);
    var h3 := Merged(h, a);
    if h2.blocks[Next(h2, b)].free {
      ChainAbsorb(h2.sent, h2.blocks, b);
    }
    assert Chain(h3.sent, h3.blocks) && b in h3.blocks && b != h3.sent && h3.sent == h.sent;
    Neighbours(h3.sent, h3.blocks, b);
    assert Next(h3, b) <= h3.sent < SIZE_LIMIT;
    ClassInTable(h3.blocks[b].size);
    assert |h3.lists| == |h2.lists|;
  }

  /** For a live block the call is the model's release. */
  lemma FreeCallOfLive(h: Heap, p: int)
    requires Inv(h) && Live(h, p - HDR)
    ensures FreeCall(h, p) == Release(h, p)
  {
    ReturnTransit(h, p - HDR);
    var h1 := SetFree(h, p - HDR, true);
    MergePrevTransit(h1, p - HDR);
    var (h2, b) := MergePrev(h1, p - HDR);
    MergeNextTransit(h2, b);
  }

  /** A block that is free stays in its list through the merges of a second free. */
  lemma StillInList(h: Heap, a: int)
    requires Inv(h) && Listed(h, a) && a != h.sent
    ensures |Merged(h, a).lists| == CLASSES && Class(h.blocks[a].size) < CLASSES
    ensures a in Merged(h, a).lists[Class(h.blocks[a].size)]
    ensures h.blocks[a].prevFree ==> a !in Merged(h, a).blocks
  {
    var c := Class(h.blocks[a].size);
    PrevReady(h, a);
    NextReady(h, a);
    LastReady(h, a);
    var h1 := SetFree(h, a, true);
    var (h2, b) := HalfFreed(h, a);
    if h.blocks[a].prevFree {
      KeepsOthers(h1, b, a, c);
    }
    var n := Next(h2, b);
    if h2.blocks[n].free {
      Neighbours(h.sent, h.blocks, a);
      KeepsOthers(h2, n, a, c);
    }
  }

  lemma KeepsOthers(h: Heap, x: int, a: int, c: nat)
    requires Listed(h, x) && x != a && c < |h.lists| && a in h.lists[c]
    ensures a in Unlink(h, x).lists[c]
  {
    if c == Class(h.blocks[x].size) {
      Others(h.lists[c], x, a);
    }
  }

  lemma {:induction false} Others(s: seq<int>, x: int, a: int)
    requires x != a && a in s
    ensures a in Without(s, x)
    decreases |s|
  {
    assert s == [s[0]] + s[1..];
    if s[0] != x && s[0] != a {
      Others(s[1..], x, a);
    }
  }

  /**
   Freeing a block that is free already changes nothing if and only if the block carries IS_FREE.
   Otherwise the call goes through, and its lists are no longer those of a heap.
   */
  lemma DoubleFreeExact(h: Heap, p: int)
    requires Inv(h) && Listed(h, p - HDR)
    ensures p - HDR != h.sent
    ensures FreeCall(h, p) == h <==> h.blocks[p - HDR].free
    ensures Inv(FreeCall(h, p)) <==> h.blocks[p - HDR].free
  {
    var a := p - HDR;
    var c := Class(h.blocks[a].size);
    assert ListOk(h, c);
    if !h.blocks[a].free {
      StillInList(h, a);
      LastReady(h, a);
      var h' := FreeCall(h, p);
      var b := HalfFreed(h, a).1;
      assert a in h'.lists[c];
      if Class(h'.blocks[b].size) == c && b == a {
        ListedTwice(h', c, Merged(h, a).lists[c], a);
      } else {
        Misplaced(h', c, a);
      }
    }
  }

  lemma ListedTwice(h: Heap, c: nat, rest: seq<int>, a: int)
    requires c < |h.lists| && h.lists[c] == [a] + rest && a in rest
    ensures !Inv(h)
  {
    var i :| 0 <= i < |rest| && rest[i] == a;
    assert h.lists[c][0] == h.lists[c][i + 1];
    assert !ListOk(h, c);
  }

  lemma Misplaced(h: Heap, c: nat, a: int)
    requires c < |h.lists| && a in h.lists[c] && (a !in h.blocks || Class(h.blocks[a].size) != c)
    ensures !Inv(h)
  {
    assert !ListOk(h, c);
  }

  // ---------- requests that are too large ----------

  // ---------- large requests ----------

  /**
   Where the search for a request starts, over all 32-bit sizes: inside the table and at its class up
   to 15 / 16 of 2^23, outside the table up to 15 / 16 of 2^32; beyond that rounding up wraps to class 0,
   whatever is found there being too small; and in the last 7 bytes aligning wraps, so that 8 bytes
   are looked for.
   */
  lemma RequestExact(h: Heap, n: nat)
    requires Inv(h) && 0 < n < WORD
    ensures Admissible(n) <==> n <= 0x78_0000 || LARGEST < n
    ensures Class(RoundUp(Request(n))) < CLASSES <==> n <= 0x78_0000 || 0xF000_0000 < n
    ensures 0xF000_0000 < n <= LARGEST ==>
              Class(RoundUp(Request(n))) == 0 && forall a :: Listed(h, a) ==> h.blocks[a].size < n
    ensures LARGEST < n ==> Request(n) == MIN_PAYLOAD
  {
    hide Class, RoundUp, Bucket;
    var r := Request(n);
    assert n <= 0x78_0000 ==> r <= 0x78_0000;
    assert n <= 0xF000_0000 ==> r <= 0xF000_0000;
    BucketInTable(r);
    RoundUpIsBucket(r);
    ClassInTable(RoundUp(r));
    FirstClass();
    BucketBounds(r);
    forall a | Listed(h, a)
      ensures h.blocks[a].size < SIZE_LIMIT
    {
      BlockIsSmall(h, a);
    }
  }

  lemma BlockIsSmall(h: Heap, a: int)
    requires Inv(h) && (Listed(h, a) || Live(h, a))
    ensures a in h.blocks && h.blocks[a].size < SIZE_LIMIT
  {
    if a == h.sent {
      assert Linked(h.sent, h.blocks, a);
    } else {
      Neighbours(h.sent, h.blocks, a);
    }
  }

  lemma FirstClass()
    ensures Class(0) == 0
  {
  }

  /**
   In the last 7 bytes an allocation is served as one of 8 bytes, so that its block is too small, and a
   resize reports success and changes nothing.
   */
  lemma WrappedRequest(h: Heap, n: nat, p: int)
    requires Inv(h) && LARGEST < n < WORD && Live(h, p - HDR) && p != NULL
    ensures Admissible(n) && Admissible(8) && Allocate(h, n) == Allocate(h, 8) && Reallocate(h, p, n) == (h, p)
    ensures var (h', q) := Allocate(h, n);
            q != NULL ==> Live(h', q - HDR) && h'.blocks[q - HDR].size < n
    ensures h.blocks[p - HDR].size < n
  {
    hide Inv, Obtained, Locate, Bucket;
    assert Request(8) == Request(n) == 8;
    RequestExact(h, n);
    RequestExact(h, 8);
    AllocateCorrect(h, n);
    BlockIsSmall(h, p - HDR);
  }

  /** Free lists with `xs` in class `k` and nothing else */
  function Only(k: nat, xs: seq<int>): seq<seq<int>> { seq(CLASSES, c => if c == k then xs else []) }

  /** A pool with room for one block of 24 bytes, or two of 8: at first, */
  const WHOLE := Heap(776, map[744 := Block(0, 24, true, false), 776 := Block(744, 0, false, true)], Only(3, [744]))

  /** with the first half taken, */
  const HALF := Heap(776,
    map[744 := Block(0, 8, false, false), 760 := Block(744, 8, false, false), 776 := Block(760, 0, false, true)],
    Only(1, [760]))

  /** with both taken, */
  const BOTH := Heap(776,
    map[744 := Block(0, 8, false, false), 760 := Block(744, 8, false, false), 776 := Block(760, 0, false, false)],
    Only(0, []))

  /** and with the second half given back */
  const BACK := Heap(776,
    map[744 := Block(0, 8, false, false), 760 := Block(744, 8, true, false), 776 := Block(760, 0, false, true)],
    Only(1, [760]))

  lemma OnlyFirst(k: nat, xs: seq<int>, c: nat)
    requires c <= k < CLASSES && xs != []
    ensures FirstFrom(Only(k, xs), c) == k
  {
    var d := FirstFrom(Only(k, xs), c);
    assert Only(k, xs)[k] == xs;
  }

  lemma OnlySet(k: nat, xs: seq<int>, j: nat, ys: seq<int>)
    requires k < CLASSES && j < CLASSES
    ensures j == k ==> Only(k, xs)[j := ys] == Only(k, ys)
    ensures xs == [] ==> Only(k, xs)[j := ys] == Only(j, ys)
    ensures Only(k, []) == Only(j, [])
  {
  }

  /** Listing the first block */
  lemma LinkOnly(h: Heap, k: nat, a: int, c: nat)
    requires k < CLASSES && h.lists == Only(k, []) && a in h.blocks && c == Class(h.blocks[a].size) < CLASSES
    ensures Link(h, a).lists == Only(c, [a])
  {
    OnlySet(k, [], c, [a]);
    assert h.lists[c] == [] && [a] + [] == [a];
  }

  lemma WholeInitial()
    ensures PoolOk(784) && Initial(784) == WHOLE && Inv(WHOLE)
  {
    InitialInv(784);
    assert Unlisted(784).lists == Only(0, []);
    LinkOnly(Unlisted(784), 0, 744, 3);
  }

  lemma EightBytes()
    ensures Request(8) == 8 && Bucket(8) == 8 && RoundUp(8) == 8 && Class(8) == 1 && Admissible(8)
  {
  }

  lemma FirstHalf()
    requires Inv(WHOLE)
    ensures Admissible(8) && Allocate(WHOLE, 8) == (HALF, 752)
  {
    hide FirstFrom, Request, Bucket, RoundUp, Admissible, Inv;
    EightBytes();
    AllocateCorrect(WHOLE, 8);
    OnlyFirst(3, [744], 1);
    assert Locate(WHOLE, 8) == 744;
    OnlySet(3, [744], 3, []);
    assert Without([744], 744) == [];
    var h := Unlink(WHOLE, 744);
    assert h.lists == Only(3, []);
    TakeTransit(WHOLE, 744);
    CarveSafe(h, 744, 8);
    LinkOnly(h.(blocks := SplitBlocks(h.blocks, 744, 8)), 3, 760, 1);
    var h1 := Carve(h, 744, 8);
    assert h1.lists == Only(1, [760]);
    assert h1.blocks == map[744 := Block(0, 8, true, false), 760 := Block(744, 8, false, false),
                             776 := Block(760, 0, false, true)];
    CarveTransit(h, 744, 8);
    assert Commit(h1, 744).blocks == HALF.blocks;
  }

  lemma SecondHalf()
    requires Inv(HALF)
    ensures Admissible(8) && Allocate(HALF, 8) == (BOTH, 768)
  {
    AllocateCorrect(HALF, 8);
    OnlyFirst(1, [760], 1);
    assert Locate(HALF, 8) == 760;
    OnlySet(1, [760], 1, []);
    OnlySet(1, [], 0, []);
    assert Without([760], 760) == [];
    var h := Unlink(HALF, 760);
    assert h.lists == Only(0, []);
    TakeTransit(HALF, 760);
    CarveTransit(h, 760, 8);
    assert Carve(h, 760, 8) == h;
    assert Commit(h, 760).blocks == BOTH.blocks;
  }

  lemma NoneOnly(a: int)
    ensures !Listed(BOTH, a)
  {
  }

  lemma GiveSecond()
    requires Inv(BOTH)
    ensures Live(BOTH, 760) && Release(BOTH, 768) == BACK
  {
    NoneOnly(760);
    ReturnTransit(BOTH, 760);
    var h1 := SetFree(BOTH, 760, true);
    MergePrevTransit(h1, 760);
    assert MergePrev(h1, 760) == (h1, 760);
    MergeNextTransit(h1, 760);
    assert MergeNext(h1, 760) == h1;
    LinkOnly(SetPrevFree(h1, 776, true), 0, 760, 1);
    assert Shelve(h1, 760).lists == Only(1, [760]);
    assert Shelve(h1, 760).blocks == BACK.blocks;
  }

  lemma GiveFirst()
    requires Inv(BACK)
    ensures Live(BACK, 744) && Release(BACK, 752) == WHOLE
  {
    assert !Listed(BACK, 744);
    ReturnTransit(BACK, 744);
    var h1 := SetFree(BACK, 744, true);
    MergePrevTransit(h1, 744);
    assert MergePrev(h1, 744) == (h1, 744);
    MergeNextTransit(h1, 744);
    OnlySet(1, [760], 1, []);
    assert Without([760], 760) == [];
    var h2 := MergeNext(h1, 744);
    assert h2.lists == Only(1, []);
    assert h2.blocks == map[744 := Block(0, 24, true, false), 776 := Block(744, 0, false, true)];
    LinkOnly(SetPrevFree(h2, 776, true), 1, 744, 3);
    assert Shelve(h2, 744).lists == Only(3, [744]);
    assert Shelve(h2, 744).blocks == WHOLE.blocks;
  }

  lemma Unroll(s: System, op: Op, rest: seq<Op>)
    requires Good(s) && Allowed(s, op) && Good(Step(s, op)) && ValidRun(Step(s, op), rest)
    ensures ValidRun(s, [op] + rest) && Run(s, [op] + rest) == Run(Step(s, op), rest)
  {
    assert ([op] + rest)[1..] == rest;
  }

  /**
   Allocate 8 bytes twice, free both, allocate 8 bytes again: the second pointer, given back long ago,
   names a free block without IS_FREE once more, and freeing it a second time passes the guard and ruins
   the lists.
   */
  lemma SecondFreeGoesThrough()
    ensures var ops := [Alloc(8)] + ([Alloc(8)] + ([Free(768)] + ([Free(752)] + ([Alloc(8)] + []))));
            && PoolOk(784) && Good(Boot(784)) && ValidRun(Boot(784), ops)
            && var s := Run(Boot(784), ops);
            && Inv(s.heap) && 768 !in s.out && Listed(s.heap, 760) && !s.heap.blocks[760].free && 760 != s.heap.sent
            && !Inv(FreeCall(s.heap, 768))
  {
    hide Allocate, Release, FreeCall, Run, ValidRun;
    WholeInitial();
    BootGood(784);
    FirstHalf();
    var s0 := System(WHOLE, map[]);
    StepGood(s0, Alloc(8));
    var s1 := System(HALF, map[752 := 8]);
    assert Step(s0, Alloc(8)) == s1;
    SecondHalf();
    StepGood(s1, Alloc(8));
    var s2 := System(BOTH, map[752 := 8, 768 := 8]);
    assert Step(s1, Alloc(8)) == s2;
    GiveSecond();
    StepGood(s2, Free(768));
    var s3 := System(BACK, map[752 := 8]);
    assert s2.out - {768} == s3.out;
    assert Step(s2, Free(768)) == s3;
    GiveFirst();
    StepGood(s3, Free(752));
    assert s3.out - {752} == map[];
    assert Step(s3, Free(752)) == s0;
    NoOps(s1);
    Unroll(s0, Alloc(8), []);
    Unroll(s3, Free(752), [Alloc(8)] + []);
    Unroll(s2, Free(768), [Free(752)] + ([Alloc(8)] + []));
    Unroll(s1, Alloc(8), [Free(768)] + ([Free(752)] + ([Alloc(8)] + [])));
    Unroll(s0, Alloc(8), [Alloc(8)] + ([Free(768)] + ([Free(752)] + ([Alloc(8)] + []))));
    assert Only(1, [760])[1] == [760];
    DoubleFreeExact(HALF, 768);
  }

  lemma NoOps(s: System)
    requires Good(s)
    ensures ValidRun(s, []) && Run(s, []) == s
  {
  }
}
