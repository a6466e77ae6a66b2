/**
 The TLSF allocator (lib/heap/heap_tlsf.c) as a value: the physical chain of block
 headers and the segregated free lists, without the memory words and bitmaps that
 represent them (modules TlsfMemory and TlsfHeap add those and refine this model).

 Addresses are offsets from the 8-aligned pool; 0, the offset of the control
 structure, stands for NULL.  Sizes are those of the 32-bit layout.
 */
module TlsfModel {
  import opened Seqs
  import opened TlsfMapping
  import opened HeapSizes
  import opened Wrap32

  const NULL := 0
  const HDR := 8             // BLOCK_HDR_OFFSET
  const MIN_PAYLOAD := 8     // BLOCK_PAYLOAD_MIN
  const START := 744         // HEAP_ALIGN_UP(sizeof(tlsf_ctl_t))
  const SIZE_LIMIT := 0x80_0000

  /** A block header: `prev_phys` and the three parts of `size_flags` */
  datatype Block = Block(prev: int, size: nat, free: bool, prevFree: bool)

  /** `sent` is the address of the sentinel, the last header of the pool. */
  datatype Heap = Heap(sent: int, blocks: map<int, Block>, lists: seq<seq<int>>)

  /** `block_next` */
  function Next(h: Heap, a: int): int
    requires a in h.blocks
  {
    End(h.blocks, a)
  }

  /** The block is on the free list of its size. */
  predicate Listed(h: Heap, a: int)
  {
    a in h.blocks && Class(h.blocks[a].size) < |h.lists| && a in h.lists[Class(h.blocks[a].size)]
  }

  /** The block is in the caller's hands. */
  predicate Live(h: Heap, a: int)
  {
    a in h.blocks && a != h.sent && !Listed(h, a)
  }

  // ---------- invariants ----------

  /** The list holds each of its blocks once, and only blocks of its class. */
  ghost predicate ListOk(h: Heap, c: nat)
    requires c < |h.lists|
  {
    && NoDup(h.lists[c])
    && forall a :: a in h.lists[c] ==> a in h.blocks && a != h.sent && Class(h.blocks[a].size) == c
  }

  ghost predicate ListsOk(h: Heap)
  {
    |h.lists| == CLASSES && forall c {:trigger ListOk(h, c)} :: 0 <= c < CLASSES ==> ListOk(h, c)
  }

  /** End of the block at `a`, where the next header is */
  function End(blocks: map<int, Block>, a: int): int
    requires a in blocks
  {
    a + HDR + blocks[a].size
  }

  /** A block's place in the physical chain: its neighbours on both sides exist and point back. */
  ghost predicate Linked(sent: int, blocks: map<int, Block>, a: int)
    requires a in blocks
  {
    && START <= a <= sent && a % 8 == 0
    && blocks[a].size % 8 == 0
    && (a == sent <==> blocks[a].size == 0)
    && (a != sent ==> End(blocks, a) in blocks && blocks[End(blocks, a)].prev == a)
    && (if a == START then blocks[a].prev == NULL
        else blocks[a].prev in blocks && blocks[a].prev != sent && End(blocks, blocks[a].prev) == a)
  }

  /** The spans of two blocks, headers included, do not overlap. */
  ghost predicate Apart(blocks: map<int, Block>, a: int, b: int)
    requires a in blocks && b in blocks
  {
    End(blocks, a) <= b || End(blocks, b) <= a
  }

  /** Blocks tile the pool from START to the sentinel without gap or overlap. */
  ghost predicate Chain(sent: int, blocks: map<int, Block>)
  {
    && START < sent < SIZE_LIMIT
    && START in blocks && sent in blocks
    && (forall a {:trigger Linked(sent, blocks, a)} :: a in blocks ==> Linked(sent, blocks, a))
    && (forall a, b {:trigger Apart(blocks, a, b)} :: a in blocks && b in blocks && a != b ==> Apart(blocks, a, b))
  }

  ghost predicate Geometry(h: Heap)
  {
    Chain(h.sent, h.blocks) && ListsOk(h)
  }

  /** PREV_FREE says exactly whether the physical predecessor is on a free list. */
  ghost predicate PrevExact(h: Heap, b: int)
    requires b in h.blocks
  {
    h.blocks[b].prevFree <==> b != START && Listed(h, h.blocks[b].prev)
  }

  /** IS_FREE is set on free blocks only (but not on all of them). */
  ghost predicate FreeSound(h: Heap, b: int)
    requires b in h.blocks
  {
    h.blocks[b].free ==> Listed(h, b)
  }

  ghost predicate Inv(h: Heap)
  {
    && Geometry(h)
    && (forall b {:trigger PrevExact(h, b)} :: b in h.blocks ==> PrevExact(h, b))
    && (forall b {:trigger FreeSound(h, b)} :: b in h.blocks ==> FreeSound(h, b))
  }

  /** The invariant while block `a` is in transit between caller and free lists. */
  ghost predicate InTransit(h: Heap, a: int)
  {
    && Geometry(h)
    && Live(h, a)
    && (forall b {:trigger PrevExact(h, b)} :: b in h.blocks && b != Next(h, a) ==> PrevExact(h, b))
    && (forall b {:trigger FreeSound(h, b)} :: b in h.blocks && b != a ==> FreeSound(h, b))
  }

  // ---------- the primitive steps ----------

  /** `block_set_free` / `block_set_used` */
  function SetFree(h: Heap, a: int, free: bool): Heap
    requires a in h.blocks
  {
    h.(blocks := h.blocks[a := h.blocks[a].(free := free)])
  }

  /** `block_set_prev_free` / `block_set_prev_used` */
  function SetPrevFree(h: Heap, a: int, prevFree: bool): Heap
    requires a in h.blocks
  {
    h.(blocks := h.blocks[a := h.blocks[a].(prevFree := prevFree)])
  }

  /** `free_list_remove` */
  function Unlink(h: Heap, a: int): Heap
    requires Listed(h, a)
  {
    var c := Class(h.blocks[a].size);
    h.(lists := h.lists[c := Without(h.lists[c], a)])
  }

  /** `free_list_insert` */
  function Link(h: Heap, a: int): Heap
    requires a in h.blocks && Class(h.blocks[a].size) < |h.lists|
  {
    var c := Class(h.blocks[a].size);
    h.(lists := h.lists[c := [a] + h.lists[c]])
  }

  /** `block_split` */
  function SplitBlocks(blocks: map<int, Block>, a: int, size: nat): map<int, Block>
    requires a in blocks && End(blocks, a) in blocks
    requires size + HDR <= blocks[a].size
  {
    var rem := a + HDR + size;
    var after := End(blocks, a);
    blocks[after := blocks[after].(prev := rem)]
          [rem := Block(a, blocks[a].size - size - HDR, false, false)]
          [a := blocks[a].(size := size)]
  }

  /** Block `a` swallows its physical successor. */
  function AbsorbBlocks(blocks: map<int, Block>, a: int): map<int, Block>
    requires a in blocks && End(blocks, a) in blocks && End(blocks, End(blocks, a)) in blocks
  {
    var n := End(blocks, a);
    var after := End(blocks, n);
    blocks[after := blocks[after].(prev := a)]
          [a := blocks[a].(size := blocks[a].size + HDR + blocks[n].size)] - {n}
  }

  /** `merge_prev`: the merged heap and the surviving block */
  function MergePrev(h: Heap, a: int): (Heap, int)
    requires InTransit(h, a)
  {
    if h.blocks[a].prevFree then
      MergePrevSafe(h, a);
      var p := h.blocks[a].prev;
      var h1 := Unlink(h, p);
      (h1.(blocks := AbsorbBlocks(h1.blocks, p)), p)
    else (h, a)
  }

  /** `merge_next` */
  function MergeNext(h: Heap, a: int): Heap
    requires InTransit(h, a)
  {
    Neighbours(h.sent, h.blocks, a);
    var n := Next(h, a);
    if h.blocks[n].free then
      MergeNextSafe(h, a);
      var h1 := Unlink(h, n);
      h1.(blocks := AbsorbBlocks(h1.blocks, a))
    else h
  }

  /** The split step of allocation: keep `size` bytes of `a`, list the rest if it can hold a block. */
  function Carve(h: Heap, a: int, size: nat): Heap
    requires InTransit(h, a) && size % 8 == 0 && 0 < size <= h.blocks[a].size
  {
    if h.blocks[a].size - size >= HDR + MIN_PAYLOAD then
      CarveSafe(h, a, size);
      Link(h.(blocks := SplitBlocks(h.blocks, a, size)), a + HDR + size)
    else h
  }

  // ---------- geometry is kept by every step ----------

  lemma ListsUnlink(h: Heap, a: int)
    requires ListsOk(h) && Listed(h, a)
    ensures ListsOk(Unlink(h, a))
    ensures forall b :: Listed(Unlink(h, a), b) <==> Listed(h, b) && b != a
  {
    var c := Class(h.blocks[a].size);
    assert ListOk(h, c);
    WithoutMembers(h.lists[c], a);
    var h' := Unlink(h, a);
    forall d | 0 <= d < CLASSES
      ensures ListOk(h', d)
    {
      assert ListOk(h, d);
    }
  }

  lemma ListsLink(h: Heap, a: int)
    requires ListsOk(h) && a in h.blocks && a != h.sent && !Listed(h, a) && h.blocks[a].size < SIZE_LIMIT
    ensures Class(h.blocks[a].size) < CLASSES
    ensures ListsOk(Link(h, a))
    ensures forall b :: Listed(Link(h, a), b) <==> Listed(h, b) || b == a
  {
    ClassInTable(h.blocks[a].size);
    var c := Class(h.blocks[a].size);
    var h' := Link(h, a);
    forall d | 0 <= d < CLASSES
      ensures ListOk(h', d)
    {
      assert ListOk(h, d);
    }
  }

  /** Lists stay good when no listed block is dropped or resized. */
  lemma ListsReblock(h: Heap, blocks: map<int, Block>)
    requires ListsOk(h)
    requires forall a :: Listed(h, a) ==> a in blocks && blocks[a].size == h.blocks[a].size
    ensures ListsOk(h.(blocks := blocks))
    ensures forall a :: Listed(h.(blocks := blocks), a) <==> Listed(h, a)
  {
    forall d | 0 <= d < CLASSES
      ensures ListOk(h.(blocks := blocks), d)
    {
      assert ListOk(h, d);
      assert forall a :: a in h.lists[d] ==> Listed(h, a);
    }
    forall a | Listed(h.(blocks := blocks), a)
      ensures Listed(h, a)
    {
      assert ListOk(h, Class(blocks[a].size));
    }
  }

  /** What the invariant says around one block */
  lemma Neighbours(sent: int, blocks: map<int, Block>, a: int)
    requires Chain(sent, blocks) && a in blocks && a != sent
    ensures START <= a < sent && a % 8 == 0 && blocks[a].size % 8 == 0 && blocks[a].size >= 8
    ensures End(blocks, a) in blocks && blocks[End(blocks, a)].prev == a && End(blocks, a) <= sent
  {
    assert Linked(sent, blocks, a);
    assert Linked(sent, blocks, End(blocks, a));
  }

  lemma Multiples(a: int, b: int)
    requires a % 8 == 0 && b % 8 == 0
    ensures (a + HDR + b) % 8 == 0 && (a - b - HDR) % 8 == 0
    ensures (a + HDR + b) % 4 == 0 && (a + HDR + b + 4) % 4 == 0 && (a - b - HDR) % 4 == 0
  {
    var k, l := a / 8, b / 8;
    assert a + HDR + b == 8 * (k + 1 + l) && a - b - HDR == 8 * (k - l - 1);
    EightTimes(k + 1 + l);
    EightTimes(k - l - 1);
  }

  lemma EightTimes(x: int)
    ensures 8 * x % 8 == 0 && 8 * x % 4 == 0 && (8 * x + 4) % 4 == 0
  {
    assert 8 * x == 4 * (2 * x);
  }

  lemma Quarter(x: int)
    requires x % 8 == 0
    ensures x % 4 == 0
  {
    assert x == 8 * (x / 8);
    EightTimes(x / 8);
  }

  lemma StartsAfter(sent: int, blocks: map<int, Block>, a: int, x: int)
    requires Chain(sent, blocks) && a in blocks && x in blocks && a < x
    ensures End(blocks, a) <= x
  {
    assert Apart(blocks, a, x);
  }

  lemma NothingInside(sent: int, blocks: map<int, Block>, a: int, x: int)
    requires Chain(sent, blocks) && a in blocks && a < x < End(blocks, a)
    ensures x !in blocks
  {
    if x in blocks {
      StartsAfter(sent, blocks, a, x);
    }
  }

  lemma SplitLinked(sent: int, blocks: map<int, Block>, a: int, size: nat, b: int)
    requires Chain(sent, blocks)
    requires a in blocks && a != sent && size % 8 == 0 && size > 0 && size + HDR < blocks[a].size
    requires End(blocks, a) in blocks
    requires b in SplitBlocks(blocks, a, size)
    ensures Linked(sent, SplitBlocks(blocks, a, size), b)
  {
    var rem := a + HDR + size;
    var after := End(blocks, a);
    Neighbours(sent, blocks, a);
    NothingInside(sent, blocks, a, rem);
    Multiples(a, size);
    Multiples(blocks[a].size, size);
    assert Linked(sent, blocks, a) && Linked(sent, blocks, after);
    if b != rem {
      assert Linked(sent, blocks, b);
    }
  }

  lemma SplitApart(sent: int, blocks: map<int, Block>, a: int, size: nat, b: int, c: int)
    requires Chain(sent, blocks)
    requires a in blocks && a != sent && size + HDR < blocks[a].size
    requires End(blocks, a) in blocks
    requires b in SplitBlocks(blocks, a, size) && c in SplitBlocks(blocks, a, size) && b != c
    ensures Apart(SplitBlocks(blocks, a, size), b, c)
  {
    var rem := a + HDR + size;
    NothingInside(sent, blocks, a, rem);
    var b' := if b == rem then a else b;
    var c' := if c == rem then a else c;
    if b' != c' {
      assert Apart(blocks, b', c');
    }
  }

  lemma ChainSplit(sent: int, blocks: map<int, Block>, a: int, size: nat)
    requires Chain(sent, blocks)
    requires a in blocks && a != sent && size % 8 == 0 && size > 0 && size + HDR < blocks[a].size
    ensures End(blocks, a) in blocks && a + HDR + size !in blocks
    ensures Chain(sent, SplitBlocks(blocks, a, size))
  {
    Neighbours(sent, blocks, a);
    NothingInside(sent, blocks, a, a + HDR + size);
    var bs := SplitBlocks(blocks, a, size);
    forall b | b in bs
      ensures Linked(sent, bs, b)
    {
      SplitLinked(sent, blocks, a, size, b);
    }
    forall b, c | b in bs && c in bs && b != c
      ensures Apart(bs, b, c)
    {
      SplitApart(sent, blocks, a, size, b, c);
    }
  }

  lemma AbsorbLinked(sent: int, blocks: map<int, Block>, a: int, b: int)
    requires Chain(sent, blocks) && a in blocks && a != sent
    requires End(blocks, a) in blocks && End(blocks, a) != sent && End(blocks, End(blocks, a)) in blocks
    requires b in AbsorbBlocks(blocks, a)
    ensures Linked(sent, AbsorbBlocks(blocks, a), b)
  {
    var n := End(blocks, a);
    var after := End(blocks, n);
    Neighbours(sent, blocks, a);
    Neighbours(sent, blocks, n);
    assert Linked(sent, blocks, a) && Linked(sent, blocks, n) && Linked(sent, blocks, after);
    assert Linked(sent, blocks, b);
  }

  lemma ChainAbsorb(sent: int, blocks: map<int, Block>, a: int)
    requires Chain(sent, blocks) && a in blocks && a != sent
    requires End(blocks, a) != sent
    ensures End(blocks, a) in blocks && End(blocks, End(blocks, a)) in blocks
    ensures Chain(sent, AbsorbBlocks(blocks, a))
  {
    var n := End(blocks, a);
    Neighbours(sent, blocks, a);
    Neighbours(sent, blocks, n);
    var bs := AbsorbBlocks(blocks, a);
    forall b | b in bs
      ensures Linked(sent, bs, b)
    {
      AbsorbLinked(sent, blocks, a, b);
    }
    forall b, c | b in bs && c in bs && b != c
      ensures Apart(bs, b, c)
    {
      assert Apart(blocks, b, c);
      assert Apart(blocks, b, n) && Apart(blocks, n, c);
    }
  }

  // ---------- steps on a block in transit ----------

  /** Blocks other than `a` stay in the hands that had them, with their sizes. */
  ghost predicate Keeps(h: Heap, h': Heap, a: int)
  {
    forall b {:trigger Live(h, b)} {:trigger Live(h', b)} :: b != a ==>
      (Live(h, b) <==> Live(h', b)) && (Live(h, b) ==> h'.blocks[b].size == h.blocks[b].size)
  }

  lemma MergePrevSafe(h: Heap, a: int)
    requires InTransit(h, a) && h.blocks[a].prevFree
    ensures var p := h.blocks[a].prev;
            && Listed(h, p) && p != h.sent && a != START && End(h.blocks, p) == a
            && End(h.blocks, a) in h.blocks
  {
    Neighbours(h.sent, h.blocks, a);
    assert Linked(h.sent, h.blocks, a);
    assert PrevExact(h, a);
  }

  lemma MergeNextSafe(h: Heap, a: int)
    requires InTransit(h, a) && Next(h, a) in h.blocks && h.blocks[Next(h, a)].free
    ensures var n := Next(h, a);
            && Listed(h, n) && n != h.sent
            && End(h.blocks, n) in h.blocks
  {
    var n := Next(h, a);
    assert FreeSound(h, n);
    assert ListOk(h, Class(h.blocks[n].size));
    Neighbours(h.sent, h.blocks, n);
  }

  lemma CarveSafe(h: Heap, a: int, size: nat)
    requires InTransit(h, a) && size % 8 == 0 && 0 < size && size + HDR < h.blocks[a].size
    ensures End(h.blocks, a) in h.blocks && a + HDR + size !in h.blocks
    ensures Class(SplitBlocks(h.blocks, a, size)[a + HDR + size].size) < |h.lists|
    ensures var h1 := h.(blocks := SplitBlocks(h.blocks, a, size));
            Geometry(h1) && forall b :: Listed(h1, b) <==> Listed(h, b)
  {
    ChainSplit(h.sent, h.blocks, a, size);
    var h1 := h.(blocks := SplitBlocks(h.blocks, a, size));
    ListsReblock(h, h1.blocks);
    Neighbours(h.sent, h.blocks, a);
    ClassInTable(h1.blocks[a + HDR + size].size);
  }

  lemma CarveLists(h: Heap, a: int, size: nat)
    requires InTransit(h, a) && size % 8 == 0 && 0 < size && size + HDR < h.blocks[a].size
    ensures End(h.blocks, a) in h.blocks
    ensures var h' := Carve(h, a, size);
            && Geometry(h') && h'.blocks == SplitBlocks(h.blocks, a, size)
            && forall b :: Listed(h', b) <==> Listed(h, b) || b == a + HDR + size
  {
    var rem := a + HDR + size;
    CarveSafe(h, a, size);
    var h1 := h.(blocks := SplitBlocks(h.blocks, a, size));
    assert !Listed(h, rem) && !Listed(h1, rem);
    Neighbours(h.sent, h.blocks, a);
    ListsLink(h1, rem);
  }

  lemma CarveTransit(h: Heap, a: int, size: nat)
    requires InTransit(h, a) && size % 8 == 0 && 0 < size <= h.blocks[a].size
    requires Next(h, a) in h.blocks && h.blocks[Next(h, a)].prevFree
    ensures var h' := Carve(h, a, size);
            && InTransit(h', a) && size <= h'.blocks[a].size < size + HDR + MIN_PAYLOAD
            && h'.blocks[a].size <= h.blocks[a].size && h'.sent == h.sent
            && Keeps(h, h', a)
  {
    if h.blocks[a].size - size >= HDR + MIN_PAYLOAD {
      CarveSafe(h, a, size);
      CarveLists(h, a, size);
      Neighbours(h.sent, h.blocks, a);
      var h' := Carve(h, a, size);
      forall b | b in h'.blocks && b != Next(h', a)
        ensures PrevExact(h', b)
      {
        assert Linked(h'.sent, h'.blocks, b);
        if b in h.blocks && b != Next(h, a) {
          assert PrevExact(h, b);
        }
      }
      forall b | b in h'.blocks && b != a
        ensures FreeSound(h', b)
      {
        assert b in h.blocks ==> FreeSound(h, b);
      }
    }
  }

  lemma MergePrevLists(h: Heap, a: int)
    requires InTransit(h, a) && h.blocks[a].prevFree
    ensures var p := h.blocks[a].prev;
            var (h', _) := MergePrev(h, a);
            && Listed(h, p) && p < a && p != h.sent && End(h.blocks, p) == a && End(h.blocks, a) in h.blocks
            && Geometry(h') && h'.blocks == AbsorbBlocks(h.blocks, p)
            && forall b :: Listed(h', b) <==> Listed(h, b) && b != p
  {
    MergePrevSafe(h, a);
    var p := h.blocks[a].prev;
    ListsUnlink(h, p);
    var h1 := Unlink(h, p);
    ChainAbsorb(h.sent, h.blocks, p);
    ListsReblock(h1, AbsorbBlocks(h.blocks, p));
  }

  lemma MergePrevTransit(h: Heap, a: int)
    requires InTransit(h, a)
    ensures var (h', p) := MergePrev(h, a);
            && InTransit(h', p) && h'.sent == h.sent
            && p <= a && End(h'.blocks, p) == End(h.blocks, a)
            && (forall b {:trigger Live(h, b)} {:trigger Live(h', b)} :: b != a && b != p ==>
                 (Live(h, b) <==> Live(h', b)) && (Live(h, b) ==> h'.blocks[b].size == h.blocks[b].size))
            && (p != a ==> !Live(h, p) && !Live(h', a))
  {
    if h.blocks[a].prevFree {
      MergePrevLists(h, a);
      var (h', p) := MergePrev(h, a);
      forall b | b in h'.blocks && b != Next(h', p)
        ensures PrevExact(h', b)
      {
        assert Linked(h'.sent, h'.blocks, b) && Linked(h.sent, h.blocks, b);
        assert PrevExact(h, b);
      }
      forall b | b in h'.blocks && b != p
        ensures FreeSound(h', b)
      {
        assert FreeSound(h, b);
      }
    }
  }

  lemma MergeNextLists(h: Heap, a: int)
    requires InTransit(h, a) && Next(h, a) in h.blocks && h.blocks[Next(h, a)].free
    ensures var n := Next(h, a);
            var h' := MergeNext(h, a);
            && Listed(h, n) && n != h.sent && End(h.blocks, n) in h.blocks
            && Geometry(h') && h'.blocks == AbsorbBlocks(h.blocks, a)
            && forall b :: Listed(h', b) <==> Listed(h, b) && b != n
  {
    MergeNextSafe(h, a);
    var n := Next(h, a);
    ListsUnlink(h, n);
    var h1 := Unlink(h, n);
    ChainAbsorb(h.sent, h.blocks, a);
    ListsReblock(h1, AbsorbBlocks(h.blocks, a));
  }

  lemma MergeNextTransit(h: Heap, a: int)
    requires InTransit(h, a)
    ensures var h' := MergeNext(h, a);
            && InTransit(h', a) && h'.sent == h.sent
            && Keeps(h, h', a)
            && End(h.blocks, a) <= End(h'.blocks, a)
  {
    Neighbours(h.sent, h.blocks, a);
    var n := Next(h, a);
    if h.blocks[n].free {
      MergeNextLists(h, a);
      var h' := MergeNext(h, a);
      forall b | b in h'.blocks && b != Next(h', a)
        ensures PrevExact(h', b)
      {
        assert Linked(h'.sent, h'.blocks, b) && Linked(h.sent, h.blocks, b);
        assert PrevExact(h, b);
      }
      forall b | b in h'.blocks && b != a
        ensures FreeSound(h', b)
      {
        assert FreeSound(h, b);
      }
    }
  }

  lemma SetFreeGeometry(h: Heap, a: int, free: bool)
    requires Geometry(h) && a in h.blocks
    ensures Geometry(SetFree(h, a, free))
    ensures forall b :: Listed(SetFree(h, a, free), b) <==> Listed(h, b)
  {
    SameShape(h, SetFree(h, a, free).blocks);
  }

  lemma SetPrevFreeGeometry(h: Heap, a: int, prevFree: bool)
    requires Geometry(h) && a in h.blocks
    ensures Geometry(SetPrevFree(h, a, prevFree))
    ensures forall b :: Listed(SetPrevFree(h, a, prevFree), b) <==> Listed(h, b)
  {
    SameShape(h, SetPrevFree(h, a, prevFree).blocks);
  }

  /** Flags do not matter to the geometry. */
  lemma SameShape(h: Heap, blocks: map<int, Block>)
    requires Geometry(h) && blocks.Keys == h.blocks.Keys
    requires forall b :: b in blocks ==> blocks[b].size == h.blocks[b].size && blocks[b].prev == h.blocks[b].prev
    ensures Geometry(h.(blocks := blocks))
    ensures forall b :: Listed(h.(blocks := blocks), b) <==> Listed(h, b)
  {
    ListsReblock(h, blocks);
    forall b | b in blocks
      ensures Linked(h.sent, blocks, b)
    {
      assert Linked(h.sent, h.blocks, b);
    }
    forall b, c | b in blocks && c in blocks && b != c
      ensures Apart(blocks, b, c)
    {
      assert Apart(h.blocks, b, c);
    }
  }

  lemma TakeTransit(h: Heap, a: int)
    requires Inv(h) && Listed(h, a)
    ensures var h' := Unlink(h, a);
            InTransit(h', a) && Next(h', a) in h'.blocks && h'.blocks[Next(h', a)].prevFree && Keeps(h, h', a)
  {
    ListsUnlink(h, a);
    assert ListOk(h, Class(h.blocks[a].size));
    Neighbours(h.sent, h.blocks, a);
    var h' := Unlink(h, a);
    assert Linked(h.sent, h.blocks, a);
    assert PrevExact(h, Next(h, a));
    forall b | b in h'.blocks && b != Next(h', a)
      ensures PrevExact(h', b)
    {
      assert PrevExact(h, b) && Linked(h.sent, h.blocks, b);
    }
    forall b | b in h'.blocks && b != a
      ensures FreeSound(h', b)
    {
      assert FreeSound(h, b);
    }
  }

  /** The last steps of allocation: the block is used, and its successor knows. */
  function Commit(h: Heap, a: int): Heap
    requires InTransit(h, a)
  {
    Neighbours(h.sent, h.blocks, a);
    var h1 := SetFree(h, a, false);
    SetPrevFree(h1, Next(h1, a), false)
  }

  lemma CommitInv(h: Heap, a: int)
    requires InTransit(h, a)
    ensures Inv(Commit(h, a)) && Live(Commit(h, a), a)
    ensures Keeps(h, Commit(h, a), a) && Commit(h, a).blocks[a].size == h.blocks[a].size && Commit(h, a).sent == h.sent
  {
    Neighbours(h.sent, h.blocks, a);
    SetFreeGeometry(h, a, false);
    var h1 := SetFree(h, a, false);
    SetPrevFreeGeometry(h1, Next(h1, a), false);
    var h' := Commit(h, a);
    forall b | b in h'.blocks
      ensures PrevExact(h', b) && FreeSound(h', b)
    {
      assert Linked(h.sent, h.blocks, b);
      assert b != Next(h, a) ==> PrevExact(h, b);
      assert b != a ==> FreeSound(h, b);
    }
  }

  /** The last steps of freeing: the successor learns that its predecessor is free, and the block is listed. */
  function Shelve(h: Heap, a: int): Heap
    requires InTransit(h, a)
  {
    Neighbours(h.sent, h.blocks, a);
    ClassInTable(h.blocks[a].size);
    Link(SetPrevFree(h, Next(h, a), true), a)
  }

  lemma ShelveInv(h: Heap, a: int)
    requires InTransit(h, a)
    ensures Inv(Shelve(h, a)) && Listed(Shelve(h, a), a)
    ensures Keeps(h, Shelve(h, a), a) && Shelve(h, a).sent == h.sent
  {
    Neighbours(h.sent, h.blocks, a);
    SetPrevFreeGeometry(h, Next(h, a), true);
    var h1 := SetPrevFree(h, Next(h, a), true);
    ListsLink(h1, a);
    var h' := Shelve(h, a);
    forall b | b in h'.blocks
      ensures PrevExact(h', b) && FreeSound(h', b)
    {
      assert Linked(h.sent, h.blocks, b);
      assert b != Next(h, a) ==> PrevExact(h, b);
      assert b != a ==> FreeSound(h, b);
    }
  }

  lemma ShelveLists(h: Heap, a: int)
    requires InTransit(h, a)
    ensures var h' := Shelve(h, a);
            && h'.blocks.Keys == h.blocks.Keys
            && (forall b :: Listed(h', b) <==> Listed(h, b) || b == a)
            && (forall b :: b in h.blocks ==> h'.blocks[b].size == h.blocks[b].size)
            && (h'.blocks[a].prevFree == h.blocks[a].prevFree)
  {
    Neighbours(h.sent, h.blocks, a);
    SetPrevFreeGeometry(h, Next(h, a), true);
    ListsLink(SetPrevFree(h, Next(h, a), true), a);
  }

  lemma ReturnTransit(h: Heap, a: int)
    requires Inv(h) && Live(h, a)
    ensures InTransit(SetFree(h, a, true), a) && Keeps(h, SetFree(h, a, true), a)
    ensures !h.blocks[a].free
  {
    SetFreeGeometry(h, a, true);
    assert FreeSound(h, a);
    var h' := SetFree(h, a, true);
    forall b | b in h'.blocks && b != Next(h', a)
      ensures PrevExact(h', b)
    {
      assert PrevExact(h, b);
    }
    forall b | b in h'.blocks && b != a
      ensures FreeSound(h', b)
    {
      assert FreeSound(h, b);
    }
  }

  // ---------- allocation and freeing ----------

  /** The first non-empty list at or after `c`; |lists| when there is none */
  function FirstFrom(lists: seq<seq<int>>, c: nat): (d: nat)
    requires c <= |lists|
    ensures c <= d <= |lists|
    ensures d < |lists| ==> lists[d] != []
    ensures forall e :: c <= e < d ==> lists[e] == []
    decreases |lists| - c
  {
    if c == |lists| || lists[c] != [] then c else FirstFrom(lists, c + 1)
  }

  /** The payload `vibe_heap_alloc` looks for: at least the request, unless aligning that up wraps */
  function Request(n: nat): (r: nat)
    ensures r % 8 == 0 && r >= MIN_PAYLOAD && r < WORD
    ensures n <= LARGEST ==> n <= r && (n > 0 ==> r < n + 8)
    ensures LARGEST < n < WORD ==> r == MIN_PAYLOAD
  {
    if AlignUp(n) < MIN_PAYLOAD then MIN_PAYLOAD else AlignUp(n)
  }

  /** The table index is only defined for requests whose bucket is below 2^23. */
  predicate Admissible(n: nat) { n < WORD && Bucket(Request(n)) < SIZE_LIMIT }

  /** `locate_free`: head of the first non-empty list from the request's bucket on, or NULL */
  function Locate(h: Heap, size: nat): int
    requires |h.lists| == CLASSES && Bucket(size) < SIZE_LIMIT
  {
    InTable(size);
    var c := FirstFrom(h.lists, Class(RoundUp(size)));
    if c == CLASSES then NULL else h.lists[c][0]
  }

  lemma InTable(size: nat)
    requires Bucket(size) < SIZE_LIMIT
    ensures RoundUp(size) == Bucket(size) && Class(RoundUp(size)) < CLASSES
  {
    BucketBounds(size);
    RoundUpIsBucket(size);
    ClassInTable(Bucket(size));
  }

  /** The search is as good as a linear one over all free blocks, for the rounded request. */
  lemma LocateIsSearch(h: Heap, size: nat)
    requires Geometry(h) && Bucket(size) < SIZE_LIMIT && size % 8 == 0
    ensures Locate(h, size) != NULL ==>
              Listed(h, Locate(h, size)) && h.blocks[Locate(h, size)].size >= RoundUp(size) >= size
    ensures Locate(h, size) == NULL <==> forall a :: Listed(h, a) ==> h.blocks[a].size < RoundUp(size)
    ensures Locate(h, size) != NULL ==>
              forall a :: Listed(h, a) && h.blocks[a].size >= RoundUp(size) ==>
                Class(h.blocks[Locate(h, size)].size) <= Class(h.blocks[a].size)
  {
    InTable(size);
    BucketBounds(size);
    var c := FirstFrom(h.lists, Class(RoundUp(size)));
    if c < CLASSES {
      var a := h.lists[c][0];
      assert ListOk(h, c);
      assert Linked(h.sent, h.blocks, a);
      BucketIsClassMinimum(size, h.blocks[a].size);
      assert Listed(h, a);
      forall b | Listed(h, b) && h.blocks[b].size >= RoundUp(size)
        ensures c <= Class(h.blocks[b].size)
      {
        ClassMonotone(RoundUp(size), h.blocks[b].size);
      }
    } else {
      forall a | Listed(h, a)
        ensures h.blocks[a].size < RoundUp(size)
      {
        if RoundUp(size) <= h.blocks[a].size {
          ClassMonotone(RoundUp(size), h.blocks[a].size);
        }
      }
    }
  }

  /** Allocation from a given free block */
  function Obtained(h: Heap, a: int, size: nat): Heap
    requires Inv(h) && Listed(h, a) && size % 8 == 0 && 0 < size <= h.blocks[a].size
  {
    TakeTransit(h, a);
    CarveTransit(Unlink(h, a), a, size);
    Commit(Carve(Unlink(h, a), a, size), a)
  }

  /** `vibe_heap_alloc`: the new heap and the user pointer */
  function Allocate(h: Heap, n: nat): (Heap, int)
    requires Inv(h) && Admissible(n)
  {
    if n == 0 then (h, NULL)
    else
      var size := Request(n);
      var a := Locate(h, size);
      LocateIsSearch(h, size);
      if a == NULL then (h, NULL)
      else
        (Obtained(h, a, size), a + HDR)
  }

  /** Freeing, after the backward merge: merge forward and list. */
  function Settled(h: Heap, b: int): Heap
    requires InTransit(h, b)
  {
    MergeNextTransit(h, b);
    Shelve(MergeNext(h, b), b)
  }

  /** `vibe_heap_free` of a live pointer */
  function Release(h: Heap, p: int): Heap
    requires Inv(h) && Live(h, p - HDR)
  {
    var a := p - HDR;
    ReturnTransit(h, a);
    var h1 := SetFree(h, a, true);
    MergePrevTransit(h1, a);
    var (h2, b) := MergePrev(h1, a);
    Settled(h2, b)
  }

  /**
   Allocation: it keeps the invariant, hands out a block that was free and is large enough,
   leaves every other block in its hands, and fails, changing nothing, exactly when no free
   block reaches the rounded request.
   */
  lemma AllocateCorrect(h: Heap, n: nat)
    requires Inv(h) && Admissible(n)
    ensures var (h', p) := Allocate(h, n);
            && Inv(h') && h'.sent == h.sent
            && (p == NULL ==> h' == h)
            && (p == NULL <==> n == 0 || forall a :: Listed(h, a) ==> h.blocks[a].size < RoundUp(Request(n)))
            && (p != NULL ==>
                 && Listed(h, p - HDR) && Live(h', p - HDR) && Keeps(h, h', p - HDR)
                 && Request(n) <= h'.blocks[p - HDR].size < Request(n) + HDR + MIN_PAYLOAD
                 && (n <= h'.blocks[p - HDR].size <==> n <= LARGEST))
  {
    if n != 0 {
      var a := Locate(h, Request(n));
      LocateIsSearch(h, Request(n));
      if a != NULL {
        assert Linked(h.sent, h.blocks, a);
        TakeTransit(h, a);
        var h1 := Unlink(h, a);
        CarveTransit(h1, a, Request(n));
        var h2 := Carve(h1, a, Request(n));
        CommitInv(h2, a);
      }
    }
  }

  /**
   The block handed out was in the lowest class that holds a block of the rounded request or more, and of
   its class the one listed last.
   */
  lemma TakesGoodFit(h: Heap, n: nat)
    requires Inv(h) && Admissible(n) && Allocate(h, n).1 != NULL
    ensures var a := Allocate(h, n).1 - HDR;
            && Listed(h, a) && h.lists[Class(h.blocks[a].size)][0] == a
            && forall b :: Listed(h, b) && h.blocks[b].size >= RoundUp(Request(n)) ==>
                 Class(h.blocks[a].size) <= Class(h.blocks[b].size)
  {
    hide Class, Request, RoundUp, Bucket, Obtained;
    var size := Request(n);
    LocateIsSearch(h, size);
    InTable(size);
    var c := FirstFrom(h.lists, Class(RoundUp(size)));
    assert ListOk(h, c);
    assert h.lists[c][0] in h.lists[c];
  }

  /** Freeing: it keeps the invariant and takes back that block and no other. */
  lemma ReleaseCorrect(h: Heap, p: int)
    requires Inv(h) && Live(h, p - HDR)
    ensures var h' := Release(h, p);
            Inv(h') && h'.sent == h.sent && !Live(h', p - HDR) && Keeps(h, h', p - HDR)
  {
    var a := p - HDR;
    ReturnTransit(h, a);
    var h1 := SetFree(h, a, true);
    MergePrevTransit(h1, a);
    var (h2, b) := MergePrev(h1, a);
    MergeNextTransit(h2, b);
    var h3 := MergeNext(h2, b);
    ShelveInv(h3, b);
    var h' := Shelve(h3, b);
    if b != a {
      assert !Live(h2, a);
      assert !Live(h3, a) && !Live(h', a);
      assert !Live(h1, b) && !Live(h', b);
    }
  }

  // ---------- the initial heap ----------

  /** The pool is a multiple of the alignment, holds one minimal block, and fits the class table. */
  predicate PoolOk(poolSize: int)
  {
    poolSize % 8 == 0 && START + HDR + MIN_PAYLOAD + HDR <= poolSize && poolSize - HDR < SIZE_LIMIT
  }

  /** One block up to the sentinel, not yet listed */
  function Unlisted(poolSize: int): Heap
    requires PoolOk(poolSize)
  {
    var sent := poolSize - HDR;
    Heap(sent,
         map[START := Block(NULL, sent - START - HDR, true, false), sent := Block(START, 0, false, true)],
         seq(CLASSES, _ => []))
  }

  /** `tlsf_init` */
  function Initial(poolSize: int): Heap
    requires PoolOk(poolSize)
  {
    ClassInTable(Unlisted(poolSize).blocks[START].size);
    Link(Unlisted(poolSize), START)
  }

  lemma UnlistedGeometry(poolSize: int)
    requires PoolOk(poolSize)
    ensures Geometry(Unlisted(poolSize)) && Live(Unlisted(poolSize), START)
    ensures forall a :: !Listed(Unlisted(poolSize), a)
  {
    var h := Unlisted(poolSize);
    forall c | 0 <= c < CLASSES
      ensures ListOk(h, c)
    {
      assert h.lists[c] == [];
    }
  }

  lemma InitialInv(poolSize: int)
    requires PoolOk(poolSize)
    ensures Inv(Initial(poolSize)) && forall a :: !Live(Initial(poolSize), a)
    ensures Listed(Initial(poolSize), START) && Initial(poolSize).sent == poolSize - HDR
    ensures End(Initial(poolSize).blocks, START) == poolSize - HDR
  {
    UnlistedGeometry(poolSize);
    ListsLink(Unlisted(poolSize), START);
    var h := Initial(poolSize);
    forall b | b in h.blocks
      ensures PrevExact(h, b) && FreeSound(h, b)
    {
    }
  }

  /** `vibe_heap_realloc` of a block that has to grow */
  function Grown(h: Heap, p: int, n: nat): (Heap, int)
    requires Inv(h) && Admissible(n) && Live(h, p - HDR)
  {
    AllocateCorrect(h, n);
    var (h1, q) := Allocate(h, n);
    if q == NULL then (h, NULL)
    else
      assert Live(h, p - HDR);
      (Release(h1, p), q)
  }

  /** After the allocation step of a growing realloc, caller holds both blocks. */
  lemma GrowHolds(h: Heap, p: int, n: nat)
    requires Inv(h) && Admissible(n) && Live(h, p - HDR)
    ensures var (h1, q) := Allocate(h, n);
            if q == NULL then h1 == h else
              && Live(h1, p - HDR) && h1.blocks[p - HDR].size == h.blocks[p - HDR].size
              && Live(h1, q - HDR) && !Live(h, q - HDR) && Keeps(h, h1, q - HDR)
              && (n <= LARGEST ==> n <= h1.blocks[q - HDR].size)
  {
    hide Obtained, Locate;
    AllocateCorrect(h, n);
    assert Live(h, p - HDR);
  }

  /** `vibe_heap_realloc` */
  function Reallocate(h: Heap, p: int, n: nat): (Heap, int)
    requires Inv(h) && Admissible(n) && (p == NULL || Live(h, p - HDR))
  {
    if p == NULL then Allocate(h, n)
    else if n == 0 then (Release(h, p), NULL)
    else if AlignUp(n) <= h.blocks[p - HDR].size then (h, p)
    else Grown(h, p, n)
  }

  /** Everybody but the holders of `a` and `b` keeps what they have. */
  ghost predicate KeepsTwo(h: Heap, h': Heap, a: int, b: int)
  {
    forall c {:trigger Live(h, c)} {:trigger Live(h', c)} :: c != a && c != b ==>
      (Live(h, c) <==> Live(h', c)) && (Live(h, c) ==> h'.blocks[c].size == h.blocks[c].size)
  }

  /**
   Resizing: a block that is large enough is kept.  Otherwise the resize fails, changing nothing, exactly
   when no free block reaches the rounded request; and if it does not fail, the caller holds a block that
   was free and is large enough, in exchange for the old one, and everybody else what they held.  NULL is
   resized by an allocation.
   */
  lemma ReallocateCorrect(h: Heap, p: int, n: nat)
    requires Inv(h) && Admissible(n) && (p != NULL ==> Live(h, p - HDR))
    ensures p == NULL ==> Reallocate(h, p, n) == Allocate(h, n)
    ensures p != NULL ==>
            var (h', q) := Reallocate(h, p, n);
            && Inv(h') && h'.sent == h.sent
            && (n == 0 ==> q == NULL && !Live(h', p - HDR) && Keeps(h, h', p - HDR))
            && (n > 0 && AlignUp(n) <= h.blocks[p - HDR].size ==> h' == h && q == p)
            && (n > 0 && AlignUp(n) > h.blocks[p - HDR].size ==>
                  && (q == NULL <==> forall a :: Listed(h, a) ==> h.blocks[a].size < RoundUp(Request(n)))
                  && (q == NULL ==> h' == h)
                  && (q != NULL ==>
                        && Listed(h, q - HDR) && Live(h', q - HDR) && n <= h'.blocks[q - HDR].size
                        && !Live(h', p - HDR) && KeepsTwo(h, h', p - HDR, q - HDR)))
  {
    hide Allocate, Release, RoundUp, Request;
    if p != NULL && n == 0 {
      ReleaseCorrect(h, p);
    } else if p != NULL && AlignUp(n) > h.blocks[p - HDR].size {
      Neighbours(h.sent, h.blocks, p - HDR);
      TooSmall(h.blocks[p - HDR].size, n);
      AllocateCorrect(h, n);
      GrowHolds(h, p, n);
      var (h1, q) := Allocate(h, n);
      if q != NULL {
        ReleaseCorrect(h1, p);
        Exchanged(h, h1, Release(h1, p), p - HDR, q - HDR);
      }
    }
  }

  lemma Exchanged(h: Heap, h1: Heap, h': Heap, a: int, b: int)
    requires Keeps(h, h1, b) && Keeps(h1, h', a) && a != b && Live(h1, b)
    ensures KeepsTwo(h, h', a, b) && Live(h', b) && h'.blocks[b].size == h1.blocks[b].size
  {
  }

  /** A block that is too small for the aligned size is too small for the size itself. */
  lemma TooSmall(size: nat, n: nat)
    requires size % 8 == 0 && size < AlignUp(n) && n < WORD
    ensures size < n <= LARGEST
  {
  }

  // ---------- the statistics walk ----------

  datatype Stats = Stats(used: nat, free: nat, largest: nat, allocs: nat, frees: nat)
  {
    /** Account for one block, by its IS_FREE flag. */
    function Add(b: Block): Stats
    {
      if b.free
      then this.(free := free + b.size, frees := frees + 1, largest := if b.size > largest then b.size else largest)
      else this.(used := used + b.size, allocs := allocs + 1)
    }
  }

  /** The accumulators of `vibe_heap_stats` when the walk goes on from `a` with `s` so far */
  function StatsFrom(h: Heap, a: int, s: Stats): Stats
    requires Chain(h.sent, h.blocks) && a in h.blocks
    decreases h.sent - a
  {
    if a == h.sent then s
    else
      Neighbours(h.sent, h.blocks, a);
      StatsFrom(h, Next(h, a), s.Add(h.blocks[a]))
  }

  /** The bytes of the blocks from `a` on whose IS_FREE flag is as given */
  function BytesFrom(h: Heap, a: int, free: bool): nat
    requires Chain(h.sent, h.blocks) && a in h.blocks
    decreases h.sent - a
  {
    if a == h.sent then 0
    else
      Neighbours(h.sent, h.blocks, a);
      (if h.blocks[a].free == free then h.blocks[a].size else 0) + BytesFrom(h, Next(h, a), free)
  }

  /**
   The walk reports the bytes of flagged and of other blocks apart, and of the flagged ones the largest:
   none is larger, and one is as large.
   */
  lemma {:induction false} StatsExact(h: Heap, a: int, s: Stats)
    requires Chain(h.sent, h.blocks) && a in h.blocks
    ensures var t := StatsFrom(h, a, s);
            && t.used == s.used + BytesFrom(h, a, false) && t.free == s.free + BytesFrom(h, a, true)
            && s.largest <= t.largest
            && (forall b :: b in h.blocks && a <= b < h.sent && h.blocks[b].free ==> h.blocks[b].size <= t.largest)
            && (t.largest != s.largest ==>
                  exists b :: b in h.blocks && a <= b < h.sent && h.blocks[b].free && h.blocks[b].size == t.largest)
    decreases h.sent - a
  {
    if a != h.sent {
      Neighbours(h.sent, h.blocks, a);
      var s1 := s.Add(h.blocks[a]);
      StatsExact(h, Next(h, a), s1);
      var t := StatsFrom(h, a, s);
      forall b | b in h.blocks && a <= b < h.sent && h.blocks[b].free
        ensures h.blocks[b].size <= t.largest
      {
        if b != a {
          StartsAfter(h.sent, h.blocks, a, b);
        }
      }
    }
  }
}
