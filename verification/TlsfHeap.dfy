/**
 The allocator's operations (lib/heap/heap_tlsf.c) on memory words and bitmaps.  Each
 refines the corresponding function of TlsfModel, the ghost field `h` being the heap the
 words represent, and leaves the payloads of all other live blocks alone.
 */
module TlsfHeap {
  import opened Bits32
  import opened Seqs
  import opened HeapSizes
  import opened TlsfMapping
  import opened TlsfModel
  import opened TlsfMemory

  class Tlsf {
    const poolSize: int        // CONFIG_HEAP_SIZE
    var mem: Memory
    var flBitmap: nat
    var slBitmap: seq<nat>
    var head: seq<int>         // free[20][8], row by row
    var ready: bool            // g_ctl != NULL
    ghost var h: Heap

    ghost predicate Rep()
      reads this
    {
      && poolSize == h.sent + HDR
      && Words(mem, poolSize)
      && Headers(mem, h.blocks)
      && AllLinks(mem, h.lists)
      && Heads(head, h.lists)
      && Bitmaps(flBitmap, slBitmap, h.lists)
    }

    /** `block_size`, `block_is_free` and `block_prev_is_free` */
    method ReadHeader(a: int) returns (size: nat, free: bool, prevFree: bool)
      requires Rep() && Geometry(h) && a in h.blocks
      ensures size == h.blocks[a].size && free == h.blocks[a].free && prevFree == h.blocks[a].prevFree
    {
      hide BlockSize, IsFree, IsPrevFree, Pack, Bitmaps, Heads, AllLinks, ListsOk;
      assert HeaderAt(mem, h.blocks, a);
      assert Linked(h.sent, h.blocks, a);
      Quarter(h.blocks[a].size);
      PackedFields(h.blocks[a], 0);
      size, free, prevFree := BlockSize(mem[a + 4]), IsFree(mem[a + 4]), IsPrevFree(mem[a + 4]);
    }

    /** Where `mapping` sends the block */
    method RowAndColumn(a: int) returns (fl: nat, sl: nat)
      requires Rep() && Geometry(h) && a in h.blocks && a != h.sent
      ensures fl < FL_COUNT && sl < SL_COUNT && SL_COUNT * fl + sl == Class(h.blocks[a].size) < CLASSES
    {
      var size, _, _ := ReadHeader(a);
      Neighbours(h.sent, h.blocks, a);
      MappingIsClass(size);
      ClassInTable(size);
      var (f, s) := Mapping(size);
      fl, sl := f, s;
    }

    method FreeListInsert(a: int)
      requires Rep() && Geometry(h) && Live(h, a)
      requires Class(h.blocks[a].size) < |h.lists|
      modifies `mem, `flBitmap, `slBitmap, `head, `h
      ensures Rep() && h == Link(old(h), a)
      ensures Untouched(old(h), old(mem), mem, a)
    {
      var fl, sl := RowAndColumn(a);
      var c := SL_COUNT * fl + sl;
      PushStep(h, mem, poolSize, c, a);
      ListsAfterPush(h, mem, c, a);
      BitmapsSet(flBitmap, slBitmap, h.lists, fl, sl, [a] + h.lists[c]);

      var first := head[c];
      mem := mem[a + 8 := first];
      mem := mem[a + 12 := NULL_BLOCK];
      if first != NULL_BLOCK {
        mem := mem[first + 12 := a];
      }
      head := head[c := a];
      flBitmap := SetBit(flBitmap, fl);
      slBitmap := slBitmap[fl := SetBit(slBitmap[fl], sl)];
      h := Link(h, a);
    }

    method FreeListRemove(a: int, ghost t: int)
      requires Rep() && Geometry(h) && Listed(h, a)
      modifies `mem, `flBitmap, `slBitmap, `head, `h
      ensures Rep() && h == Unlink(old(h), a)
      ensures Untouched(old(h), old(mem), mem, t)
    {
      ghost var k := PlaceInList(h, mem, a);
      var fl, sl := RowAndColumn(a);
      ListsAfterSplice(h, mem, SL_COUNT * fl + sl, k);
      Bypass(a, k, t);
      TakeHead(fl, sl, a, mem[a + 8], k);
      h := Unlink(h, a);
    }

    /** The link part of `free_list_remove`, for the block at index `k` of its list */
    method Bypass(a: int, ghost k: nat, ghost t: int)
      requires Rep() && Geometry(h) && Listed(h, a)
      requires var s := h.lists[Class(h.blocks[a].size)]; NoDup(s) && k < |s| && s[k] == a
      modifies `mem
      ensures Words(mem, poolSize) && Headers(mem, h.blocks)
      ensures mem == Spliced(old(mem), h.lists[Class(h.blocks[a].size)], k)
      ensures a + 8 in mem && mem[a + 8] == First(h.lists[Class(h.blocks[a].size)][k + 1..])
      ensures Untouched(h, old(mem), mem, t)
    {
      ghost var k' := PlaceInList(h, mem, a);
      PayloadIsMapped(h, mem, poolSize);
      WriteLink(h, mem, mem, poolSize, t, mem[a + 12], 8, mem[a + 8]);
      mem := mem[mem[a + 12] + 8 := mem[a + 8]];
      assert mem[a + 8] == old(mem)[a + 8] && mem[a + 12] == old(mem)[a + 12];
      WriteLink(h, old(mem), mem, poolSize, t, mem[a + 8], 12, mem[a + 12]);
      mem := mem[mem[a + 8] + 12 := mem[a + 12]];
      assert mem[a + 8] == old(mem)[a + 8];
    }

    /** The head and bitmap part of `free_list_remove`, for the block at index `k` of its list */
    method TakeHead(fl: nat, sl: nat, a: int, next: int, ghost k: nat)
      requires fl < FL_COUNT && sl < SL_COUNT
      requires Heads(head, h.lists) && Bitmaps(flBitmap, slBitmap, h.lists)
      requires var s := h.lists[SL_COUNT * fl + sl];
               && k < |s| && NoDup(s) && s[k] == a && next == First(s[k + 1..])
               && (next == NULL_BLOCK <==> k == |s| - 1)
      modifies `flBitmap, `slBitmap, `head
      ensures var s := h.lists[SL_COUNT * fl + sl];
              var lists' := h.lists[SL_COUNT * fl + sl := s[..k] + s[k + 1..]];
              Heads(head, lists') && Bitmaps(flBitmap, slBitmap, lists')
    {
      var c := SL_COUNT * fl + sl;
      ghost var s := h.lists[c];
      ghost var t := s[..k] + s[k + 1..];
      if head[c] == a {
        head := head[c := next];
        if next == NULL_BLOCK {
          BitmapsClear(flBitmap, slBitmap, h.lists, fl, sl);
          assert t == [];
          slBitmap := slBitmap[fl := ClearBit(slBitmap[fl], sl)];
          if slBitmap[fl] == 0 {
            flBitmap := ClearBit(flBitmap, fl);
          }
        } else {
          BitmapsSame(flBitmap, slBitmap, h.lists, c, t);
        }
      } else {
        BitmapsSame(flBitmap, slBitmap, h.lists, c, t);
      }
    }

    /** `locate_free`: two bit scans instead of a search */
    method LocateFree(size: nat) returns (a: int)
      requires Rep() && Geometry(h) && size % 8 == 0 && Bucket(size) < SIZE_LIMIT
      ensures a == if size == 0 then NULL else Locate(h, size)
    {
      if size == 0 {
        return NULL;
      }
      var (fl, sl) := Mapping(RoundUp(size));
      MappingIsClass(RoundUp(size));
      InTable(size);
      BitmapSearch(flBitmap, slBitmap, h.lists, fl, sl);

      var slMap := BitsFrom(slBitmap[fl], sl);
      if slMap == 0 {
        var flMap := BitsFrom(flBitmap, fl + 1);
        if flMap == 0 {
          return NULL;
        }
        fl := Ctz(flMap);
        slMap := slBitmap[fl];
      }
      sl := Ctz(slMap);
      a := head[SL_COUNT * fl + sl];
      assert ListOk(h, SL_COUNT * fl + sl);
      assert Linked(h.sent, h.blocks, a);
      a := if a != NULL_BLOCK then a else NULL;
    }

    /** Overwrite the `size_flags` word of a block, leaving its size as it is. */
    method SetFlags(a: int, w: int, ghost b: Block, ghost t: int)
      requires Rep() && Geometry(h) && a in h.blocks
      requires w == Pack(b) && b.prev == h.blocks[a].prev && b.size == h.blocks[a].size
      modifies `mem, `h
      ensures Rep() && h == old(h).(blocks := old(h).blocks[a := b])
      ensures Untouched(old(h), old(mem), mem, t)
    {
      WriteHeader(h, mem, poolSize, a, 4, w, b, t);
      mem := mem[a + 4 := w];
      h := h.(blocks := h.blocks[a := b]);
    }

    /** `merge_prev`: returns the surviving block */
    method MergeWithPrev(a: int) returns (r: int)
      requires Rep() && InTransit(h, a)
      modifies `mem, `flBitmap, `slBitmap, `head, `h
      ensures Rep() && (h, r) == MergePrev(old(h), a)
      ensures Untouched(old(h), old(mem), mem, a)
    {
      r := a;
      var _, _, prevFree := ReadHeader(a);
      if prevFree {
        MergePrevSafe(h, a);
        assert HeaderAt(mem, h.blocks, a);
        r := mem[a];
        UnlistAndMerge(r, r, a, a);
      } else {
        PayloadIsMapped(h, mem, poolSize);
      }
    }

    /** `merge_next` */
    method MergeWithNext(a: int)
      requires Rep() && InTransit(h, a)
      modifies `mem, `flBitmap, `slBitmap, `head, `h
      ensures Rep() && h == MergeNext(old(h), a)
      ensures Untouched(old(h), old(mem), mem, a)
    {
      Neighbours(h.sent, h.blocks, a);
      var size, _, _ := ReadHeader(a);
      var n := a + HDR + size;
      var _, free, _ := ReadHeader(n);
      if free {
        MergeNextSafe(h, a);
        UnlistAndMerge(n, a, n, a);
      } else {
        PayloadIsMapped(h, mem, poolSize);
      }
    }

    /** What both merges do: take `x` off its list, then let `a` take over its successor `n`. */
    method UnlistAndMerge(x: int, a: int, n: int, ghost t: int)
      requires Rep() && Geometry(h) && Listed(h, x)
      requires a in h.blocks && a != h.sent && n == End(h.blocks, a) && n != h.sent
      requires n in h.blocks && End(h.blocks, n) in h.blocks
      modifies `mem, `flBitmap, `slBitmap, `head, `h
      ensures Rep() && h == Unlink(old(h), x).(blocks := AbsorbBlocks(old(h).blocks, a))
      ensures Untouched(old(h), old(mem), mem, t)
    {
      UnlinkHeld(h, x, t);
      FreeListRemove(x, t);
      ghost var h1, m1 := h, mem;
      Merge(a, n, t);
      UntouchedThen(old(h), h1, old(mem), m1, mem, t, t);
    }

    /** `a` takes over its successor `n`. */
    method Merge(a: int, n: int, ghost t: int)
      requires Rep() && Geometry(h) && a in h.blocks && a != h.sent && n == End(h.blocks, a) && n != h.sent
      requires n in h.blocks && End(h.blocks, n) in h.blocks
      modifies `mem, `h
      ensures Rep() && h == old(h).(blocks := AbsorbBlocks(old(h).blocks, a))
      ensures Untouched(old(h), old(mem), mem, t)
    {
      MergeStep(h, mem, poolSize, a, t);
      mem := mem[a + 4 := WithSize(mem[a + 4], BlockSize(mem[a + 4]) + HDR + BlockSize(mem[n + 4]))];
      var after := a + HDR + BlockSize(mem[a + 4]);
      mem := mem[after := a];
      h := h.(blocks := AbsorbBlocks(h.blocks, a));
    }

    /** `block_split`: returns the residual block */
    method BlockSplit(a: int, size: nat) returns (rem: int)
      requires Rep() && Geometry(h) && Live(h, a) && End(h.blocks, a) in h.blocks
      requires size % 8 == 0 && 0 < size && size + HDR < h.blocks[a].size
      modifies `mem, `h
      ensures Rep() && rem == a + HDR + size && h == old(h).(blocks := SplitBlocks(old(h).blocks, a, size))
      ensures Untouched(old(h), old(mem), mem, a)
    {
      SplitStep(h, mem, poolSize, a, size);
      rem := a + HDR + size;
      var remSize := BlockSize(mem[a + 4]) - size - HDR;
      mem := mem[rem + 4 := remSize];
      mem := mem[rem := a];
      mem := mem[a + 4 := WithSize(mem[a + 4], size)];
      var after := rem + HDR + BlockSize(mem[rem + 4]);
      mem := mem[after := rem];
      h := h.(blocks := SplitBlocks(h.blocks, a, size));
    }

    ghost predicate Valid()
      reads this
    {
      && PoolOk(poolSize)
      && Inv(h)
      && Words(mem, poolSize)
      && (if ready then Rep() else h == Initial(poolSize))
    }

    constructor (poolSize: int)
      requires PoolOk(poolSize)
      ensures Valid() && this.poolSize == poolSize && h == Initial(poolSize)
    {
      this.poolSize := poolSize;
      mem := map x | 0 <= x < poolSize && x % 4 == 0 :: 0;
      flBitmap, slBitmap, head, ready := 0, [], [], false;
      h := Initial(poolSize);
      InitialInv(poolSize);
    }

    /** `tlsf_init` */
    method Initialise()
      requires Valid() && !ready
      modifies this
      ensures Valid() && ready && h == old(h)
    {
      UnlistedGeometry(poolSize);
      InitialWords(mem, poolSize);
      EmptyBitmaps();
      InitialiseWords();
      flBitmap, slBitmap := 0, seq(FL_COUNT, _ => 0);
      head := seq(CLASSES, _ => NULL_BLOCK);
      h := Unlisted(poolSize);
      ClassInTable(h.blocks[START].size);
      FreeListInsert(START);
      ready := true;
    }

    /** The null block, the sentinel and the main block */
    method InitialiseWords()
      requires PoolOk(poolSize)
      modifies `mem
      ensures mem == InitialMemory(old(mem), poolSize)
    {
      mem := mem[NULL_BLOCK + 8 := NULL_BLOCK];
      mem := mem[NULL_BLOCK + 12 := NULL_BLOCK];
      var sentinel := poolSize - HDR;
      mem := mem[sentinel + 4 := 2];
      mem := mem[sentinel := NULL];
      mem := mem[START + 4 := poolSize - START - HDR - HDR + 1];
      mem := mem[START := NULL];
      mem := mem[sentinel := START];
      mem := mem[sentinel + 4 := MarkPrevFree(mem[sentinel + 4])];
    }

    /** The middle of `vibe_heap_alloc`: split off and list what is not needed. */
    method CarveBlock(a: int, size: nat)
      requires Rep() && InTransit(h, a) && size % 8 == 0 && 0 < size <= h.blocks[a].size
      modifies `mem, `flBitmap, `slBitmap, `head, `h
      ensures Rep() && h == Carve(old(h), a, size)
      ensures Untouched(old(h), old(mem), mem, a)
    {
      Neighbours(h.sent, h.blocks, a);
      var whole, _, _ := ReadHeader(a);
      if whole - size >= HDR + MIN_PAYLOAD {
        CarveSafe(h, a, size);
        SplitHeld(h, a, size);
        var rem := BlockSplit(a, size);
        ghost var m1 := mem;
        SetSuccessor(rem, false, rem);
        assert h == old(h).(blocks := SplitBlocks(old(h).blocks, a, size));
        UntouchedThen(old(h), h, old(mem), m1, mem, a, rem);
        m1 := mem;
        FreeListInsert(rem);
        UntouchedThen(old(h), old(h).(blocks := SplitBlocks(old(h).blocks, a, size)), old(mem), m1, mem, a, rem);
      } else {
        PayloadIsMapped(h, mem, poolSize);
      }
    }

    /** The end of `vibe_heap_alloc` */
    method CommitBlock(a: int)
      requires Rep() && InTransit(h, a)
      modifies `mem, `h
      ensures Rep() && h == Commit(old(h), a)
      ensures Untouched(old(h), old(mem), mem, a)
    {
      Neighbours(h.sent, h.blocks, a);
      SetOwn(a, false, a);
      ghost var h1, m1 := h, mem;
      var size, _, _ := ReadHeader(a);
      SetSuccessor(a + HDR + size, true, a);
      ghost var h2, m2 := h, mem;
      SetSuccessor(a + HDR + size, false, a);
      UntouchedThen(old(h), h1, old(mem), m1, m2, a, a);
      UntouchedThen(old(h), h2, old(mem), m2, mem, a, a);
    }

    /** `block_set_free` / `block_set_used` */
    method SetOwn(a: int, free: bool, ghost t: int)
      requires Rep() && Geometry(h) && a in h.blocks
      modifies `mem, `h
      ensures Rep() && Geometry(h) && h == SetFree(old(h), a, free)
      ensures forall b :: Listed(h, b) <==> Listed(old(h), b)
      ensures Untouched(old(h), old(mem), mem, t)
    {
      hide MarkFree, MarkUsed, Pack, Bitmaps, Heads, AllLinks;
      assert HeaderAt(mem, h.blocks, a);
      assert Linked(h.sent, h.blocks, a);
      Quarter(h.blocks[a].size);
      PackFree(h.blocks[a], free);
      SetFreeGeometry(h, a, free);
      var w := if free then MarkFree(mem[a + 4]) else MarkUsed(mem[a + 4]);
      SetFlags(a, w, h.blocks[a].(free := free), t);
    }

    /** `block_set_prev_free` / `block_set_prev_used` */
    method SetSuccessor(n: int, prevFree: bool, ghost t: int)
      requires Rep() && Geometry(h) && n in h.blocks
      modifies `mem, `h
      ensures Rep() && Geometry(h) && h == SetPrevFree(old(h), n, prevFree)
      ensures forall b :: Listed(h, b) <==> Listed(old(h), b)
      ensures Untouched(old(h), old(mem), mem, t)
    {
      hide MarkPrevFree, MarkPrevUsed, Pack, Bitmaps, Heads, AllLinks;
      assert HeaderAt(mem, h.blocks, n);
      assert Linked(h.sent, h.blocks, n);
      Quarter(h.blocks[n].size);
      PackPrevFree(h.blocks[n], prevFree);
      SetPrevFreeGeometry(h, n, prevFree);
      var w := if prevFree then MarkPrevFree(mem[n + 4]) else MarkPrevUsed(mem[n + 4]);
      SetFlags(n, w, h.blocks[n].(prevFree := prevFree), t);
    }

    /** `vibe_heap_alloc` */
    method Alloc(n: nat) returns (p: int)
      requires Valid() && Admissible(n)
      modifies this
      ensures Valid() && (h, p) == Allocate(old(h), n)
      ensures Untouched(old(h), old(mem), mem, NULL)
    {
      if n == 0 {
        PayloadIsMapped(h, mem, poolSize);
        return NULL;
      }
      var size := AlignUp(n);
      if size < MIN_PAYLOAD {
        size := MIN_PAYLOAD;
      }
      assert size == Request(n);
      p := AllocAligned(size);
    }

    method AllocAligned(size: nat) returns (p: int)
      requires Valid() && size % 8 == 0 && 0 < size && Bucket(size) < SIZE_LIMIT
      modifies this
      ensures Valid()
      ensures var a := Locate(old(h), size);
              if a == NULL then p == NULL && h == old(h)
              else Listed(old(h), a) && size <= old(h).blocks[a].size && p == a + HDR && h == Obtained(old(h), a, size)
      ensures Untouched(old(h), old(mem), mem, NULL)
    {
      EnsureReady();
      LocateIsSearch(h, size);
      var a := LocateFree(size);
      if a == NULL {
        return NULL;
      }
      ghost var m1 := mem;
      p := Obtain(a, size);
      UntouchedThen(old(h), old(h), old(mem), m1, mem, NULL, NULL);
    }

    method EnsureReady()
      requires Valid()
      modifies this
      ensures Valid() && ready && h == old(h)
      ensures Untouched(h, old(mem), mem, NULL)
    {
      if !ready {
        InitialInv(poolSize);
        Initialise();
      } else {
        PayloadIsMapped(h, mem, poolSize);
      }
    }

    method Obtain(a: int, size: nat) returns (p: int)
      requires Valid() && ready && size % 8 == 0 && 0 < size && Listed(h, a) && size <= h.blocks[a].size
      modifies `mem, `flBitmap, `slBitmap, `head, `h
      ensures Rep() && Inv(h) && p == a + HDR
      ensures h == Obtained(old(h), a, size)
      ensures Untouched(old(h), old(mem), mem, NULL)
    {
      TakeTransit(h, a);
      FreeListRemove(a, a);
      ghost var h1, m1 := h, mem;
      CarveTransit(h, a, size);
      CarveBlock(a, size);
      ghost var h2, m2 := h, mem;
      CommitInv(h, a);
      CommitBlock(a);
      p := a + HDR;
      UntouchedThen(old(h), h1, old(mem), m1, m2, a, a);
      UntouchedThen(old(h), h2, old(mem), m2, mem, a, a);
    }

    /** `vibe_heap_free`: NULL and flagged blocks are ignored, a live block is returned. */
    method Free(p: int)
      requires Valid()
      requires p != NULL ==>
                 ready && p - HDR in h.blocks && p - HDR != h.sent && (Live(h, p - HDR) || h.blocks[p - HDR].free)
      modifies this
      ensures Valid() && ready == old(ready)
      ensures h == if p != NULL && Live(old(h), p - HDR) then Release(old(h), p) else old(h)
      ensures Untouched(old(h), old(mem), mem, p - HDR)
    {
      PayloadIsMapped(h, mem, poolSize);
      if p == NULL {
        return;
      }
      var a := p - HDR;
      var _, free, _ := ReadHeader(a);
      if free {
        assert FreeSound(h, a);
        return;
      }
      ReturnTransit(h, a);
      SetOwn(a, true, a);
      ghost var h1, m1 := h, mem;
      MergePrevTransit(h, a);
      var b := MergeWithPrev(a);
      UntouchedThen(old(h), h1, old(mem), m1, mem, a, a);
      m1 := mem;
      ghost var h2 := h;
      Give(b);
      UntouchedThen(old(h), h2, old(mem), m1, mem, a, b);
    }

    /** The rest of `vibe_heap_free`, for the block left by the backward merge */
    method Give(b: int)
      requires PoolOk(poolSize) && Rep() && InTransit(h, b)
      modifies `mem, `flBitmap, `slBitmap, `head, `h
      ensures Rep() && Inv(h) && h == Settled(old(h), b)
      ensures Untouched(old(h), old(mem), mem, b)
    {
      MergeNextTransit(h, b);
      MergeWithNext(b);
      ghost var h1, m1 := h, mem;
      ShelveInv(h, b);
      Neighbours(h.sent, h.blocks, b);
      var size, _, _ := ReadHeader(b);
      SetSuccessor(b + HDR + size, true, b);
      ghost var h2, m2 := h, mem;
      FreeListInsert(b);
      UntouchedThen(old(h), h1, old(mem), m1, m2, b, b);
      UntouchedThen(old(h), h2, old(mem), m2, mem, b, b);
    }

    /** A caller writes a word of its own payload. */
    method StoreWord(a: int, x: int, v: int)
      requires Valid() && ready && Payload(h, a, x)
      modifies `mem
      ensures Valid() && mem == old(mem)[x := v]
      ensures Untouched(h, old(mem), mem, a)
    {
      PayloadIsMapped(h, mem, poolSize);
      InsideKept(h, mem, mem, poolSize, a, x, v);
      InsideFree(h, a, x);
      WriteOffHeaders(mem, h.blocks, x, v);
      mem := mem[x := v];
    }

    /** The `memcpy` of `vibe_heap_realloc`, word by word, between two live blocks */
    method Copy(q: int, p: int, len: nat)
      requires Valid() && ready && Live(h, p - HDR) && Live(h, q - HDR) && p != q && len % 4 == 0
      requires len <= h.blocks[p - HDR].size && len <= h.blocks[q - HDR].size
      modifies `mem
      ensures Valid() && Untouched(h, old(mem), mem, q - HDR)
      ensures Copied(old(mem), p, mem, q, len)
    {
      PayloadIsMapped(h, mem, poolSize);
      var i := 0;
      while i < len
        invariant 0 <= i <= len && Word(i)
        invariant Valid() && Untouched(h, old(mem), mem, q - HDR)
        invariant Copied(old(mem), p, mem, q, i)
      {
        assert Linked(h.sent, h.blocks, p - HDR) && Linked(h.sent, h.blocks, q - HDR);
        WordInPayload(h, p - HDR, i);
        WordInPayload(h, q - HDR, i);
        CopiedMore(old(mem), p, mem, q, i);
        ghost var m1 := mem;
        StoreWord(q - HDR, q + i, mem[p + i]);
        UntouchedThen(h, h, old(mem), m1, mem, q - HDR, q - HDR);
        i := i + 4;
      }
    }

    /** `vibe_heap_realloc` */
    method Realloc(p: int, n: nat) returns (q: int)
      requires Valid() && Admissible(n)
      requires p != NULL ==> ready && Live(h, p - HDR)
      modifies this
      ensures Valid() && (h, q) == Reallocate(old(h), p, n)
      ensures Untouched(old(h), old(mem), mem, p - HDR)
      ensures p != NULL && n != 0 && q == NULL ==> Untouched(old(h), old(mem), mem, NULL)
      ensures p != NULL && n != 0 && q != NULL ==> Copied(old(mem), p, mem, q, old(h).blocks[p - HDR].size)
    {
      if p == NULL {
        q := Alloc(n);
        UntouchedBut(old(h), old(mem), mem, p - HDR);
      } else if n == 0 {
        Free(p);
        q := NULL;
      } else {
        q := Resize(p, n);
      }
    }

    /** `vibe_heap_realloc` of a block to a non-zero size */
    method Resize(p: int, n: nat) returns (q: int)
      requires Valid() && Admissible(n) && ready && Live(h, p - HDR) && n != 0
      modifies this
      ensures Valid() && (h, q) == Reallocate(old(h), p, n)
      ensures Untouched(old(h), old(mem), mem, p - HDR)
      ensures q == NULL ==> Untouched(old(h), old(mem), mem, NULL)
      ensures q != NULL ==> Copied(old(mem), p, mem, q, old(h).blocks[p - HDR].size)
    {
      PayloadIsMapped(h, mem, poolSize);
      var size, _, _ := ReadHeader(p - HDR);
      assert Linked(h.sent, h.blocks, p - HDR);
      if AlignUp(n) <= size {
        CopiedSelf(h, mem, p);
        return p;
      }
      TooSmall(size, n);
      q := Grow(p, n, size);
    }

    /** `vibe_heap_realloc` of a block that has to grow */
    method Grow(p: int, n: nat, size: nat) returns (q: int)
      requires Valid() && Admissible(n) && ready && Live(h, p - HDR)
      requires size == h.blocks[p - HDR].size < n <= LARGEST
      modifies this
      ensures Valid() && (h, q) == Grown(old(h), p, n)
      ensures Untouched(old(h), old(mem), mem, p - HDR)
      ensures q == NULL ==> Untouched(old(h), old(mem), mem, NULL)
      ensures q != NULL ==> Copied(old(mem), p, mem, q, size)
    {
      hide Obtained, Locate, Release;
      GrowHolds(h, p, n);
      q := Alloc(n);
      if q == NULL {
        UntouchedBut(old(h), old(mem), mem, p - HDR);
      } else {
        Move(old(h), old(mem), p, q, n, size);
      }
    }

    /** The end of `vibe_heap_realloc`: copy to the new block and free the old one. */
    method Move(ghost h0: Heap, ghost m0: Memory, p: int, q: int, n: nat, size: nat)
      requires Valid() && ready && Live(h, p - HDR) && Live(h, q - HDR)
      requires Inv(h0) && Live(h0, p - HDR) && !Live(h0, q - HDR) && Keeps(h0, h, q - HDR)
      requires size == h.blocks[p - HDR].size < n && n <= h.blocks[q - HDR].size
      requires Untouched(h0, m0, mem, NULL)
      modifies this
      ensures Valid() && h == Release(old(h), p)
      ensures Untouched(h0, m0, mem, p - HDR)
      ensures Copied(m0, p, mem, q, size)
    {
      hide Valid, Release, Untouched, Copied, Keeps, StillHeld, Inv;
      Sizes(p - HDR);
      InvChain(h0);
      UntouchedBut(h0, m0, mem, p - HDR);
      HeldBoth(h0, h, p - HDR, q - HDR);
      Copy(q, p, if size < n then size else n);
      ghost var h1, m1 := h, mem;
      CopiedAfter(h0, m0, old(mem), mem, p, q, size);
      BothHeld(h0, h1, p - HDR, q - HDR);
      Free(p);
      UntouchedThen(h0, h1, m0, old(mem), m1, p - HDR, q - HDR);
      UntouchedThen(h0, h1, m0, m1, mem, p - HDR, p - HDR);
      CopiedBefore(h1, m0, m1, mem, p, q, size);
    }

    lemma Sizes(a: int)
      requires Valid() && Live(h, a)
      ensures Chain(h.sent, h.blocks) && a in h.blocks && a != h.sent && h.blocks[a].size % 4 == 0 && a != NULL - HDR
    {
      Neighbours(h.sent, h.blocks, a);
      Quarter(h.blocks[a].size);
    }

    /** `vibe_heap_stats`: the walk over the physical chain, or the whole pool before the first use */
    method GetStats() returns (s: Stats)
      requires Valid()
      ensures s == if ready then StatsFrom(h, START, Stats(0, 0, 0, 0, 0)) else Stats(0, poolSize, 0, 0, 0)
    {
      if !ready {
        return Stats(0, poolSize, 0, 0, 0);
      }
      var cur := START;
      s := Stats(0, 0, 0, 0, 0);
      while true
        invariant cur in h.blocks && StatsFrom(h, cur, s) == StatsFrom(h, START, Stats(0, 0, 0, 0, 0))
        decreases h.sent - cur
      {
        var size, free, _ := ReadHeader(cur);
        assert Linked(h.sent, h.blocks, cur);
        if size == 0 {
          break;
        }
        Neighbours(h.sent, h.blocks, cur);
        if free {
          s := s.(free := s.free + size, frees := s.frees + 1, largest := if size > s.largest then size else s.largest);
        } else {
          s := s.(used := s.used + size, allocs := s.allocs + 1);
        }
        cur := cur + HDR + size;
      }
    }
  }

  /** The first `len` bytes at `p` in `m` are found at `q` in `m'`. */
  ghost predicate Copied(m: Memory, p: int, m': Memory, q: int, len: int)
  {
    forall i {:trigger Word(i)} :: Word(i) && 0 <= i < len ==> p + i in m && q + i in m' && m'[q + i] == m[p + i]
  }

  /** `i` is a word offset. */
  predicate Word(i: int) { i % 4 == 0 }

  lemma WordSum(a: int, i: int)
    requires a % 8 == 0 && i % 4 == 0
    ensures (a + HDR + i) % 4 == 0
  {
    var k, l := a / 8, i / 4;
    assert a + HDR + i == 4 * (2 * k + 2 + l);
  }

  /** After the allocation of `b`, whoever held a block but `a` or `b` still does. */
  lemma BothHeld(h0: Heap, h1: Heap, a: int, b: int)
    requires Keeps(h0, h1, b) && !Live(h0, b)
    ensures StillHeld(h0, h1, a, b) && StillHeld(h0, h1, a, a)
  {
  }

  lemma InvChain(h: Heap)
    requires Inv(h)
    ensures Chain(h.sent, h.blocks)
  {
  }

  /** A block that is held before an allocation is as large after it. */
  lemma HeldBoth(h0: Heap, h1: Heap, a: int, b: int)
    requires Keeps(h0, h1, b) && Live(h0, a) && !Live(h0, b)
    ensures a != b && Live(h1, a) && h1.blocks[a].size == h0.blocks[a].size
  {
  }

  lemma WordInPayload(h: Heap, a: int, i: nat)
    requires Live(h, a) && a % 8 == 0 && i % 4 == 0 && i < h.blocks[a].size
    ensures Payload(h, a, a + HDR + i)
  {
    WordSum(a, i);
  }

  lemma CopiedSelf(h: Heap, m: Memory, p: int)
    requires Chain(h.sent, h.blocks) && Live(h, p - HDR) && Untouched(h, m, m, NULL)
    ensures Copied(m, p, m, p, h.blocks[p - HDR].size)
  {
    Neighbours(h.sent, h.blocks, p - HDR);
    assert Linked(h.sent, h.blocks, p - HDR);
    forall i | Word(i) && 0 <= i < h.blocks[p - HDR].size
      ensures p + i in m
    {
      WordInPayload(h, p - HDR, i);
    }
  }

  lemma CopiedMore(m: Memory, p: int, m': Memory, q: int, i: int)
    requires Copied(m, p, m', q, i) && Word(i) && p + i in m && p + i in m' && m'[p + i] == m[p + i]
    ensures Copied(m, p, m'[q + i := m'[p + i]], q, i + 4)
  {
    forall j | Word(j) && 0 <= j < i + 4
      ensures p + j in m && q + j in m'[q + i := m'[p + i]] && m'[q + i := m'[p + i]][q + j] == m[p + j]
    {
      if j >= i {
        assert j == i;
      }
    }
  }

  /** The source block was not written before the copy. */
  lemma CopiedAfter(h: Heap, m: Memory, m1: Memory, m2: Memory, p: int, q: int, len: int)
    requires Chain(h.sent, h.blocks) && Live(h, p - HDR) && len <= h.blocks[p - HDR].size
    requires Untouched(h, m, m1, NULL) && Copied(m1, p, m2, q, len)
    ensures Copied(m, p, m2, q, len)
  {
    assert Linked(h.sent, h.blocks, p - HDR);
    forall i | Word(i) && 0 <= i < len
      ensures p + i in m && q + i in m2 && m2[q + i] == m[p + i]
    {
      WordInPayload(h, p - HDR, i);
    }
  }

  /** The target block is not written after the copy. */
  lemma CopiedBefore(h: Heap, m: Memory, m1: Memory, m2: Memory, p: int, q: int, len: int)
    requires Chain(h.sent, h.blocks) && Live(h, q - HDR) && p != q && len <= h.blocks[q - HDR].size
    requires Copied(m, p, m1, q, len) && Untouched(h, m1, m2, p - HDR)
    ensures Copied(m, p, m2, q, len)
  {
    assert Linked(h.sent, h.blocks, q - HDR);
    forall i | Word(i) && 0 <= i < len
      ensures p + i in m && q + i in m2 && m2[q + i] == m[p + i]
    {
      WordInPayload(h, q - HDR, i);
    }
  }

  lemma UntouchedBut(h: Heap, m: Memory, m': Memory, t: int)
    requires Chain(h.sent, h.blocks) && Untouched(h, m, m', NULL)
    ensures Untouched(h, m, m', t)
  {
    forall b, x | Payload(h, b, x)
      ensures x in m && x in m' && m'[x] == m[x]
    {
      assert Linked(h.sent, h.blocks, b);
    }
  }

  /** The words `tlsf_init` writes */
  function InitialMemory(mem: Memory, poolSize: int): Memory
  {
    var sentinel := poolSize - HDR;
    mem[NULL_BLOCK + 8 := NULL_BLOCK][NULL_BLOCK + 12 := NULL_BLOCK]
       [sentinel + 4 := 2][sentinel := NULL]
       [START + 4 := poolSize - START - HDR - HDR + 1][START := NULL]
       [sentinel := START][sentinel + 4 := 2]
  }

  lemma InitialWords(mem: Memory, poolSize: int)
    requires PoolOk(poolSize) && Words(mem, poolSize)
    ensures Words(InitialMemory(mem, poolSize), poolSize)
    ensures Headers(InitialMemory(mem, poolSize), Unlisted(poolSize).blocks)
  {
    AlignedWords(mem, poolSize, START);
    AlignedWords(mem, poolSize, poolSize - HDR);
    var m := InitialMemory(mem, poolSize);
    var blocks := Unlisted(poolSize).blocks;
    assert HeaderAt(m, blocks, START) && HeaderAt(m, blocks, poolSize - HDR);
    assert m.Keys == mem.Keys;
  }

  lemma EmptyBitmaps()
    ensures Bitmaps(0, seq(FL_COUNT, _ => 0), seq(CLASSES, _ => []))
  {
    var lists := seq(CLASSES, _ => []);
    var sl := seq(FL_COUNT, _ => 0);
    forall f | 0 <= f < FL_COUNT
      ensures Row(0, lists, f)
    {
      forall j: nat
        ensures SlBit(0, lists, f, j)
      {
        ZeroHasNoBits(j);
      }
    }
    forall f: nat
      ensures FlBit(0, sl, f)
    {
      ZeroHasNoBits(f);
    }
  }
}