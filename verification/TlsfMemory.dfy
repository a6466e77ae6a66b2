/**
 How lib/heap/heap_tlsf.c represents the heap of TlsfModel: 32-bit words in the pool,
 headers and list links at byte offsets inside it, list heads and two bitmap levels.
 The lemmas say which writes keep the representation, and that no write lands in the
 payload of a block some caller holds.
 */
module TlsfMemory {
  import opened Bits32
  import opened Seqs
  import opened TlsfMapping
  import opened TlsfModel

  const NULL_BLOCK := 724    // offset of `null_block` in the control structure

  type Memory = map<int, int>

  // ---------- size_flags ----------

  function Flag(b: bool): int { if b then 1 else 0 }
  function Pack(b: Block): int { b.size + Flag(b.free) + 2 * Flag(b.prevFree) }

  function BlockSize(w: int): int { w / 4 * 4 }
  function WithSize(w: int, size: int): int { w % 4 + size / 4 * 4 }
  predicate IsFree(w: int) { w % 2 == 1 }
  function MarkFree(w: int): int { w / 2 * 2 + 1 }
  function MarkUsed(w: int): int { w / 2 * 2 }
  predicate IsPrevFree(w: int) { w / 2 % 2 == 1 }
  function MarkPrevFree(w: int): int { w / 4 * 4 + w % 2 + 2 }
  function MarkPrevUsed(w: int): int { w / 4 * 4 + w % 2 }

  /** The bit operations on `size_flags` touch the field they are named after and no other. */
  lemma PackedFields(b: Block, size: nat)
    requires b.size % 4 == 0 && size % 4 == 0
    ensures BlockSize(Pack(b)) == b.size && WithSize(Pack(b), size) == Pack(b.(size := size))
    ensures IsFree(Pack(b)) == b.free && IsPrevFree(Pack(b)) == b.prevFree
    ensures MarkFree(Pack(b)) == Pack(b.(free := true)) && MarkUsed(Pack(b)) == Pack(b.(free := false))
    ensures MarkPrevFree(Pack(b)) == Pack(b.(prevFree := true)) && MarkPrevUsed(Pack(b)) == Pack(b.(prevFree := false))
  {
  }

  lemma PackFree(b: Block, free: bool)
    requires b.size % 4 == 0
    ensures (if free then MarkFree(Pack(b)) else MarkUsed(Pack(b))) == Pack(b.(free := free))
  {
    PackedFields(b, 0);
  }

  lemma PackPrevFree(b: Block, prevFree: bool)
    requires b.size % 4 == 0
    ensures (if prevFree then MarkPrevFree(Pack(b)) else MarkPrevUsed(Pack(b))) == Pack(b.(prevFree := prevFree))
  {
    PackedFields(b, 0);
  }

  // ---------- representation ----------

  /** The pool's words, by byte offset */
  ghost predicate Words(mem: Memory, poolSize: int)
  {
    forall x :: x in mem <==> 0 <= x < poolSize && x % 4 == 0
  }

  ghost predicate HeaderAt(mem: Memory, blocks: map<int, Block>, a: int)
    requires a in blocks
  {
    a in mem && a + 4 in mem && mem[a] == blocks[a].prev && mem[a + 4] == Pack(blocks[a])
  }

  ghost predicate Headers(mem: Memory, blocks: map<int, Block>)
  {
    forall a {:trigger HeaderAt(mem, blocks, a)} :: a in blocks ==> HeaderAt(mem, blocks, a)
  }

  function First(s: seq<int>): int { if s == [] then NULL_BLOCK else s[0] }

  /** `next_free` and `prev_free` of the k-th block of a list */
  ghost predicate LinkAt(mem: Memory, s: seq<int>, k: nat)
    requires k < |s|
  {
    && s[k] + 8 in mem && s[k] + 12 in mem
    && mem[s[k] + 8] == First(s[k + 1..])
    && mem[s[k] + 12] == (if k == 0 then NULL_BLOCK else s[k - 1])
  }

  ghost predicate Links(mem: Memory, s: seq<int>)
  {
    forall k {:trigger LinkAt(mem, s, k)} :: 0 <= k < |s| ==> LinkAt(mem, s, k)
  }

  ghost predicate AllLinks(mem: Memory, lists: seq<seq<int>>)
  {
    forall c {:trigger lists[c]} :: 0 <= c < |lists| ==> Links(mem, lists[c])
  }

  ghost predicate Heads(head: seq<int>, lists: seq<seq<int>>)
  {
    |head| == |lists| && forall c :: 0 <= c < |lists| ==> head[c] == First(lists[c])
  }

  /** A second-level bit is set exactly when its list is non-empty. */
  ghost predicate SlBit(sl: nat, lists: seq<seq<int>>, f: nat, j: nat)
    requires |lists| == CLASSES && f < FL_COUNT
  {
    Bit(sl, j) <==> j < SL_COUNT && lists[SL_COUNT * f + j] != []
  }

  ghost predicate Row(sl: nat, lists: seq<seq<int>>, f: nat)
    requires |lists| == CLASSES && f < FL_COUNT
  {
    forall j: nat {:trigger SlBit(sl, lists, f, j)} {:trigger Bit(sl, j)} :: SlBit(sl, lists, f, j)
  }

  /** A first-level bit is set exactly when its row has a bit. */
  ghost predicate FlBit(fl: nat, sl: seq<nat>, f: nat)
  {
    Bit(fl, f) <==> f < |sl| && sl[f] != 0
  }

  ghost predicate Bitmaps(fl: nat, sl: seq<nat>, lists: seq<seq<int>>)
  {
    && |lists| == CLASSES && |sl| == FL_COUNT
    && (forall f {:trigger sl[f]} :: 0 <= f < FL_COUNT ==> Row(sl[f], lists, f))
    && (forall f: nat {:trigger FlBit(fl, sl, f)} {:trigger Bit(fl, f)} :: FlBit(fl, sl, f))
  }

  // ---------- writes that keep the representation ----------

  /** Elements of a free list are non-sentinel blocks, so their link words are their own. */
  lemma LinkWordsOwn(h: Heap, a: int, b: int)
    requires Geometry(h) && a in h.blocks && a != h.sent && b in h.blocks && b != a
    ensures a >= START && (b + 8 <= a || a + 16 <= b)
    ensures b != h.sent ==> b + 16 <= a || a + 16 <= b
  {
    assert Linked(h.sent, h.blocks, a) && Linked(h.sent, h.blocks, b);
    assert Apart(h.blocks, a, b);
  }

  /** `x` is no header word. */
  ghost predicate OffHeaders(blocks: map<int, Block>, x: int)
  {
    forall b :: b in blocks ==> x != b && x != b + 4
  }

  lemma WriteOffHeaders(mem: Memory, blocks: map<int, Block>, x: int, v: int)
    requires Headers(mem, blocks) && OffHeaders(blocks, x)
    ensures Headers(mem[x := v], blocks)
  {
    var m := mem[x := v];
    forall b | b in blocks
      ensures HeaderAt(m, blocks, b)
    {
      assert HeaderAt(mem, blocks, b);
    }
  }

  lemma LinkWordOffHeaders(h: Heap, a: int)
    requires Geometry(h)
    requires a == NULL_BLOCK || (a in h.blocks && a != h.sent)
    ensures OffHeaders(h.blocks, a + 8) && OffHeaders(h.blocks, a + 12)
  {
    forall b | b in h.blocks
      ensures a + 8 != b && a + 8 != b + 4 && a + 12 != b && a + 12 != b + 4
    {
      assert Linked(h.sent, h.blocks, b);
      if a != NULL_BLOCK && b != a {
        LinkWordsOwn(h, a, b);
      }
    }
  }

  /** `x` is no link word of the list. */
  ghost predicate OffLinks(s: seq<int>, x: int)
  {
    forall k :: 0 <= k < |s| ==> s[k] + 8 != x && s[k] + 12 != x
  }

  lemma WriteOffLinks(mem: Memory, s: seq<int>, x: int, v: int)
    requires Links(mem, s) && OffLinks(s, x)
    ensures Links(mem[x := v], s)
  {
    var m := mem[x := v];
    forall k | 0 <= k < |s|
      ensures LinkAt(m, s, k)
    {
      assert LinkAt(mem, s, k);
    }
  }

  /** Link words of blocks on a list are untouched by writing a link of a block not on it, or of the null block. */
  lemma OtherListKept(h: Heap, mem: Memory, c: nat, a: int, off: int, v: int)
    requires Geometry(h) && c < CLASSES && Links(mem, h.lists[c])
    requires a == NULL_BLOCK || (a in h.blocks && a != h.sent && a !in h.lists[c])
    requires off == 8 || off == 12
    ensures Links(mem[a + off := v], h.lists[c])
  {
    var s := h.lists[c];
    assert ListOk(h, c);
    forall k | 0 <= k < |s|
      ensures s[k] + 8 != a + off && s[k] + 12 != a + off
    {
      assert s[k] in s;
      assert Linked(h.sent, h.blocks, s[k]);
      if a != NULL_BLOCK {
        LinkWordsOwn(h, s[k], a);
      }
    }
    WriteOffLinks(mem, s, a + off, v);
  }

  /** Pushing a block in front of a list, as `free_list_insert` writes it. */
  function Pushed(mem: Memory, s: seq<int>, a: int): Memory
  {
    var m := mem[a + 8 := First(s)][a + 12 := NULL_BLOCK];
    if s == [] then m else m[First(s) + 12 := a]
  }

  lemma PushLinks(h: Heap, mem: Memory, c: nat, a: int)
    requires Geometry(h) && c < CLASSES && Links(mem, h.lists[c])
    requires a in h.blocks && a != h.sent && a !in h.lists[c]
    ensures Links(Pushed(mem, h.lists[c], a), [a] + h.lists[c])
  {
    var s := h.lists[c];
    var t := [a] + s;
    var m := Pushed(mem, s, a);
    assert ListOk(h, c);
    forall k | 0 <= k < |t|
      ensures LinkAt(m, t, k)
    {
      assert t[1..] == s;
      if k == 0 {
        if s != [] {
          LinkWordsOwn(h, s[0], a);
        }
      } else {
        assert LinkAt(mem, s, k - 1);
        assert t[k + 1..] == s[k..];
        LinkWordsOwn(h, s[k - 1], a);
        if k > 1 {
          LinkWordsOwn(h, s[k - 1], s[0]);
        }
      }
    }
  }

  /** Taking the k-th block out of a list, as `free_list_remove` writes it. */
  function Spliced(mem: Memory, s: seq<int>, k: nat): Memory
    requires k < |s|
  {
    var prev := if k == 0 then NULL_BLOCK else s[k - 1];
    var next := First(s[k + 1..]);
    mem[prev + 8 := next][next + 12 := prev]
  }

  /** What comes next in a list without its k-th member */
  lemma FirstAfter(s: seq<int>, k: nat, i: nat)
    requires k < |s| && i < |s| - 1
    ensures var t := s[..k] + s[k + 1..];
            var j := if i < k then i else i + 1;
            First(t[i + 1..]) == if i == k - 1 then First(s[k + 1..]) else First(s[j + 1..])
  {
    var t := s[..k] + s[k + 1..];
    if i + 1 == k {
      assert t[i + 1..] == s[k + 1..];
    } else if i < k {
      assert t[i + 1..] != [] && t[i + 1..][0] == t[i + 1] == s[i + 1] == s[i + 1..][0];
    } else {
      assert t[i + 1..] == s[i + 2..];
    }
  }

  lemma SpliceLinks(h: Heap, mem: Memory, c: nat, k: nat)
    requires Geometry(h) && c < CLASSES && Links(mem, h.lists[c]) && k < |h.lists[c]|
    ensures Links(Spliced(mem, h.lists[c], k), h.lists[c][..k] + h.lists[c][k + 1..])
  {
    var s := h.lists[c];
    var t := s[..k] + s[k + 1..];
    var m := Spliced(mem, s, k);
    assert ListOk(h, c);
    forall i | 0 <= i < |t|
      ensures LinkAt(m, t, i)
    {
      var j := if i < k then i else i + 1;
      assert t[i] == s[j] && LinkAt(mem, s, j);
      assert Linked(h.sent, h.blocks, s[j]);
      FirstAfter(s, k, i);
      if k > 0 && j != k - 1 {
        LinkWordsOwn(h, s[j], s[k - 1]);
      }
      if k + 1 < |s| && j != k + 1 {
        LinkWordsOwn(h, s[j], s[k + 1]);
      }
    }
  }

  /** A listed block's index in its list, its link words, and what taking it out leaves */
  lemma PlaceInList(h: Heap, mem: Memory, a: int) returns (k: nat)
    requires Geometry(h) && Listed(h, a) && AllLinks(mem, h.lists)
    ensures var s := h.lists[Class(h.blocks[a].size)];
            && NoDup(s) && k < |s| && s[k] == a
            && Without(s, a) == s[..k] + s[k + 1..]
            && a in h.blocks && a != h.sent && a % 8 == 0 && a >= START && h.blocks[a].size % 8 == 0
            && a + 8 in mem && a + 12 in mem
            && mem[a + 8] == First(s[k + 1..])
            && mem[a + 12] == (if k == 0 then NULL_BLOCK else s[k - 1])
            && Relinkable(h, a, mem[a + 8]) && Relinkable(h, a, mem[a + 12])
            && mem[a + 12] + 8 != a + 8 && mem[a + 12] + 8 != a + 12
            && mem[a + 8] + 12 != a + 8 && mem[a + 8] + 12 != a + 12
            && (mem[a + 8] == NULL_BLOCK <==> k == |s| - 1)
  {
    var s := h.lists[Class(h.blocks[a].size)];
    assert ListOk(h, Class(h.blocks[a].size));
    k :| 0 <= k < |s| && s[k] == a;
    assert Links(mem, s) && LinkAt(mem, s, k);
    WithoutIndex(s, k);
    Neighbours(h.sent, h.blocks, a);
    if k > 0 {
      assert s[k - 1] in s;
      LinkWordsOwn(h, a, s[k - 1]);
      assert Listed(h, s[k - 1]);
    }
    if k + 1 < |s| {
      assert s[k + 1] in s;
      LinkWordsOwn(h, a, s[k + 1]);
      assert Listed(h, s[k + 1]);
      assert Linked(h.sent, h.blocks, s[k + 1]);
    }
  }

  // ---------- payloads ----------

  /** `x` is a word of the payload of a block that a caller holds. */
  ghost predicate Payload(h: Heap, b: int, x: int)
  {
    Live(h, b) && b + HDR <= x < End(h.blocks, b) && x % 4 == 0
  }

  /** Every payload is as it was, except that of block `a`. */
  ghost predicate Untouched(h: Heap, mem: Memory, mem': Memory, a: int)
  {
    forall b, x {:trigger Payload(h, b, x)} ::
      Payload(h, b, x) && b != a ==> x in mem && x in mem' && mem'[x] == mem[x]
  }

  /** No payload other than that of `a` contains `x`. */
  ghost predicate Safe(h: Heap, a: int, x: int)
  {
    forall b {:trigger Live(h, b)} :: Live(h, b) && b != a ==> x < b + HDR || End(h.blocks, b) <= x
  }

  lemma PayloadIsMapped(h: Heap, mem: Memory, poolSize: int)
    requires Chain(h.sent, h.blocks) && Words(mem, poolSize) && poolSize == h.sent + HDR
    ensures Untouched(h, mem, mem, NULL)
    ensures forall b, x {:trigger Payload(h, b, x)} :: Payload(h, b, x) ==> x in mem
  {
    forall b, x | Payload(h, b, x)
      ensures x in mem
    {
      Neighbours(h.sent, h.blocks, b);
    }
  }

  /** Words in the span of a block are outside the payloads of the others; header words outside all. */
  lemma SpanSafe(h: Heap, a: int, c: int, x: int)
    requires Chain(h.sent, h.blocks) && c in h.blocks && c <= x < End(h.blocks, c)
    requires c == a || x < c + HDR || !Live(h, c)
    ensures Safe(h, a, x)
  {
    forall b | Live(h, b) && b != a
      ensures x < b + HDR || End(h.blocks, b) <= x
    {
      if b != c {
        assert Apart(h.blocks, b, c);
      }
    }
  }

  lemma LowSafe(h: Heap, a: int, x: int)
    requires Chain(h.sent, h.blocks) && x < START
    ensures Safe(h, a, x)
  {
    forall b | Live(h, b)
      ensures x < b + HDR
    {
      assert Linked(h.sent, h.blocks, b);
    }
  }

  lemma UntouchedWrite(h: Heap, mem: Memory, mem': Memory, a: int, x: int, v: int)
    requires Untouched(h, mem, mem', a) && Safe(h, a, x)
    ensures Untouched(h, mem, mem'[x := v], a)
  {
  }

  /** Blocks that callers hold in `h`, other than `a`, they still hold in `h'`, and `r` is not one of them. */
  ghost predicate StillHeld(h: Heap, h': Heap, a: int, r: int)
  {
    forall b {:trigger Live(h, b)} :: Live(h, b) && b != a ==>
      b != r && Live(h', b) && h'.blocks[b].size == h.blocks[b].size
  }

  /** Steps compose as long as the blocks in question stay held. */
  lemma UntouchedThen(h: Heap, h': Heap, m: Memory, m': Memory, m'': Memory, a: int, r: int)
    requires Untouched(h, m, m', a) && Untouched(h', m', m'', r) && StillHeld(h, h', a, r)
    ensures Untouched(h, m, m'', a)
  {
    forall b, x | Payload(h, b, x) && b != a
      ensures x in m && x in m'' && m''[x] == m[x]
    {
      assert Live(h', b);
      assert Payload(h', b, x);
    }
  }

  lemma UnlinkHeld(h: Heap, r: int, t: int)
    requires Geometry(h) && Listed(h, r)
    ensures Geometry(Unlink(h, r)) && StillHeld(h, Unlink(h, r), t, t)
  {
    ListsUnlink(h, r);
  }

  /** After a split the residual block is a new one; everyone else holds what they held. */
  lemma SplitHeld(h: Heap, a: int, size: nat)
    requires InTransit(h, a) && size % 8 == 0 && 0 < size && size + HDR < h.blocks[a].size
    requires End(h.blocks, a) in h.blocks
    ensures var rem := a + HDR + size;
            var h1 := h.(blocks := SplitBlocks(h.blocks, a, size));
            && Live(h1, rem) && !h1.blocks[rem].prevFree
            && StillHeld(h, h1, a, rem)
  {
    CarveSafe(h, a, size);
    Neighbours(h.sent, h.blocks, a);
  }

  /** `c` may be given new links while `a` is in transit: it is `a`, on a free list, or the null block. */
  predicate Relinkable(h: Heap, a: int, c: int)
  {
    c == NULL_BLOCK || (c in h.blocks && c != h.sent && (c == a || Listed(h, c)))
  }

  lemma AlignedWords(mem: Memory, poolSize: int, c: int)
    requires Words(mem, poolSize) && c % 8 == 0 && 0 <= c && c + 8 <= poolSize
    ensures c in mem && c + 4 in mem
    ensures c + 16 <= poolSize ==> c + 8 in mem && c + 12 in mem
  {
  }

  lemma LinkWordMapped(h: Heap, mem: Memory, poolSize: int, a: int, c: int)
    requires Geometry(h) && Words(mem, poolSize) && poolSize == h.sent + HDR && Relinkable(h, a, c)
    ensures c + 8 in mem && c + 12 in mem
  {
    if c != NULL_BLOCK {
      Neighbours(h.sent, h.blocks, c);
      AlignedWords(mem, poolSize, c);
    }
  }

  lemma LinkWordSafe(h: Heap, a: int, c: int, off: int)
    requires Geometry(h) && Relinkable(h, a, c) && (off == 8 || off == 12)
    ensures Safe(h, a, c + off)
  {
    if c == NULL_BLOCK {
      LowSafe(h, a, c + off);
    } else {
      Neighbours(h.sent, h.blocks, c);
      SpanSafe(h, a, c, c + off);
    }
  }

  lemma WriteMapped(mem: Memory, poolSize: int, x: int, v: int)
    requires Words(mem, poolSize) && x in mem
    ensures Words(mem[x := v], poolSize)
  {
  }

  lemma WriteLink(h: Heap, mem0: Memory, mem: Memory, poolSize: int, a: int, c: int, off: int, v: int)
    requires Geometry(h) && Words(mem, poolSize) && poolSize == h.sent + HDR && Headers(mem, h.blocks)
    requires Untouched(h, mem0, mem, a) && Relinkable(h, a, c) && (off == 8 || off == 12)
    ensures var m := mem[c + off := v];
            Words(m, poolSize) && Headers(m, h.blocks) && Untouched(h, mem0, m, a)
  {
    LinkWordMapped(h, mem, poolSize, a, c);
    WriteMapped(mem, poolSize, c + off, v);
    LinkWordOffHeaders(h, c);
    WriteOffHeaders(mem, h.blocks, c + off, v);
    LinkWordSafe(h, a, c, off);
    UntouchedWrite(h, mem0, mem, a, c + off, v);
  }

  lemma ListsAfterPush(h: Heap, mem: Memory, c: nat, a: int)
    requires Geometry(h) && Live(h, a) && c == Class(h.blocks[a].size) < CLASSES && AllLinks(mem, h.lists)
    ensures AllLinks(Pushed(mem, h.lists[c], a), h.lists[c := [a] + h.lists[c]])
  {
    var s := h.lists[c];
    var m1 := mem[a + 8 := First(s)];
    var m2 := m1[a + 12 := NULL_BLOCK];
    var lists' := h.lists[c := [a] + s];
    assert ListOk(h, c);
    forall d | 0 <= d < |lists'|
      ensures Links(Pushed(mem, s, a), lists'[d])
    {
      assert Links(mem, h.lists[d]);
      assert ListOk(h, d);
      if d == c {
        PushLinks(h, mem, c, a);
      } else {
        OtherListKept(h, mem, d, a, 8, First(s));
        OtherListKept(h, m1, d, a, 12, NULL_BLOCK);
        if s != [] {
          OtherListKept(h, m2, d, s[0], 12, a);
        }
      }
    }
  }

  lemma PushStep(h: Heap, mem: Memory, poolSize: int, c: nat, a: int)
    requires Geometry(h) && Live(h, a) && c == Class(h.blocks[a].size) < CLASSES
    requires Words(mem, poolSize) && poolSize == h.sent + HDR && Headers(mem, h.blocks)
    ensures h.lists[c] != [] ==> h.lists[c][0] != NULL_BLOCK
    ensures var m := Pushed(mem, h.lists[c], a);
            Words(m, poolSize) && Headers(m, h.blocks) && Untouched(h, mem, m, a)
  {
    var s := h.lists[c];
    PayloadIsMapped(h, mem, poolSize);
    var m1 := mem[a + 8 := First(s)];
    var m2 := m1[a + 12 := NULL_BLOCK];
    WriteLink(h, mem, mem, poolSize, a, a, 8, First(s));
    WriteLink(h, mem, m1, poolSize, a, a, 12, NULL_BLOCK);
    if s != [] {
      assert ListOk(h, c);
      assert s[0] in s;
      assert Linked(h.sent, h.blocks, s[0]);
      WriteLink(h, mem, m2, poolSize, a, s[0], 12, a);
    }
  }

  lemma ListsAfterSplice(h: Heap, mem: Memory, c: nat, k: nat)
    requires Geometry(h) && c < CLASSES && k < |h.lists[c]| && AllLinks(mem, h.lists)
    ensures AllLinks(Spliced(mem, h.lists[c], k), h.lists[c := h.lists[c][..k] + h.lists[c][k + 1..]])
  {
    var s := h.lists[c];
    var prev := if k == 0 then NULL_BLOCK else s[k - 1];
    var next := First(s[k + 1..]);
    var lists' := h.lists[c := s[..k] + s[k + 1..]];
    assert ListOk(h, c);
    forall d | 0 <= d < |lists'|
      ensures Links(Spliced(mem, s, k), lists'[d])
    {
      assert Links(mem, h.lists[d]);
      assert ListOk(h, d);
      if d == c {
        SpliceLinks(h, mem, c, k);
      } else {
        OtherListKept(h, mem, d, prev, 8, next);
        OtherListKept(h, mem[prev + 8 := next], d, next, 12, prev);
      }
    }
  }

  /** Writing one of the two header words changes that block's header and nothing else. */
  lemma WriteHeader(h: Heap, mem: Memory, poolSize: int, a: int, off: int, v: int, b: Block, t: int)
    requires Geometry(h) && Words(mem, poolSize) && poolSize == h.sent + HDR
    requires Headers(mem, h.blocks) && AllLinks(mem, h.lists)
    requires a in h.blocks
    requires (off == 0 && b == h.blocks[a].(prev := v)) || (off == 4 && v == Pack(b) && b.prev == h.blocks[a].prev)
    ensures Headers(mem[a + off := v], h.blocks[a := b])
    ensures Kept(h, mem, mem[a + off := v], poolSize, t)
  {
    var m := mem[a + off := v];
    var blocks' := h.blocks[a := b];
    assert HeaderAt(mem, h.blocks, a);
    assert Linked(h.sent, h.blocks, a);
    forall c | c in blocks'
      ensures HeaderAt(m, blocks', c)
    {
      assert HeaderAt(mem, h.blocks, c);
      assert Linked(h.sent, h.blocks, c);
    }
    PayloadIsMapped(h, mem, poolSize);
    HeaderKept(h, mem, mem, poolSize, t, a, off, v);
  }

  lemma LinksOffHeader(h: Heap, d: nat, a: int)
    requires Geometry(h) && a in h.blocks && d < CLASSES
    ensures OffLinks(h.lists[d], a) && OffLinks(h.lists[d], a + 4)
  {
    var s := h.lists[d];
    assert ListOk(h, d);
    forall k | 0 <= k < |s|
      ensures s[k] + 8 != a && s[k] + 12 != a && s[k] + 8 != a + 4 && s[k] + 12 != a + 4
    {
      assert s[k] in s;
      if s[k] != a {
        LinkWordsOwn(h, s[k], a);
      }
    }
  }

  /** A word strictly inside a block in transit is neither a header nor a link. */
  lemma InsideFree(h: Heap, a: int, x: int)
    requires Geometry(h) && Live(h, a) && a + HDR <= x < End(h.blocks, a)
    ensures OffHeaders(h.blocks, x)
    ensures forall d :: 0 <= d < CLASSES ==> OffLinks(h.lists[d], x)
  {
    forall b | b in h.blocks
      ensures x != b && x != b + 4
    {
      assert Linked(h.sent, h.blocks, b);
      if b != a {
        assert Apart(h.blocks, a, b);
      }
    }
    forall d | 0 <= d < CLASSES
      ensures OffLinks(h.lists[d], x)
    {
      ListAvoids(h, a, d, x);
    }
  }

  lemma ListAvoids(h: Heap, a: int, d: nat, x: int)
    requires Geometry(h) && Live(h, a) && a <= x < End(h.blocks, a) && d < CLASSES
    ensures OffLinks(h.lists[d], x)
  {
    var s := h.lists[d];
    assert ListOk(h, d);
    forall k | 0 <= k < |s|
      ensures s[k] + 8 != x && s[k] + 12 != x
    {
      assert s[k] in s;
      assert Listed(h, s[k]);
      Neighbours(h.sent, h.blocks, s[k]);
      assert Apart(h.blocks, a, s[k]);
    }
  }

  /** What every step keeps besides the headers, relative to the heap `h` at its start */
  ghost predicate Kept(h: Heap, mem0: Memory, mem: Memory, poolSize: int, t: int)
  {
    Words(mem, poolSize) && AllLinks(mem, h.lists) && Untouched(h, mem0, mem, t)
  }

  /** A write that meets no link and no other payload. */
  lemma WriteKept(h: Heap, mem0: Memory, mem: Memory, poolSize: int, t: int, x: int, v: int)
    requires |h.lists| == CLASSES && Kept(h, mem0, mem, poolSize, t)
    requires x in mem && Safe(h, t, x) && forall d :: 0 <= d < CLASSES ==> OffLinks(h.lists[d], x)
    ensures Kept(h, mem0, mem[x := v], poolSize, t)
  {
    var m := mem[x := v];
    forall d | 0 <= d < |h.lists|
      ensures Links(m, h.lists[d])
    {
      assert Links(mem, h.lists[d]) && OffLinks(h.lists[d], x);
      WriteOffLinks(mem, h.lists[d], x, v);
    }
    UntouchedWrite(h, mem0, mem, t, x, v);
  }

  lemma HeaderKept(h: Heap, mem0: Memory, mem: Memory, poolSize: int, t: int, c: int, off: int, v: int)
    requires Geometry(h) && Kept(h, mem0, mem, poolSize, t) && poolSize == h.sent + HDR
    requires c in h.blocks && (off == 0 || off == 4)
    ensures Kept(h, mem0, mem[c + off := v], poolSize, t)
  {
    assert Linked(h.sent, h.blocks, c);
    AlignedWords(mem, poolSize, c);
    SpanSafe(h, t, c, c + off);
    forall d | 0 <= d < CLASSES
      ensures OffLinks(h.lists[d], c + off)
    {
      LinksOffHeader(h, d, c);
    }
    WriteKept(h, mem0, mem, poolSize, t, c + off, v);
  }

  lemma InsideKept(h: Heap, mem0: Memory, mem: Memory, poolSize: int, a: int, x: int, v: int)
    requires Geometry(h) && Kept(h, mem0, mem, poolSize, a) && poolSize == h.sent + HDR
    requires Live(h, a) && a + HDR <= x < End(h.blocks, a) && x % 4 == 0
    ensures Kept(h, mem0, mem[x := v], poolSize, a)
  {
    InsideFree(h, a, x);
    Neighbours(h.sent, h.blocks, a);
    SpanSafe(h, a, a, x);
    WriteKept(h, mem0, mem, poolSize, a, x, v);
  }

  /** The words `block_split` writes */
  function SplitWords(mem: Memory, a: int, size: int, remSize: int, flags: int): Memory
  {
    var rem := a + HDR + size;
    mem[rem + 4 := remSize][rem := a][a + 4 := flags][rem + HDR + remSize := rem]
  }

  lemma SplitHeaders(h: Heap, mem: Memory, poolSize: int, a: int, size: nat)
    requires Geometry(h) && Headers(mem, h.blocks) && poolSize == h.sent + HDR
    requires Live(h, a) && size % 8 == 0 && 0 < size && size + HDR < h.blocks[a].size && End(h.blocks, a) in h.blocks
    ensures Headers(SplitWords(mem, a, size, h.blocks[a].size - size - HDR, Pack(h.blocks[a].(size := size))),
                    SplitBlocks(h.blocks, a, size))
  {
    var rem := a + HDR + size;
    var m := SplitWords(mem, a, size, h.blocks[a].size - size - HDR, Pack(h.blocks[a].(size := size)));
    var blocks' := SplitBlocks(h.blocks, a, size);
    NothingInside(h.sent, h.blocks, a, rem);
    Neighbours(h.sent, h.blocks, a);
    forall b | b in blocks'
      ensures HeaderAt(m, blocks', b)
    {
      assert HeaderAt(mem, h.blocks, a) && HeaderAt(mem, h.blocks, End(h.blocks, a));
      if b != rem {
        assert HeaderAt(mem, h.blocks, b);
        assert Linked(h.sent, h.blocks, b);
        if b != a {
          assert Apart(h.blocks, a, b);
        }
      }
    }
  }

  lemma SplitKept(h: Heap, mem: Memory, poolSize: int, a: int, size: nat, flags: int)
    requires Geometry(h) && Words(mem, poolSize) && AllLinks(mem, h.lists) && poolSize == h.sent + HDR
    requires Live(h, a) && size % 8 == 0 && 0 < size && size + HDR < h.blocks[a].size && End(h.blocks, a) in h.blocks
    ensures Kept(h, mem, SplitWords(mem, a, size, h.blocks[a].size - size - HDR, flags), poolSize, a)
  {
    var rem := a + HDR + size;
    Neighbours(h.sent, h.blocks, a);
    Multiples(a, size);
    PayloadIsMapped(h, mem, poolSize);
    var m1 := mem[rem + 4 := h.blocks[a].size - size - HDR];
    var m2 := m1[rem := a];
    var m3 := m2[a + 4 := flags];
    InsideKept(h, mem, mem, poolSize, a, rem + 4, h.blocks[a].size - size - HDR);
    InsideKept(h, mem, m1, poolSize, a, rem, a);
    HeaderKept(h, mem, m2, poolSize, a, a, 4, flags);
    HeaderKept(h, mem, m3, poolSize, a, End(h.blocks, a), 0, rem);
  }

  lemma SplitFields(b: Block, size: nat)
    requires b.size % 8 == 0 && size % 8 == 0 && size + HDR < b.size
    ensures var remSize := BlockSize(Pack(b)) - size - HDR;
            remSize == b.size - size - HDR && BlockSize(remSize) == remSize && remSize > 0
    ensures WithSize(Pack(b), size) == Pack(b.(size := size))
  {
    Multiples(b.size, size);
    PackedFields(b, size);
  }

  /** The whole of a split, from the words as they are read */
  lemma SplitStep(h: Heap, mem: Memory, poolSize: int, a: int, size: nat)
    requires Geometry(h) && Words(mem, poolSize) && Headers(mem, h.blocks) && AllLinks(mem, h.lists)
    requires poolSize == h.sent + HDR
    requires Live(h, a) && size % 8 == 0 && 0 < size && size + HDR < h.blocks[a].size && End(h.blocks, a) in h.blocks
    ensures a + 4 in mem && a % 8 == 0
    ensures var remSize := BlockSize(mem[a + 4]) - size - HDR;
            var m := SplitWords(mem, a, size, remSize, WithSize(mem[a + 4], size));
            && BlockSize(remSize) == remSize && remSize > 0
            && Headers(m, SplitBlocks(h.blocks, a, size))
            && Kept(h, mem, m, poolSize, a)
  {
    assert HeaderAt(mem, h.blocks, a);
    Neighbours(h.sent, h.blocks, a);
    SplitFields(h.blocks[a], size);
    SplitHeaders(h, mem, poolSize, a, size);
    SplitKept(h, mem, poolSize, a, size, Pack(h.blocks[a].(size := size)));
  }

  /** The words a merge writes: the survivor's size and the successor's `prev_phys` */
  function MergeWords(mem: Memory, a: int, flags: int, after: int): Memory
  {
    mem[a + 4 := flags][after := a]
  }

  lemma MergeHeaderAt(h: Heap, mem: Memory, a: int, b: int)
    requires Geometry(h) && Headers(mem, h.blocks)
    requires a in h.blocks && a != h.sent && End(h.blocks, a) in h.blocks && End(h.blocks, a) != h.sent
    requires End(h.blocks, End(h.blocks, a)) in h.blocks && b in AbsorbBlocks(h.blocks, a)
    ensures var n := End(h.blocks, a);
            var c := h.blocks[a].(size := h.blocks[a].size + HDR + h.blocks[n].size);
            HeaderAt(MergeWords(mem, a, Pack(c), End(h.blocks, n)), AbsorbBlocks(h.blocks, a), b)
  {
    var n := End(h.blocks, a);
    var after := End(h.blocks, n);
    Neighbours(h.sent, h.blocks, a);
    Neighbours(h.sent, h.blocks, n);
    assert HeaderAt(mem, h.blocks, b) && HeaderAt(mem, h.blocks, a) && HeaderAt(mem, h.blocks, after);
    if b != a {
      assert Apart(h.blocks, a, b);
    }
    if b != after {
      assert Apart(h.blocks, after, b);
    }
  }

  lemma MergeHeaders(h: Heap, mem: Memory, a: int)
    requires Geometry(h) && Headers(mem, h.blocks)
    requires a in h.blocks && a != h.sent && End(h.blocks, a) in h.blocks && End(h.blocks, a) != h.sent
    requires End(h.blocks, End(h.blocks, a)) in h.blocks
    ensures var n := End(h.blocks, a);
            var b := h.blocks[a].(size := h.blocks[a].size + HDR + h.blocks[n].size);
            Headers(MergeWords(mem, a, Pack(b), End(h.blocks, n)), AbsorbBlocks(h.blocks, a))
  {
    var n := End(h.blocks, a);
    var flags := Pack(h.blocks[a].(size := h.blocks[a].size + HDR + h.blocks[n].size));
    var m := MergeWords(mem, a, flags, End(h.blocks, n));
    var blocks' := AbsorbBlocks(h.blocks, a);
    forall b | b in blocks'
      ensures HeaderAt(m, blocks', b)
    {
      MergeHeaderAt(h, mem, a, b);
    }
  }

  lemma MergeKept(h: Heap, mem: Memory, poolSize: int, a: int, flags: int, t: int)
    requires Geometry(h) && Words(mem, poolSize) && AllLinks(mem, h.lists) && poolSize == h.sent + HDR
    requires a in h.blocks && a != h.sent && End(h.blocks, a) in h.blocks && End(h.blocks, a) != h.sent
    requires End(h.blocks, End(h.blocks, a)) in h.blocks
    ensures Kept(h, mem, MergeWords(mem, a, flags, End(h.blocks, End(h.blocks, a))), poolSize, t)
  {
    PayloadIsMapped(h, mem, poolSize);
    HeaderKept(h, mem, mem, poolSize, t, a, 4, flags);
    HeaderKept(h, mem, mem[a + 4 := flags], poolSize, t, End(h.blocks, End(h.blocks, a)), 0, a);
  }

  lemma MergeFields(b: Block, n: Block)
    requires b.size % 8 == 0 && n.size % 8 == 0
    ensures var flags := WithSize(Pack(b), BlockSize(Pack(b)) + HDR + BlockSize(Pack(n)));
            flags == Pack(b.(size := b.size + HDR + n.size)) && BlockSize(flags) == b.size + HDR + n.size
  {
    hide Pack, BlockSize, WithSize;
    Multiples(b.size, n.size);
    Quarter(b.size);
    Quarter(n.size);
    MergeQuarters(b, n, b.size + HDR + n.size);
  }

  lemma MergeQuarters(b: Block, n: Block, size: nat)
    requires b.size % 4 == 0 && n.size % 4 == 0 && size % 4 == 0 && size == b.size + HDR + n.size
    ensures var flags := WithSize(Pack(b), BlockSize(Pack(b)) + HDR + BlockSize(Pack(n)));
            flags == Pack(b.(size := size)) && BlockSize(flags) == size
  {
    hide Pack, BlockSize, WithSize;
    PackedFields(b, size);
    PackedFields(n, 0);
    PackedFields(b.(size := size), 0);
  }

  /** The whole of a merge, from the words as they are read */
  lemma MergeStep(h: Heap, mem: Memory, poolSize: int, a: int, t: int)
    requires Geometry(h) && Words(mem, poolSize) && Headers(mem, h.blocks) && AllLinks(mem, h.lists)
    requires poolSize == h.sent + HDR
    requires a in h.blocks && a != h.sent && End(h.blocks, a) in h.blocks && End(h.blocks, a) != h.sent
    requires End(h.blocks, End(h.blocks, a)) in h.blocks
    ensures var n := End(h.blocks, a);
            && a + 4 in mem && n + 4 in mem
            && var flags := WithSize(mem[a + 4], BlockSize(mem[a + 4]) + HDR + BlockSize(mem[n + 4]));
            && a + HDR + BlockSize(flags) == End(h.blocks, n)
            && Headers(MergeWords(mem, a, flags, End(h.blocks, n)), AbsorbBlocks(h.blocks, a))
            && Kept(h, mem, MergeWords(mem, a, flags, End(h.blocks, n)), poolSize, t)
  {
    var n := End(h.blocks, a);
    assert HeaderAt(mem, h.blocks, a) && HeaderAt(mem, h.blocks, n);
    Neighbours(h.sent, h.blocks, a);
    Neighbours(h.sent, h.blocks, n);
    var size := h.blocks[a].size + HDR + h.blocks[n].size;
    MergeFields(h.blocks[a], h.blocks[n]);
    MergeHeaders(h, mem, a);
    MergeKept(h, mem, poolSize, a, Pack(h.blocks[a].(size := size)), t);
  }

  // ---------- bitmaps ----------

  lemma BitmapsSet(fl: nat, sl: seq<nat>, lists: seq<seq<int>>, f: nat, j: nat, s: seq<int>)
    requires Bitmaps(fl, sl, lists) && f < FL_COUNT && j < SL_COUNT && s != []
    ensures Bitmaps(SetBit(fl, f), sl[f := SetBit(sl[f], j)], lists[SL_COUNT * f + j := s])
  {
    var sl' := sl[f := SetBit(sl[f], j)];
    var lists' := lists[SL_COUNT * f + j := s];
    forall g | 0 <= g < FL_COUNT
      ensures Row(sl'[g], lists', g)
    {
      assert Row(sl[g], lists, g);
      forall i: nat
        ensures SlBit(sl'[g], lists', g, i)
      {
        assert SlBit(sl[g], lists, g, i);
        BitOfSet(sl[f], j, i);
      }
    }
    BitOfSet(sl[f], j, j);
    ZeroHasNoBits(j);
    forall g: nat
      ensures FlBit(SetBit(fl, f), sl', g)
    {
      assert FlBit(fl, sl, g);
      BitOfSet(fl, f, g);
    }
  }

  lemma BitmapsClear(fl: nat, sl: seq<nat>, lists: seq<seq<int>>, f: nat, j: nat)
    requires Bitmaps(fl, sl, lists) && f < FL_COUNT && j < SL_COUNT
    requires lists[SL_COUNT * f + j] != []
    ensures var sl' := sl[f := ClearBit(sl[f], j)];
            Bitmaps(if sl'[f] == 0 then ClearBit(fl, f) else fl, sl', lists[SL_COUNT * f + j := []])
  {
    var sl' := sl[f := ClearBit(sl[f], j)];
    var fl' := if sl'[f] == 0 then ClearBit(fl, f) else fl;
    var lists' := lists[SL_COUNT * f + j := []];
    forall g | 0 <= g < FL_COUNT
      ensures Row(sl'[g], lists', g)
    {
      assert Row(sl[g], lists, g);
      forall i: nat
        ensures SlBit(sl'[g], lists', g, i)
      {
        assert SlBit(sl[g], lists, g, i);
        BitOfClear(sl[f], j, i);
      }
    }
    assert Row(sl[f], lists, f) && SlBit(sl[f], lists, f, j);
    ZeroHasNoBits(j);
    forall g: nat
      ensures FlBit(fl', sl', g)
    {
      assert FlBit(fl, sl, g);
      BitOfClear(fl, f, g);
    }
  }

  lemma BitmapsSame(fl: nat, sl: seq<nat>, lists: seq<seq<int>>, c: nat, s: seq<int>)
    requires Bitmaps(fl, sl, lists) && c < CLASSES && lists[c] != [] && s != []
    ensures Bitmaps(fl, sl, lists[c := s])
  {
    var lists' := lists[c := s];
    forall g | 0 <= g < FL_COUNT
      ensures Row(sl[g], lists', g)
    {
      assert Row(sl[g], lists, g);
      forall i: nat
        ensures SlBit(sl[g], lists', g, i)
      {
        assert SlBit(sl[g], lists, g, i);
      }
    }
  }

  /** Within a row, the lowest set bit from `j` on is the first non-empty list. */
  lemma RowSearch(sl: nat, lists: seq<seq<int>>, f: nat, j: nat)
    requires |lists| == CLASSES && f < FL_COUNT && j <= SL_COUNT && Row(sl, lists, f)
    ensures BitsFrom(sl, j) == 0 ==> forall e :: SL_COUNT * f + j <= e < SL_COUNT * (f + 1) ==> lists[e] == []
    ensures BitsFrom(sl, j) != 0 ==>
              var k := Ctz(BitsFrom(sl, j));
              && j <= k < SL_COUNT && lists[SL_COUNT * f + k] != []
              && forall e :: SL_COUNT * f + j <= e < SL_COUNT * f + k ==> lists[e] == []
  {
    var w := BitsFrom(sl, j);
    var k := SL_COUNT;
    if w != 0 {
      CtzIsLowest(w);
      k := Ctz(w);
      BitOfFrom(sl, j, k);
      assert SlBit(sl, lists, f, k);
    }
    forall e | SL_COUNT * f + j <= e < SL_COUNT * f + k
      ensures lists[e] == []
    {
      var i := e - SL_COUNT * f;
      BitOfFrom(sl, j, i);
      ZeroHasNoBits(i);
      assert SlBit(sl, lists, f, i);
    }
  }

  /** Across rows, the lowest set bit after row `f` is the first row with a non-empty list. */
  lemma RowsSearch(fl: nat, sl: seq<nat>, lists: seq<seq<int>>, f: nat)
    requires Bitmaps(fl, sl, lists) && f < FL_COUNT
    ensures BitsFrom(fl, f + 1) == 0 ==> forall g :: f < g < FL_COUNT ==> sl[g] == 0
    ensures BitsFrom(fl, f + 1) != 0 ==>
              var k := Ctz(BitsFrom(fl, f + 1));
              f < k < FL_COUNT && sl[k] != 0 && forall g :: f < g < k ==> sl[g] == 0
  {
    var w := BitsFrom(fl, f + 1);
    if w == 0 {
      forall g | f < g < FL_COUNT
        ensures sl[g] == 0
      {
        BitOfFrom(fl, f + 1, g);
        ZeroHasNoBits(g);
        assert FlBit(fl, sl, g);
      }
    } else {
      CtzIsLowest(w);
      var k := Ctz(w);
      BitOfFrom(fl, f + 1, k);
      assert FlBit(fl, sl, k);
      forall g | f < g < k
        ensures sl[g] == 0
      {
        BitOfFrom(fl, f + 1, g);
        assert FlBit(fl, sl, g);
      }
    }
  }

  lemma FirstFromUnique(lists: seq<seq<int>>, c: nat, d: nat)
    requires c <= d <= |lists|
    requires d < |lists| ==> lists[d] != []
    requires forall e :: c <= e < d ==> lists[e] == []
    ensures FirstFrom(lists, c) == d
  {
  }

  /** What `locate_free` reads from the bitmaps is the first non-empty list from class (f, j) on. */
  lemma BitmapSearch(fl: nat, sl: seq<nat>, lists: seq<seq<int>>, f: nat, j: nat)
    requires Bitmaps(fl, sl, lists) && f < FL_COUNT && j < SL_COUNT
    ensures BitsFrom(sl[f], j) != 0 ==>
            FirstFrom(lists, SL_COUNT * f + j) == SL_COUNT * f + Ctz(BitsFrom(sl[f], j)) < CLASSES
    ensures BitsFrom(sl[f], j) == 0 && BitsFrom(fl, f + 1) == 0 ==> FirstFrom(lists, SL_COUNT * f + j) == CLASSES
    ensures BitsFrom(sl[f], j) == 0 && BitsFrom(fl, f + 1) != 0 ==>
              var g := Ctz(BitsFrom(fl, f + 1));
              g < FL_COUNT && sl[g] != 0 && FirstFrom(lists, SL_COUNT * f + j) == SL_COUNT * g + Ctz(sl[g]) < CLASSES
  {
    var c := SL_COUNT * f + j;
    RowSearch(sl[f], lists, f, j);
    if BitsFrom(sl[f], j) != 0 {
      FirstFromUnique(lists, c, SL_COUNT * f + Ctz(BitsFrom(sl[f], j)));
    } else {
      RowsSearch(fl, sl, lists, f);
      var g := if BitsFrom(fl, f + 1) == 0 then FL_COUNT else Ctz(BitsFrom(fl, f + 1));
      forall e | SL_COUNT * (f + 1) <= e < SL_COUNT * g
        ensures lists[e] == []
      {
        assert sl[e / SL_COUNT] == 0;
        RowSearch(sl[e / SL_COUNT], lists, e / SL_COUNT, 0);
      }
      if g < FL_COUNT {
        RowSearch(sl[g], lists, g, 0);
        FirstFromUnique(lists, c, SL_COUNT * g + Ctz(sl[g]));
      } else {
        FirstFromUnique(lists, c, CLASSES);
      }
    }
  }
}
