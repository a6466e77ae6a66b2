/**
 Buffers used as rings: what lies in the slots from some index on, when indices run freely and slots
 are their remainders.
 */
module Windows {
  import opened Wrap32

  function Min(a: nat, b: nat): nat { if a < b then a else b }

  /** What is in the slot of index `i` */
  ghost function At<T>(buf: seq<T>, i: nat): T
    requires |buf| > 0
  {
    buf[Slot(i, |buf|)]
  }

  /** What the buffer holds in `n` slots from index `d` on */
  ghost function Window<T>(buf: seq<T>, d: nat, n: nat): seq<T>
    requires |buf| > 0
  {
    seq(n, i requires 0 <= i < n => At(buf, d + i))
  }

  lemma WindowIs<T>(buf: seq<T>, d: nat, s: seq<T>)
    requires |buf| > 0
    requires forall i {:trigger At(buf, i)} :: d <= i < d + |s| ==> At(buf, i) == s[i - d]
    ensures Window(buf, d, |s|) == s
  {
    hide At;
  }

  lemma StoreElsewhere<T>(buf: seq<T>, i: nat, j: nat, b: T)
    requires i < j < i + |buf|
    ensures At(buf[Slot(j, |buf|) := b], i) == At(buf, i)
  {
    SlotsApart(i, j, |buf|);
  }

  lemma StoreThere<T>(buf: seq<T>, j: nat, b: T)
    requires |buf| > 0
    ensures At(buf[Slot(j, |buf|) := b], j) == b
  {
  }

  /** A store behind the window leaves the window alone and extends it. */
  lemma WindowPut<T>(buf: seq<T>, from: nat, n: nat, b: T)
    requires n < |buf|
    ensures Window(buf[Slot(from + n, |buf|) := b], from, n + 1) == Window(buf, from, n) + [b]
  {
    hide At;
    var buf' := buf[Slot(from + n, |buf|) := b];
    var r := Window(buf, from, n) + [b];
    StoreThere(buf, from + n, b);
    forall i {:trigger At(buf', i)} | from <= i < from + n + 1
      ensures At(buf', i) == r[i - from]
    {
      if i < from + n {
        StoreElsewhere(buf, i, from + n, b);
      }
    }
    WindowIs(buf', from, r);
  }

  lemma WindowSplit<T>(buf: seq<T>, from: nat, m: nat, n: nat)
    requires |buf| > 0
    ensures Window(buf, from, m + n) == Window(buf, from, m) + Window(buf, from + m, n)
  {
    hide At;
    WindowIs(buf, from, Window(buf, from, m) + Window(buf, from + m, n));
  }

  /** `buf'` is `buf` with `data` copied in from position `first` on, in two pieces if it does not fit in one. */
  ghost predicate CopiedAt<T>(buf: seq<T>, buf': seq<T>, first: nat, data: seq<T>, s: nat)
    requires first < |buf| && |buf'| == |buf| && s < |buf|
  {
    var chunk := |buf| - first;
    buf'[s] ==
      if first <= s < first + |data| then data[s - first]
      else if chunk + s < |data| then data[chunk + s]
      else buf[s]
  }

  ghost predicate Copied<T>(buf: seq<T>, buf': seq<T>, first: nat, data: seq<T>)
    requires first < |buf|
  {
    && |buf'| == |buf|
    && forall s {:trigger CopiedAt(buf, buf', first, data, s)} :: 0 <= s < |buf| ==> CopiedAt(buf, buf', first, data, s)
  }

  /** Copying a whole buffer in behind the window extends the window by it. */
  lemma WindowCopy<T>(buf: seq<T>, buf': seq<T>, from: nat, n: nat, data: seq<T>)
    requires n + |data| <= |buf| && |buf| > 0
    requires Copied(buf, buf', Slot(from + n, |buf|), data)
    ensures Window(buf', from, n + |data|) == Window(buf, from, n) + data
  {
    hide At;
    var r := Window(buf, from, n) + data;
    forall i {:trigger At(buf', i)} | from <= i < from + n + |data|
      ensures At(buf', i) == r[i - from]
    {
      if i < from + n {
        OutsideCopy(buf, buf', from, n, data, i - from);
      } else {
        InsideCopy(buf, buf', from + n, data, i - from - n);
      }
    }
    WindowIs(buf', from, r);
  }

  lemma InsideCopy<T>(buf: seq<T>, buf': seq<T>, x: nat, data: seq<T>, j: nat)
    requires j < |data| <= |buf|
    requires Copied(buf, buf', Slot(x, |buf|), data)
    ensures At(buf', x + j) == data[j]
  {
    AddSlot(x, j, |buf|);
    assert CopiedAt(buf, buf', Slot(x, |buf|), data, Slot(x + j, |buf|));
  }

  lemma OutsideCopy<T>(buf: seq<T>, buf': seq<T>, from: nat, n: nat, data: seq<T>, i: nat)
    requires i < n && n + |data| <= |buf| && |buf| > 0
    requires Copied(buf, buf', Slot(from + n, |buf|), data)
    ensures At(buf', from + i) == At(buf, from + i)
  {
    var first, s := Slot(from + n, |buf|), Slot(from + i, |buf|);
    var chunk := |buf| - first;
    assert CopiedAt(buf, buf', first, data, s);
    var j := if first <= s then s - first else chunk + s;
    AddSlot(from + n, j, |buf|);
    assert Slot(from + n + j, |buf|) == s;
    if j < |data| {
      SlotsApart(from + i, from + n + j, |buf|);
    }
  }

  /** A window is one piece of the array, or its end and its start. */
  lemma WindowIsChunks<T>(buf: seq<T>, from: nat, first: nat, n: nat)
    requires n <= |buf| && |buf| > 0 && first == Slot(from, |buf|)
    ensures var chunk := if |buf| - first > n then n else |buf| - first;
            Window(buf, from, n) == buf[first..first + chunk] + buf[..n - chunk]
  {
    hide At;
    var chunk := if |buf| - first > n then n else |buf| - first;
    var pieces := buf[first..first + chunk] + buf[..n - chunk];
    forall i {:trigger At(buf, i)} | from <= i < from + n
      ensures At(buf, i) == pieces[i - from]
    {
      ByteAtChunk(buf, from, i - from);
    }
    WindowIs(buf, from, pieces);
  }

  lemma ByteAtChunk<T>(buf: seq<T>, from: nat, j: nat)
    requires j < |buf|
    ensures At(buf, from + j) ==
              var first := Slot(from, |buf|); if j < |buf| - first then buf[first + j] else buf[j - (|buf| - first)]
  {
    AddSlot(from, j, |buf|);
  }

  /** `memcpy` of `n` bytes of `src` from `skip` on, to `dst[at..]` */
  method CopyIn<T>(dst: array<T>, at: nat, src: seq<T>, skip: nat, n: nat)
    requires at + n <= dst.Length && skip + n <= |src|
    modifies dst
    ensures forall s :: 0 <= s < dst.Length ==> dst[s] == if at <= s < at + n then src[skip + (s - at)] else old(dst[s])
  {
    for i := 0 to n
      invariant forall s :: 0 <= s < dst.Length ==>
                  dst[s] == if at <= s < at + i then src[skip + (s - at)] else old(dst[s])
    {
      dst[at + i] := src[skip + i];
    }
  }

  /** The two copies of a transfer of `n` bytes to position `first` on */
  method CopyWrapped<T>(dst: array<T>, first: nat, data: seq<T>, chunk: nat, n: nat)
    requires first < dst.Length && n <= dst.Length && n <= |data|
    requires chunk == Min(n, dst.Length - first)
    modifies dst
    ensures Copied(old(dst[..]), dst[..], first, data[..n])
  {
    CopyIn(dst, first, data, 0, chunk);
    if n > chunk {
      CopyIn(dst, 0, data, chunk, n - chunk);
    }
    forall s | 0 <= s < dst.Length
      ensures CopiedAt(old(dst[..]), dst[..], first, data[..n], s)
    {
    }
  }
}
