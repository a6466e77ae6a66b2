/**
 The buffers of the message queue and the pipe (kernel/msgq.c, kernel/pipe.c): slots with head, tail
 and count.  First as values, then the code: a pipe's slots are bytes, a queue's are messages of
 `msg_size` bytes in a byte array.
 */
module KernelRings {
  import opened Wrap32
  import opened Windows

  type Byte = bv8

  // ---------- as values ----------

  datatype Ring<T> = Ring(slots: seq<T>, head: nat, tail: nat, used: nat)

  /** The tail is `used` slots behind the head, round the buffer. */
  ghost predicate RingOk<T>(r: Ring<T>)
  {
    && 0 < |r.slots| && r.head < |r.slots| && r.used <= |r.slots|
    && r.tail == Slot(r.head + r.used, |r.slots|)
  }

  /** What the ring holds, oldest first */
  ghost function Held<T>(r: Ring<T>): (s: seq<T>)
    requires |r.slots| > 0
    ensures |s| == r.used
  {
    Window(r.slots, r.head, r.used)
  }

  function Empty<T>(slots: seq<T>): Ring<T> { Ring(slots, 0, 0, 0) }

  /** One item in, at the tail */
  function Stored<T>(r: Ring<T>, x: T): Ring<T>
    requires r.tail < |r.slots|
  {
    Ring(r.slots[r.tail := x], r.head, (r.tail + 1) % |r.slots|, r.used + 1)
  }

  /** One item out, at the head */
  function Taken<T>(r: Ring<T>): Ring<T>
    requires 0 < |r.slots| && r.used > 0
  {
    r.(head := (r.head + 1) % |r.slots|, used := r.used - 1)
  }

  /** Item after item in */
  function StoredAll<T>(r: Ring<T>, xs: seq<T>): Ring<T>
    requires r.tail < |r.slots|
    decreases |xs|
  {
    if xs == [] then r else StoredAll(Stored(r, xs[0]), xs[1..])
  }

  /** Item after item out: the items and the ring that is left */
  function TakenAll<T>(r: Ring<T>, n: nat): (seq<T>, Ring<T>)
    requires r.head < |r.slots| && n <= r.used
    decreases n
  {
    if n == 0 then ([], r)
    else
      var rest := TakenAll(Taken(r), n - 1);
      ([r.slots[r.head]] + rest.0, rest.1)
  }

  lemma EmptyHeld<T>(slots: seq<T>)
    requires |slots| > 0
    ensures RingOk(Empty(slots)) && Held(Empty(slots)) == []
  {
    Remainder(0, |slots|, 0, 0);
  }

  lemma StoredHeld<T>(r: Ring<T>, x: T)
    requires RingOk(r) && r.used < |r.slots|
    ensures RingOk(Stored(r, x)) && Held(Stored(r, x)) == Held(r) + [x]
  {
    hide Window, Slot;
    WindowPut(r.slots, r.head, r.used, x);
    NextSlot(r.head + r.used, |r.slots|);
  }

  lemma TakenHeld<T>(r: Ring<T>)
    requires RingOk(r) && r.used > 0
    ensures RingOk(Taken(r)) && Held(r) == [r.slots[r.head]] + Held(Taken(r))
  {
    hide Window, Slot;
    WindowGetOne(r.slots, r.head, r.used);
    TailStays(r.head, r.used, |r.slots|);
  }

  lemma {:induction false} StoredAllHeld<T>(r: Ring<T>, xs: seq<T>)
    requires RingOk(r) && r.used + |xs| <= |r.slots|
    ensures RingOk(StoredAll(r, xs)) && Held(StoredAll(r, xs)) == Held(r) + xs
    ensures |StoredAll(r, xs).slots| == |r.slots|
    decreases |xs|
  {
    hide Held, Stored;
    if xs == [] {
      assert Held(r) + xs == Held(r);
    } else {
      StoredHeld(r, xs[0]);
      StoredSize(r, xs[0]);
      StoredAllHeld(Stored(r, xs[0]), xs[1..]);
      assert Held(r) + xs == Held(r) + [xs[0]] + xs[1..];
    }
  }

  lemma StoredSize<T>(r: Ring<T>, x: T)
    requires RingOk(r)
    ensures |Stored(r, x).slots| == |r.slots| && Stored(r, x).used == r.used + 1
  {
  }

  lemma {:induction false} TakenAllHeld<T>(r: Ring<T>, n: nat)
    requires RingOk(r) && n <= r.used
    ensures var (out, rest) := TakenAll(r, n);
            RingOk(rest) && |out| == n && Held(r) == out + Held(rest) && |rest.slots| == |r.slots|
    decreases n
  {
    hide Held;
    if n == 0 {
      assert [] + Held(r) == Held(r);
    } else {
      TakenHeld(r);
      TakenAllHeld(Taken(r), n - 1);
      var (out, rest) := TakenAll(Taken(r), n - 1);
      assert [r.slots[r.head]] + (out + Held(rest)) == ([r.slots[r.head]] + out) + Held(rest);
    }
  }

  /** Storing in two goes */
  lemma {:induction false} StoredMore<T>(r: Ring<T>, xs: seq<T>, x: T)
    requires RingOk(r) && r.used + |xs| < |r.slots|
    ensures RingOk(StoredAll(r, xs)) && StoredAll(r, xs + [x]) == Stored(StoredAll(r, xs), x)
    decreases |xs|
  {
    StoredAllHeld(r, xs);
    if xs == [] {
      assert xs + [x] == [x];
    } else {
      assert (xs + [x])[1..] == xs[1..] + [x];
      StoredHeld(r, xs[0]);
      StoredMore(Stored(r, xs[0]), xs[1..], x);
    }
  }

  // ---------- the pipe's buffer ----------

  class PipeBuffer {
    const buf: array<Byte>
    var head: nat
    var tail: nat
    var used: nat

    /** `vibe_pipe_init` */
    constructor (buf: array<Byte>)
      requires buf.Length > 0
      ensures this.buf == buf && Valid() && View() == Empty(buf[..])
    {
      this.buf := buf;
      head, tail, used := 0, 0, 0;
      new;
      EmptyHeld(buf[..]);
    }

    ghost function View(): Ring<Byte>
      reads this, buf
    {
      Ring(buf[..], head, tail, used)
    }

    ghost predicate Valid()
      reads this, buf
    {
      RingOk(View())
    }

    /** One turn of the write loop */
    method StoreByte(x: Byte)
      requires tail < buf.Length
      modifies this`tail, buf
      ensures View() == Stored(old(View()), x).(used := used)
    {
      buf[tail] := x;
      assert buf[..] == old(buf[..])[tail := x];
      tail := (tail + 1) % buf.Length;
    }

    /** The locked part of `vibe_pipe_write` where there is room: as much as fits of what is left to write */
    method WriteSome(data: seq<Byte>, written: nat) returns (n: nat)
      requires Valid() && written <= |data|
      modifies this`tail, this`used, buf
      ensures n == Min(|data| - written, buf.Length - old(used))
      ensures Valid() && View() == StoredAll(old(View()), data[written..written + n])
    {
      hide RingOk, Stored, StoredAll;
      ghost var r := View();
      InBounds(r);
      var space := buf.Length - used;
      n := if |data| - written < space then |data| - written else space;
      StoredAllHeld(r, data[written..written + n]);
      StoredNone(r);
      assert data[written..written] == [];
      for i := 0 to n
        invariant head == r.head && used == r.used && tail < buf.Length
        invariant View().(used := r.used + i) == StoredAll(r, data[written..written + i])
      {
        ghost var chunk := data[written..written + i];
        assert data[written..written + i + 1] == chunk + [data[written + i]];
        StoredMore(r, chunk, data[written + i]);
        StoredAllHeld(r, chunk + [data[written + i]]);
        InBounds(StoredAll(r, chunk + [data[written + i]]));
        StoredCount(View(), data[written + i], r.used + i);
        StoreByte(data[written + i]);
      }
      used := used + n;
    }

    /** One turn of the read loop */
    method TakeByte() returns (x: Byte)
      requires head < buf.Length && used > 0
      modifies this`head
      ensures x == old(buf[head]) && View() == Taken(old(View())).(used := used)
    {
      x := buf[head];
      head := (head + 1) % buf.Length;
    }

    /** The locked part of `vibe_pipe_read` where there is something: as much as there is of what is wanted */
    method ReadSome(len: nat) returns (out: seq<Byte>)
      requires Valid()
      modifies this`head, this`used
      ensures Valid() && (out, View()) == TakenAll(old(View()), Min(len, old(used)))
    {
      hide RingOk, Taken;
      ghost var r := View();
      InBounds(r);
      var n := if len < used then len else used;
      TakenAllHeld(r, n);
      out := [];
      ghost var rest := r;
      assert [] + TakenAll(r, n).0 == TakenAll(r, n).0;
      for i := 0 to n
        invariant used == r.used && rest == View().(used := r.used - i) && RingOk(rest) && head < buf.Length
        invariant out + TakenAll(rest, n - i).0 == TakenAll(r, n).0 && TakenAll(rest, n - i).1 == TakenAll(r, n).1
      {
        TakenHeld(rest);
        InBounds(Taken(rest));
        TakenCount(View(), r.used - i);
        ghost var more := TakenAll(Taken(rest), n - i - 1).0;
        var x := TakeByte();
        assert out + ([x] + more) == (out + [x]) + more;
        out := out + [x];
        rest := Taken(rest);
      }
      assert out + [] == out;
      used := used - n;
    }
  }

  // ---------- the message queue's buffer ----------

  /** Slot `k` lies inside the buffer, and before slot `j` if that comes later. */
  lemma SlotSpan(k: nat, j: nat, size: nat, max: nat)
    requires k < max
    ensures 0 <= k * size && k * size + size <= max * size
    ensures k < j ==> k * size + size <= j * size
  {
    Gap(k, max - k - 1, size);
    Gap(0, k, size);
    if k < j {
      Gap(k, j - k - 1, size);
    }
  }

  lemma {:induction false} Gap(k: nat, d: nat, size: nat)
    ensures k * size + size <= (k + 1 + d) * size
    decreases d
  {
    if d > 0 {
      Gap(k, d - 1, size);
      assert (k + 1 + d) * size == (k + d) * size + size;
    }
  }

  /** Message `k` of a buffer of messages of `size` bytes */
  ghost function Message(buf: seq<Byte>, size: nat, max: nat, k: nat): seq<Byte>
    requires |buf| == max * size && k < max
  {
    SlotSpan(k, k, size, max);
    buf[k * size..k * size + size]
  }

  ghost function Messages(buf: seq<Byte>, size: nat, max: nat): (r: seq<seq<Byte>>)
    requires |buf| == max * size
    ensures |r| == max && forall k :: 0 <= k < max ==> r[k] == Message(buf, size, max, k)
  {
    seq(max, k requires 0 <= k < max => Message(buf, size, max, k))
  }

  /** Copying a message in changes that message and no other. */
  lemma MessagesPatched(buf: seq<Byte>, buf': seq<Byte>, size: nat, max: nat, k: nat, m: seq<Byte>)
    requires |buf| == |buf'| == max * size && k < max && |m| == size
    requires forall s :: 0 <= s < |buf| ==>
               buf'[s] == if k * size <= s < k * size + size then m[s - k * size] else buf[s]
    ensures Messages(buf', size, max) == Messages(buf, size, max)[k := m]
  {
    hide Messages;
    SlotSpan(k, k, size, max);
    forall j | 0 <= j < max
      ensures Message(buf', size, max, j) == if j == k then m else Message(buf, size, max, j)
    {
      SlotSpan(j, k, size, max);
      SlotSpan(k, j, size, max);
      Patched(buf, buf', j * size, k * size, size, m, j == k);
    }
  }

  /** The stretch at `lo`, when the one at `at` has been overwritten */
  lemma Patched(buf: seq<Byte>, buf': seq<Byte>, lo: nat, at: nat, size: nat, m: seq<Byte>, same: bool)
    requires |buf| == |buf'| && |m| == size && lo + size <= |buf| && at + size <= |buf|
    requires if same then lo == at else lo + size <= at || at + size <= lo
    requires forall s :: 0 <= s < |buf| ==> buf'[s] == if at <= s < at + size then m[s - at] else buf[s]
    ensures buf'[lo..lo + size] == if same then m else buf[lo..lo + size]
  {
  }

  class MsgBuffer {
    const buf: array<Byte>
    const msgSize: nat
    const maxMsgs: nat
    var head: nat
    var tail: nat
    var used: nat

    /** `vibe_msgq_init` */
    constructor (buf: array<Byte>, msgSize: nat, maxMsgs: nat)
      requires msgSize > 0 && maxMsgs > 0 && buf.Length == maxMsgs * msgSize
      ensures this.buf == buf && this.msgSize == msgSize && this.maxMsgs == maxMsgs
      ensures Valid() && View() == Empty(Messages(buf[..], msgSize, maxMsgs))
    {
      this.buf, this.msgSize, this.maxMsgs := buf, msgSize, maxMsgs;
      head, tail, used := 0, 0, 0;
      new;
      EmptyHeld(Messages(buf[..], msgSize, maxMsgs));
    }

    ghost function View(): Ring<seq<Byte>>
      requires buf.Length == maxMsgs * msgSize
      reads this, buf
    {
      Ring(Messages(buf[..], msgSize, maxMsgs), head, tail, used)
    }

    ghost predicate Valid()
      reads this, buf
    {
      maxMsgs > 0 && buf.Length == maxMsgs * msgSize && RingOk(View())
    }

    /** The locked part of `vibe_msgq_put` where there is room */
    method Put(m: seq<Byte>)
      requires Valid() && used < maxMsgs && |m| == msgSize
      modifies this`tail, this`used, buf
      ensures Valid() && View() == Stored(old(View()), m)
    {
      hide RingOk;
      ghost var r := View();
      InBounds(r);
      StoredHeld(r, m);
      SlotSpan(tail, tail, msgSize, maxMsgs);
      CopyIn(buf, tail * msgSize, m, 0, msgSize);
      MessagesPatched(old(buf[..]), buf[..], msgSize, maxMsgs, tail, m);
      tail := (tail + 1) % maxMsgs;
      used := used + 1;
    }

    /** The locked part of `vibe_msgq_get` where there is something */
    method Get() returns (m: seq<Byte>)
      requires Valid() && used > 0
      modifies this`head, this`used
      ensures Valid() && View() == Taken(old(View())) && m == old(View()).slots[old(head)]
    {
      hide RingOk;
      ghost var r := View();
      InBounds(r);
      TakenHeld(r);
      SlotSpan(head, head, msgSize, maxMsgs);
      m := buf[..][head * msgSize..head * msgSize + msgSize];
      head := (head + 1) % maxMsgs;
      used := used - 1;
    }

    /** `vibe_msgq_peek` where there is something */
    method Peek() returns (m: seq<Byte>)
      requires Valid() && used > 0
      ensures m == Held(View())[0]
    {
      hide RingOk;
      InBounds(View());
      TakenHeld(View());
      SlotSpan(head, head, msgSize, maxMsgs);
      m := buf[..][head * msgSize..head * msgSize + msgSize];
    }

    /** The reset in `vibe_msgq_purge` */
    method Purge()
      requires Valid()
      modifies this`head, this`tail, this`used
      ensures Valid() && View() == Empty(old(View()).slots)
    {
      EmptyHeld(View().slots);
      head, tail, used := 0, 0, 0;
    }
  }

  lemma StoredNone<T>(r: Ring<T>)
    requires r.tail < |r.slots|
    ensures StoredAll(r, []) == r
  {
  }

  lemma StoredCount<T>(r: Ring<T>, x: T, used: nat)
    requires r.tail < |r.slots|
    ensures Stored(r.(used := used), x) == Stored(r, x).(used := used + 1)
  {
  }

  lemma TakenCount<T>(r: Ring<T>, used: nat)
    requires 0 < |r.slots| && r.used > 0 && used > 0
    ensures Taken(r.(used := used)) == Taken(r).(used := used - 1)
  {
  }

  lemma InBounds<T>(r: Ring<T>)
    requires RingOk(r)
    ensures r.tail < |r.slots| && r.head < |r.slots| && r.used <= |r.slots|
  {
  }

  // ---------- arithmetic ----------

  lemma NextSlot(x: nat, size: nat)
    requires size > 0
    ensures (Slot(x, size) + 1) % size == Slot(x + 1, size)
  {
    var q, r := x / size, x % size;
    assert x == size * q + r;
    if r + 1 < size {
      Remainder(x + 1, size, q, r + 1);
      Remainder(r + 1, size, 0, r + 1);
    } else {
      assert size * (q + 1) == size * q + size;
      Remainder(x + 1, size, q + 1, 0);
      Remainder(size, size, 1, 0);
    }
  }

  lemma SlotOfSlot(x: nat, j: nat, size: nat)
    requires size > 0
    ensures Slot(Slot(x, size) + j, size) == Slot(x + j, size)
  {
    var q := x / size;
    var y := Slot(x, size) + j;
    assert x + j == size * q + y;
    assert y == size * (y / size) + y % size;
    assert size * (q + y / size) == size * q + size * (y / size);
    Remainder(x + j, size, q + y / size, y % size);
  }

  lemma WindowWraps<T>(buf: seq<T>, x: nat, n: nat)
    requires |buf| > 0
    ensures Window(buf, Slot(x, |buf|), n) == Window(buf, x, n)
  {
    var h := Slot(x, |buf|);
    forall i {:trigger At(buf, i)} | h <= i < h + n
      ensures At(buf, i) == Window(buf, x, n)[i - h]
    {
      SlotOfSlot(x, i - h, |buf|);
    }
    WindowIs(buf, h, Window(buf, x, n));
  }

  lemma WindowGetOne<T>(buf: seq<T>, head: nat, used: nat)
    requires head < |buf| && used > 0
    ensures Window(buf, head, used) == [buf[head]] + Window(buf, (head + 1) % |buf|, used - 1)
  {
    hide At;
    WindowSplit(buf, head, 1, used - 1);
    SlotSelf(buf, head);
    WindowIs(buf, head, [buf[head]]);
    WindowWraps(buf, head + 1, used - 1);
    SlotMod(head + 1, |buf|);
  }

  lemma SlotMod(x: nat, size: nat)
    requires size > 0
    ensures Slot(x, size) == x % size
  {
  }

  lemma SlotSelf<T>(buf: seq<T>, head: nat)
    requires head < |buf|
    ensures At(buf, head) == buf[head]
  {
    Remainder(head, |buf|, 0, head);
  }

  lemma TailStays(head: nat, used: nat, size: nat)
    requires size > 0 && used > 0
    ensures Slot((head + 1) % size + (used - 1), size) == Slot(head + used, size)
  {
    SlotOfSlot(head + 1, used - 1, size);
  }
}
