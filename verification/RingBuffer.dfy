/**
 The ring buffer's own routines on their byte array (lib/ring_buffer/ring_buffer.c), called one at a
 time: a bounded first-in first-out queue, for single bytes and for whole buffers alike.
 */
module RingBuffer {
  import opened Bits32
  import opened Wrap32
  import opened Windows
  import P = RingProtocol

  type Byte = P.Byte

  // ---------- the queue that the ring implements ----------

  /** One byte in, unless the queue is full */
  function Put(q: seq<Byte>, size: nat, b: Byte): seq<Byte>
  {
    if |q| >= size then q else q + [b]
  }

  /** Byte after byte in */
  function PutEach(q: seq<Byte>, size: nat, data: seq<Byte>): seq<Byte>
    decreases |data|
  {
    if data == [] then q else PutEach(Put(q, size, data[0]), size, data[1..])
  }

  /** Byte after byte out, up to `n` of them or until the queue is empty: the bytes, and what is left */
  function GetEach(q: seq<Byte>, n: nat): (seq<Byte>, seq<Byte>)
    decreases n
  {
    if n == 0 || q == [] then ([], q)
    else
      var rest := GetEach(q[1..], n - 1);
      ([q[0]] + rest.0, rest.1)
  }

  /** Putting byte after byte accepts what there is room for, and drops the rest. */
  lemma {:induction false} PutEachAppends(q: seq<Byte>, size: nat, data: seq<Byte>)
    requires |q| <= size
    ensures PutEach(q, size, data) == q + data[..Min(|data|, size - |q|)]
    decreases |data|
  {
    if data != [] {
      PutEachAppends(Put(q, size, data[0]), size, data[1..]);
      if |q| < size {
        assert data[..Min(|data|, size - |q|)] == [data[0]] + data[1..][..Min(|data| - 1, size - |q| - 1)];
      }
    }
  }

  lemma {:induction false} GetEachSplits(q: seq<Byte>, n: nat)
    ensures GetEach(q, n) == (q[..Min(n, |q|)], q[Min(n, |q|)..])
    decreases n
  {
    if n > 0 && q != [] {
      GetEachSplits(q[1..], n - 1);
      var m := Min(n, |q|);
      assert q[..m] == [q[0]] + q[1..][..m - 1];
      assert q[m..] == q[1..][m - 1..];
    }
  }

  /** Getting byte after byte takes the front of the window. */
  lemma WindowGet(buf: seq<Byte>, from: nat, avail: nat, len: nat)
    requires |buf| > 0
    ensures var n := Min(len, avail);
            && GetEach(Window(buf, from, avail), len) == (Window(buf, from, n), Window(buf, from + n, avail - n))
            && Window(buf, from, avail) == Window(buf, from, n) + Window(buf, from + n, avail - n)
  {
    var n := Min(len, avail);
    WindowSplit(buf, from, n, avail - n);
    GetEachSplits(Window(buf, from, avail), len);
  }

  // ---------- the ring ----------

  class Ring {
    var buf: array<Byte>
    var head: nat
    var tail: nat
    ghost var puts: nat          // bytes put in so far
    ghost var gets: nat          // bytes taken out so far

    ghost predicate Valid()
      reads this
    {
      && P.SizeOk(buf.Length)
      && head == Wrap(gets) && tail == Wrap(puts)
      && gets <= puts <= gets + buf.Length
    }

    /** The bytes held, oldest first */
    ghost function Contents(): seq<Byte>
      requires Valid()
      reads this, buf
    {
      Window(buf[..], gets, puts - gets)
    }

    /** `vibe_rb_init`, for a size it accepts */
    constructor (buf: array<Byte>)
      requires P.SizeOk(buf.Length)
      ensures Valid() && this.buf == buf && Contents() == []
    {
      this.buf := buf;
      head, tail, puts, gets := 0, 0, 0, 0;
    }

    /** `vibe_rb_used` */
    method Used() returns (n: nat)
      requires Valid()
      ensures n == |Contents()| == puts - gets
    {
      MinusExact(puts, gets);
      n := Minus(tail, head);
    }

    /** `_mask` */
    method Mask(index: nat, ghost x: nat) returns (at: nat)
      requires Valid() && index == Wrap(x)
      ensures at == Slot(x, buf.Length)
    {
      PowerOfTwoTest(buf.Length);
      ghost var k: nat :| buf.Length == Pow2(k);
      MaskIsMod(index, k);
      SizeDividesWord(k);
      WrapKeepsSlot(x, buf.Length, Pow2(32 - k));
      at := And(index, buf.Length - 1);
    }

    /** `vibe_rb_put` */
    method PutByte(b: Byte) returns (ok: bool)
      requires Valid()
      modifies this`tail, this`puts, buf
      ensures Valid()
      ensures ok <==> |old(Contents())| < buf.Length
      ensures Contents() == Put(old(Contents()), buf.Length, b)
    {
      hide At, Slot, Wrap;
      var used := Used();
      if used == buf.Length {
        return false;
      }
      var at := Mask(tail, puts);
      WindowPut(buf[..], gets, used, b);
      WrapAdd(puts, 1);
      buf[at] := b;
      assert buf[..] == old(buf[..])[at := b];
      tail := Wrap(tail + 1);
      puts := puts + 1;
      ok := true;
    }

    /** `vibe_rb_get` */
    method GetByte() returns (ok: bool, b: Byte)
      requires Valid()
      modifies this`head, this`gets
      ensures Valid()
      ensures ok <==> old(Contents()) != []
      ensures ok ==> old(Contents()) == [b] + Contents()
      ensures !ok ==> Contents() == []
    {
      hide At, Slot, Wrap;
      WrapEqual(puts, gets);
      b := 0;
      if head == tail {
        return false, b;
      }
      var at := Mask(head, gets);
      b := buf[at];
      WindowSplit(buf[..], gets, 1, puts - gets - 1);
      WindowIsChunks(buf[..], gets, at, 1);
      assert buf[..][at..at + 1] + buf[..][..0] == [b];
      WrapAdd(gets, 1);
      head := Wrap(head + 1);
      gets := gets + 1;
      ok := true;
    }

    /** `vibe_rb_put_buf`: the same as putting byte after byte, in at most two copies */
    method PutBuf(data: seq<Byte>) returns (n: nat)
      requires Valid()
      modifies this`tail, this`puts, buf
      ensures Valid()
      ensures n == Min(|data|, buf.Length - |old(Contents())|)
      ensures Contents() == old(Contents()) + data[..n] == PutEach(old(Contents()), buf.Length, data)
    {
      hide At, Slot, Wrap;
      var used := Used();
      var space := buf.Length - used;
      n := if |data| < space then |data| else space;
      var first := Mask(tail, puts);
      var chunk := buf.Length - first;
      if chunk > n {
        chunk := n;
      }
      CopyWrapped(buf, first, data, chunk, n);
      WindowCopy(old(buf[..]), buf[..], gets, used, data[..n]);
      PutEachAppends(old(Contents()), buf.Length, data);
      WrapAdd(puts, n);
      tail := Wrap(tail + n);
      puts := puts + n;
    }

    /** `vibe_rb_get_buf`: the same as getting byte after byte, in at most two copies */
    method GetBuf(len: nat) returns (out: seq<Byte>)
      requires Valid()
      modifies this`head, this`gets
      ensures Valid()
      ensures (out, Contents()) == GetEach(old(Contents()), len)
      ensures old(Contents()) == out + Contents() && |out| == Min(len, |old(Contents())|)
    {
      hide At, Slot, Wrap;
      hide GetEach, Window;
      var avail := Used();
      var n := if len < avail then len else avail;
      var first := Mask(head, gets);
      var chunk := buf.Length - first;
      if chunk > n {
        chunk := n;
      }
      out := buf[..][first..first + chunk];
      assert out + buf[..][..0] == out;
      if n > chunk {
        out := out + buf[..][..n - chunk];
      }
      WindowIsChunks(buf[..], gets, first, n);
      WindowGet(buf[..], gets, avail, len);
      WrapAdd(gets, n);
      head := Wrap(head + n);
      gets := gets + n;
    }
  }

  /** `vibe_rb_init`: refuses every size that is not a power of two */
  method Init(buf: array<Byte>) returns (ring: Ring?)
    requires buf.Length < WORD
    ensures ring != null <==> exists k: nat :: buf.Length == Pow2(k)
    ensures ring != null ==> fresh(ring) && ring.Valid() && ring.buf == buf && ring.Contents() == []
  {
    PowerOfTwoTest(buf.Length);
    ring := null;
    if IsPowerOfTwo(buf.Length) {
      ring := new Ring(buf);
    }
  }
}
