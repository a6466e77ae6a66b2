/**
 The debug channels (subsys/rtt/rtt.c): buffers shared with a debug host, which reads and moves its
 own offset at any time.  One slot is always left free, so that equal offsets mean "empty".
 */
module Rtt {
  import opened Wrap32
  import opened Windows

  type Byte = bv8

  class Channel {
    const buf: array<Byte>
    var wr: nat                  // WrOff
    var rd: nat                  // RdOff
    ghost var puts: nat
    ghost var gets: nat

    constructor (buf: array<Byte>)
      requires buf.Length > 0
      ensures Valid() && this.buf == buf && Contents() == []
    {
      this.buf := buf;
      wr, rd, puts, gets := 0, 0, 0, 0;
      new;
      Remainder(0, buf.Length, 0, 0);
    }

    ghost predicate Valid()
      reads this
    {
      && buf.Length > 0
      && wr == Slot(puts, buf.Length) && rd == Slot(gets, buf.Length)
      && gets <= puts < gets + buf.Length
    }

    /** The bytes that the reading side has not read */
    ghost function Contents(): (s: seq<Byte>)
      requires Valid()
      reads this, buf
      ensures |s| == puts - gets
    {
      Window(buf[..], gets, puts - gets)
    }

    /** `vibe_rtt_up_used` */
    method Used() returns (n: nat)
      requires Valid()
      ensures n == |Contents()|
    {
      AddSlot(gets, puts - gets, buf.Length);
      n := if wr >= rd then wr - rd else buf.Length - rd + wr;
    }

    /** The host reads some of what there is. */
    method HostReads(n: nat) returns (got: seq<Byte>)
      requires Valid()
      modifies this`rd, this`gets
      ensures Valid() && old(Contents()) == got + Contents() && |got| == Min(n, |old(Contents())|)
      ensures gets == old(gets) + |got| && got == Window(buf[..], old(gets), |got|)
    {
      hide Window, Slot;
      var used := Used();
      var m := if n < used then n else used;
      WindowSplit(buf[..], gets, m, puts - gets - m);
      WindowIsChunks(buf[..], gets, rd, m);
      var chunk := if buf.Length - rd > m then m else buf.Length - rd;
      got := buf[..][rd..rd + chunk] + buf[..][..m - chunk];
      AddSlot(gets, m, buf.Length);
      rd := if m < buf.Length - rd then rd + m else m - (buf.Length - rd);
      gets := gets + m;
    }

    /** The copy of one run, byte by byte; after byte `k` the host reads `host(turn + k)` bytes. */
    method CopyRun(piece: seq<Byte>, at: nat, host: nat -> nat, turn: nat) returns (taken: seq<Byte>)
      requires Valid() && at == wr && at + |piece| <= buf.Length && puts - gets + |piece| < buf.Length
      modifies this`rd, this`gets, buf
      ensures Valid() && old(gets) <= gets <= puts
      ensures old(Contents()) + piece == taken + Window(buf[..], gets, puts - gets + |piece|)
    {
      hide Window, Slot;
      taken := [];
      ghost var was := Contents();
      for j := 0 to |piece|
        invariant Valid() && old(gets) <= gets <= puts && puts - gets + |piece| < buf.Length
        invariant was + piece[..j] == taken + Window(buf[..], gets, puts - gets + j)
      {
        assert piece[..j + 1] == piece[..j] + [piece[j]];
        ghost var n, held := puts - gets + j, Window(buf[..], gets, puts - gets + j);
        AddSlotTo(puts, j, buf.Length);
        WindowPut(buf[..], gets, n, piece[j]);
        ghost var buf' := buf[..][at + j := piece[j]];
        buf[at + j] := piece[j];
        assert buf[..] == buf';
        var got := HostReads(host(turn + j));
        WindowSplit(buf[..], gets - |got|, |got|, n + 1 - |got|);
        Passed(was, piece[..j], taken, held, [piece[j]], got, Window(buf[..], gets, n + 1 - |got|));
        taken := taken + got;
      }
      assert piece[..|piece|] == piece;
    }

    /** One turn of the loop of `vibe_rtt_write`: a contiguous run; none when there is no room */
    method WriteRun(data: seq<Byte>, written: nat, host: nat -> nat, turn: nat) returns (run: nat, taken: seq<Byte>)
      requires Valid() && written < |data|
      modifies this`wr, this`rd, this`puts, this`gets, buf
      ensures Valid() && written + run <= |data|
      ensures old(Contents()) + data[written..written + run] == taken + Contents()
      ensures run == 0 <==> |old(Contents())| == buf.Length - 1
      ensures run == 0 ==> Contents() == old(Contents())
    {
      hide Window, Slot;
      AddSlot(gets, puts - gets, buf.Length);
      var at := wr;
      var space := if rd > at then rd - at - 1 else buf.Length - at + rd - 1;
      assert space == buf.Length - 1 - (puts - gets);
      if space == 0 {
        run, taken := 0, [];
        return;
      }
      run := buf.Length - at;
      if run > space {
        run := space;
      }
      if run > |data| - written {
        run := |data| - written;
      }
      AddSlotTo(puts, run, buf.Length);
      taken := CopyRun(data[written..written + run], at, host, turn);
      wr := at + run;
      if wr >= buf.Length {
        wr := 0;
      }
      puts := puts + run;
    }

    /**
     `vibe_rtt_write`, with the host reading before each turn and after each byte copied, as many
     bytes as `host` says: what goes in is a prefix of the data, at least what fitted at first; the
     host gets every byte, in order, before its slot is used again.
     */
    method Write(data: seq<Byte>, host: nat -> nat) returns (written: nat, taken: seq<Byte>)
      requires Valid()
      modifies this, buf
      ensures Valid() && Min(|data|, buf.Length - 1 - |old(Contents())|) <= written <= |data|
      ensures old(Contents()) + data[..written] == taken + Contents()
      ensures written < |data| ==> |Contents()| == buf.Length - 1
    {
      hide Window, Slot;
      written, taken := 0, [];
      ghost var was := Contents();
      var turn := 0;
      assert was + data[..0] == taken + Contents();
      while written < |data|
        invariant Valid() && written <= |data|
        invariant was + data[..written] == taken + Contents()
        decreases |data| - written
      {
        var got := HostReads(host(turn));
        ghost var held := Contents();
        assert was + data[..written] == (taken + got) + held;
        taken := taken + got;
        var run, during := WriteRun(data, written, host, turn + 1);
        ghost var piece := data[written..written + run];
        assert data[..written + run] == data[..written] + piece;
        Passed(was, data[..written], taken, held, piece, during, Contents());
        taken := taken + during;
        turn := turn + run + 1;
        if run == 0 {
          break;
        }
        written := written + run;
      }
    }

    /** `vibe_rtt_read`: the bytes that the host has written, up to `len` of them */
    method Read(len: nat) returns (out: seq<Byte>)
      requires Valid()
      modifies this`rd, this`gets
      ensures Valid() && old(Contents()) == out + Contents() && |out| == Min(len, |old(Contents())|)
    {
      hide Window, Slot;
      out := [];
      var at := rd;
      ghost var n := 0;
      WindowNone(buf[..], gets);
      while |out| < len && at != wr
        invariant rd == old(rd) && gets == old(gets) && |out| == n && n <= puts - gets
        invariant at == Slot(gets + n, buf.Length)
        invariant out == Window(buf[..], gets, n) && n <= len
        decreases len - |out|
      {
        ReadOne(n);
        out := out + [buf[at]];
        AddSlotTo(gets + n, 1, buf.Length);
        at := at + 1;
        if at >= buf.Length {
          at := 0;
        }
        n := n + 1;
      }
      EmptyWhenEqual(n);
      WindowSplit(buf[..], gets, n, puts - gets - n);
      rd := at;
      gets := gets + n;
    }

    /** The reader has caught up exactly when the offsets are equal. */
    lemma EmptyWhenEqual(n: nat)
      requires Valid() && n <= puts - gets
      ensures Slot(gets + n, buf.Length) == wr <==> n == puts - gets
    {
      if n < puts - gets {
        SlotsApart(gets + n, puts, buf.Length);
      }
    }

    lemma ReadOne(n: nat)
      requires Valid() && n <= puts - gets && Slot(gets + n, buf.Length) != wr
      ensures n < puts - gets
      ensures Window(buf[..], gets, n + 1) == Window(buf[..], gets, n) + [buf[Slot(gets + n, buf.Length)]]
    {
      EmptyWhenEqual(n);
      WindowSplit(buf[..], gets, n, 1);
      WindowIs(buf[..], gets + n, [buf[Slot(gets + n, buf.Length)]]);
    }
  }

  lemma WindowNone(buf: seq<Byte>, from: nat)
    requires |buf| > 0
    ensures Window(buf, from, 0) == []
  {
  }

  lemma AddSlotTo(x: nat, j: nat, size: nat)
    requires size > 0 && Slot(x, size) + j <= size
    ensures Slot(x + j, size) == if Slot(x, size) + j == size then 0 else Slot(x, size) + j
  {
    var q, r := x / size, x % size;
    assert x == size * q + r;
    if r + j == size {
      assert size * (q + 1) == size * q + size;
      Remainder(x + j, size, q + 1, 0);
    } else {
      Remainder(x + j, size, q, r + j);
    }
  }

  /** More goes in behind what is held, and more is taken off its front. */
  lemma Passed(was: seq<Byte>, data: seq<Byte>, taken: seq<Byte>, held: seq<Byte>,
               piece: seq<Byte>, got: seq<Byte>, rest: seq<Byte>)
    requires was + data == taken + held && held + piece == got + rest
    ensures was + (data + piece) == (taken + got) + rest
  {
    assert was + (data + piece) == (was + data) + piece;
    assert (taken + held) + piece == taken + (held + piece);
    assert taken + (got + rest) == (taken + got) + rest;
  }
}
