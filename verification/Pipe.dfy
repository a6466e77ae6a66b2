/**
 The pipe (kernel/pipe.c) as a protocol: any number of reads and writes interleave by the locked
 sections of their loops, on the ring with its head, tail and count.  A section that finds no room or no
 data may make its call wait; when woken, the loop goes on where it was.  Each call has a number of its
 own and a record of its data and of how far it has got.
 */
module Pipe {
  import opened Seqs
  import opened Windows
  import opened KernelRings

  datatype Patience = NoWait | Until(deadline: nat) | Forever

  datatype Pc = Looping | Waiting | Returned

  datatype Call =
    | Write(data: seq<Byte>, patience: Patience, written: nat, pc: Pc)
    | Read(len: nat, patience: Patience, out: seq<Byte>, pc: Pc)

  datatype State = State(ring: Ring<Byte>, now: nat, readWait: seq<int>, writeWait: seq<int>, calls: map<int, Call>)

  datatype Step =
    | StartWrite(c: int, data: seq<Byte>, patience: Patience)
    | StartRead(c: int, len: nat, patience: Patience)
    | Section(c: int)                         // one turn of the call's loop
    | Tick

  predicate Enabled(s: State, step: Step)
  {
    match step
    case StartWrite(c, _, _) => c !in s.calls
    case StartRead(c, _, _) => c !in s.calls
    case Section(c) => c in s.calls && s.calls[c].pc.Looping?
    case Tick => true
  }

  predicate InBuffer(s: State)
  {
    s.ring.head < |s.ring.slots| && s.ring.tail < |s.ring.slots| && s.ring.used <= |s.ring.slots|
  }

  function WithPc(call: Call, pc: Pc): Call
  {
    match call
    case Write(data, patience, written, _) => Write(data, patience, written, pc)
    case Read(len, patience, out, _) => Read(len, patience, out, pc)
  }

  /** Wake the reader that has waited longest, if any. */
  function WakeReader(s: State): State
  {
    if s.readWait == [] || s.readWait[0] !in s.calls then s
    else s.(readWait := s.readWait[1..], calls := s.calls[s.readWait[0] := WithPc(s.calls[s.readWait[0]], Looping)])
  }

  function WakeWriter(s: State): State
  {
    if s.writeWait == [] || s.writeWait[0] !in s.calls then s
    else s.(writeWait := s.writeWait[1..], calls := s.calls[s.writeWait[0] := WithPc(s.calls[s.writeWait[0]], Looping)])
  }

  predicate GivesUp(s: State, patience: Patience)
  {
    patience.NoWait? || (patience.Until? && s.now >= patience.deadline)
  }

  /** How many bytes a section moves */
  function Share(s: State, call: Call): nat
    requires InBuffer(s) && (call.Write? ==> call.written <= |call.data|) && (call.Read? ==> |call.out| <= call.len)
  {
    if call.Write? then Min(|call.data| - call.written, |s.ring.slots| - s.ring.used)
    else Min(call.len - |call.out|, s.ring.used)
  }

  predicate Sane(call: Call)
  {
    (call.Write? ==> call.written <= |call.data|) && (call.Read? ==> |call.out| <= call.len)
  }

  /** The record of a call after a section */
  function Moved(s: State, call: Call): Call
    requires InBuffer(s) && Sane(call)
  {
    var n := Share(s, call);
    match call
    case Write(data, patience, written, _) =>
      if s.ring.used < |s.ring.slots| then
        Write(data, patience, written + n, if written + n == |data| then Returned else Looping)
      else WithPc(call, if GivesUp(s, patience) then Returned else Waiting)
    case Read(len, patience, out, _) =>
      if s.ring.used > 0 then
        var more := out + TakenAll(s.ring, n).0;
        Read(len, patience, more, if |more| == len then Returned else Looping)
      else WithPc(call, if out != [] || GivesUp(s, patience) then Returned else Waiting)
  }

  function Next(s: State, step: Step): State
    requires Enabled(s, step) && InBuffer(s) && (step.Section? ==> Sane(s.calls[step.c]))
  {
    match step
    case StartWrite(c, data, patience) =>
      s.(calls := s.calls[c := Write(data, patience, 0, if data == [] then Returned else Looping)])
    case StartRead(c, len, patience) =>
      s.(calls := s.calls[c := Read(len, patience, [], if len == 0 then Returned else Looping)])
    case Section(c) =>
      var call := s.calls[c];
      var n := Share(s, call);
      var s1 := s.(calls := s.calls[c := Moved(s, call)]);
      if call.Write? then
        if s.ring.used < |s.ring.slots| then
          WakeReader(s1.(ring := StoredAll(s.ring, call.data[call.written..call.written + n])))
        else if Moved(s, call).pc.Waiting? then s1.(writeWait := s.writeWait + [c])
        else s1
      else
        if s.ring.used > 0 then WakeWriter(s1.(ring := TakenAll(s.ring, n).1))
        else if Moved(s, call).pc.Waiting? then s1.(readWait := s.readWait + [c])
        else s1
    case Tick => s.(now := s.now + 1)
  }

  // ---------- what an observer sees ----------

  datatype Entry = Entry(call: int, b: Byte)

  ghost function Chunk(c: int, xs: seq<Byte>): (r: seq<Entry>)
    ensures |r| == |xs| && forall i :: 0 <= i < |xs| ==> r[i] == Entry(c, xs[i])
  {
    seq(|xs|, i requires 0 <= i < |xs| => Entry(c, xs[i]))
  }

  /** The bytes that a step puts in, and for which call */
  ghost function Accepted(s: State, step: Step): seq<Entry>
    requires Enabled(s, step) && InBuffer(s) && (step.Section? ==> Sane(s.calls[step.c]))
  {
    if step.Section? && s.calls[step.c].Write? then
      var call := s.calls[step.c];
      Chunk(step.c, call.data[call.written..call.written + Share(s, call)])
    else []
  }

  /** The bytes that a step takes out, and for which call */
  ghost function Delivered(s: State, step: Step): seq<Entry>
    requires Enabled(s, step) && InBuffer(s) && (step.Section? ==> Sane(s.calls[step.c]))
  {
    if step.Section? && s.calls[step.c].Read? then Chunk(step.c, TakenAll(s.ring, Share(s, s.calls[step.c])).0)
    else []
  }

  ghost function Bytes(log: seq<Entry>): (r: seq<Byte>)
    ensures |r| == |log| && forall i :: 0 <= i < |log| ==> r[i] == log[i].b
  {
    seq(|log|, i requires 0 <= i < |log| => log[i].b)
  }

  /** The bytes of one call in a log, in order */
  function Of(log: seq<Entry>, c: int): seq<Byte>
  {
    if log == [] then []
    else Of(log[..|log| - 1], c) + (if log[|log| - 1].call == c then [log[|log| - 1].b] else [])
  }

  lemma {:induction false} OfMore(log: seq<Entry>, c: int, xs: seq<Byte>, d: int)
    ensures Of(log + Chunk(c, xs), d) == Of(log, d) + (if d == c then xs else [])
    decreases |xs|
  {
    if xs == [] {
      assert log + Chunk(c, xs) == log;
    } else {
      var n := |xs| - 1;
      var all := log + Chunk(c, xs);
      OfMore(log, c, xs[..n], d);
      assert all[..|all| - 1] == log + Chunk(c, xs[..n]);
      assert xs == xs[..n] + [xs[n]];
      assert all[|all| - 1] == Entry(c, xs[n]);
    }
  }

  // ---------- the invariant ----------

  /**
   What a write has got in is exactly the first `written` bytes of its data, in order and once; what a
   read has taken out is exactly `out`.  A call that waits has something left to do and has not refused
   to; one that waits for ever returns only when all is written, or something read.
   */
  ghost predicate CallOk(calls: map<int, Call>, ins: seq<Entry>, outs: seq<Entry>, c: int)
  {
    if c !in calls then Of(ins, c) == [] && Of(outs, c) == []
    else
      && Sane(calls[c])
      && match calls[c]
         case Write(data, patience, written, pc) =>
           && Of(ins, c) == data[..written] && Of(outs, c) == []
           && (!pc.Returned? ==> written < |data|) && (pc.Waiting? ==> !patience.NoWait?)
           && (pc.Returned? && patience.Forever? ==> written == |data|)
         case Read(len, patience, out, pc) =>
           && Of(outs, c) == out && Of(ins, c) == []
           && (!pc.Returned? ==> |out| < len) && (pc.Waiting? ==> out == [] && !patience.NoWait?)
           && (pc.Returned? && patience.Forever? ==> out != [] || len == 0)
  }

  ghost predicate Calls(calls: map<int, Call>, ins: seq<Entry>, outs: seq<Entry>)
  {
    forall c {:trigger CallOk(calls, ins, outs, c)} :: CallOk(calls, ins, outs, c)
  }

  ghost predicate Flow(r: Ring<Byte>, ins: seq<Entry>, outs: seq<Entry>)
  {
    RingOk(r) && Bytes(ins) == Bytes(outs) + Held(r)
  }

  /** The wait lists hold exactly the calls that wait. */
  ghost predicate Lists(s: State)
  {
    && NoDup(s.readWait) && NoDup(s.writeWait)
    && (forall c :: c in s.writeWait <==> c in s.calls && s.calls[c].Write? && s.calls[c].pc.Waiting?)
    && (forall c :: c in s.readWait <==> c in s.calls && s.calls[c].Read? && s.calls[c].pc.Waiting?)
  }

  ghost predicate Inv(s: State, ins: seq<Entry>, outs: seq<Entry>)
  {
    Flow(s.ring, ins, outs) && Lists(s) && Calls(s.calls, ins, outs)
  }

  function Initial(slots: seq<Byte>): State { State(Empty(slots), 0, [], [], map[]) }

  lemma InitialInv(slots: seq<Byte>)
    requires |slots| > 0
    ensures Inv(Initial(slots), [], [])
  {
    EmptyHeld(slots);
  }

  // ---------- the ring ----------

  /** The ring after a step */
  function Turned(s: State, step: Step): Ring<Byte>
    requires Enabled(s, step) && InBuffer(s) && (step.Section? ==> Sane(s.calls[step.c]))
  {
    if !step.Section? then s.ring
    else
      var call := s.calls[step.c];
      if call.Write? then StoredAll(s.ring, call.data[call.written..call.written + Share(s, call)])
      else TakenAll(s.ring, Share(s, call)).1
  }

  lemma FlowKept(s: State, ins: seq<Entry>, outs: seq<Entry>, step: Step)
    requires Flow(s.ring, ins, outs) && Enabled(s, step) && InBuffer(s) && (step.Section? ==> Sane(s.calls[step.c]))
    ensures Flow(Turned(s, step), ins + Accepted(s, step), outs + Delivered(s, step))
  {
    hide Held, StoredAll, TakenAll, RingOk;
    assert ins + [] == ins && outs + [] == outs;
    if step.Section? {
      var call := s.calls[step.c];
      var n := Share(s, call);
      if call.Write? {
        var xs := call.data[call.written..call.written + n];
        StoredAllHeld(s.ring, xs);
        assert Bytes(ins + Chunk(step.c, xs)) == Bytes(ins) + xs;
        assert Bytes(outs) + (Held(s.ring) + xs) == (Bytes(outs) + Held(s.ring)) + xs;
      } else {
        TakenAllHeld(s.ring, n);
        var (xs, rest) := TakenAll(s.ring, n);
        assert Bytes(outs + Chunk(step.c, xs)) == Bytes(outs) + xs;
        assert Bytes(outs) + (xs + Held(rest)) == (Bytes(outs) + xs) + Held(rest);
      }
    }
  }

  // ---------- the wait lists ----------

  /** Waking changes nothing but where woken calls are. */
  ghost predicate SameCalls(calls: map<int, Call>, calls': map<int, Call>)
  {
    calls'.Keys == calls.Keys &&
    forall c {:trigger calls'[c]} {:trigger calls[c]} :: c in calls ==>
      calls'[c] == calls[c] || (calls[c].pc.Waiting? && calls'[c] == WithPc(calls[c], Looping))
  }

  lemma WakeLists(s: State)
    requires Lists(s)
    ensures Lists(WakeReader(s)) && SameCalls(s.calls, WakeReader(s).calls) && WakeReader(s).ring == s.ring
    ensures Lists(WakeWriter(s)) && SameCalls(s.calls, WakeWriter(s).calls) && WakeWriter(s).ring == s.ring
  {
    if s.readWait != [] {
      var d := s.readWait[0];
      FrontApart(s.readWait);
      assert d in s.calls && WakeReader(s).calls == s.calls[d := WithPc(s.calls[d], Looping)];
    }
    if s.writeWait != [] {
      var d := s.writeWait[0];
      FrontApart(s.writeWait);
      assert d in s.calls && WakeWriter(s).calls == s.calls[d := WithPc(s.calls[d], Looping)];
    }
  }

  lemma SetLists(s: State, c: int, call: Call, r: Ring<Byte>)
    requires Lists(s) && (c in s.calls ==> !s.calls[c].pc.Waiting?)
    ensures !call.pc.Waiting? ==> Lists(s.(calls := s.calls[c := call], ring := r))
    ensures call.pc.Waiting? && call.Write? ==>
            Lists(s.(calls := s.calls[c := call], ring := r, writeWait := s.writeWait + [c]))
    ensures call.pc.Waiting? && call.Read? ==>
            Lists(s.(calls := s.calls[c := call], ring := r, readWait := s.readWait + [c]))
  {
    assert c !in s.readWait && c !in s.writeWait;
  }

  // ---------- the calls ----------

  lemma CallsSame(calls: map<int, Call>, calls': map<int, Call>, ins: seq<Entry>, outs: seq<Entry>)
    requires Calls(calls, ins, outs) && SameCalls(calls, calls')
    ensures Calls(calls', ins, outs)
  {
    hide Of;
    forall c
      ensures CallOk(calls', ins, outs, c)
    {
      assert CallOk(calls, ins, outs, c);
    }
  }

  lemma CallsNew(calls: map<int, Call>, ins: seq<Entry>, outs: seq<Entry>, c: int, call: Call)
    requires Calls(calls, ins, outs) && c !in calls && !call.pc.Waiting?
    requires call.Write? ==> call.written == 0 && (call.pc.Returned? <==> call.data == [])
    requires call.Read? ==> call.out == [] && (call.pc.Returned? <==> call.len == 0)
    ensures Calls(calls[c := call], ins, outs)
  {
    hide Of;
    var calls' := calls[c := call];
    forall d
      ensures CallOk(calls', ins, outs, d)
    {
      assert CallOk(calls, ins, outs, d);
    }
  }

  /** A section moves its own call on, and no other. */
  lemma CallsMove(s: State, ins: seq<Entry>, outs: seq<Entry>, c: int)
    requires Calls(s.calls, ins, outs) && InBuffer(s) && RingOk(s.ring) && c in s.calls
    requires s.calls[c].pc.Looping? && Sane(s.calls[c])
    ensures Calls(s.calls[c := Moved(s, s.calls[c])], ins + Accepted(s, Section(c)), outs + Delivered(s, Section(c)))
  {
    hide Of, TakenAll, RingOk;
    var call := s.calls[c];
    var calls' := s.calls[c := Moved(s, call)];
    var n := Share(s, call);
    var a, d := Accepted(s, Section(c)), Delivered(s, Section(c));
    assert ins + [] == ins && outs + [] == outs;
    TakenAllHeld(s.ring, if call.Read? then n else 0);
    forall e
      ensures CallOk(calls', ins + a, outs + d, e)
    {
      assert CallOk(s.calls, ins, outs, e);
      if call.Write? {
        var xs := call.data[call.written..call.written + n];
        OfMore(ins, c, xs, e);
        assert call.data[..call.written] + xs == call.data[..call.written + n];
        assert Of(ins, e) + [] == Of(ins, e);
      } else {
        OfMore(outs, c, TakenAll(s.ring, n).0, e);
        assert Of(outs, e) + [] == Of(outs, e);
        assert n == 0 ==> TakenAll(s.ring, n).0 == [];
      }
    }
  }

  // ---------- steps ----------

  lemma Ready(s: State, ins: seq<Entry>, outs: seq<Entry>, step: Step)
    requires Inv(s, ins, outs) && Enabled(s, step)
    ensures RingOk(s.ring) && InBuffer(s) && (step.Section? ==> Sane(s.calls[step.c]))
  {
    InBounds(s.ring);
    if step.Section? {
      assert CallOk(s.calls, ins, outs, step.c);
    }
  }

  lemma StepInv(s: State, ins: seq<Entry>, outs: seq<Entry>, step: Step)
    requires Inv(s, ins, outs) && Enabled(s, step)
    ensures InBuffer(s) && (step.Section? ==> Sane(s.calls[step.c]))
    ensures Inv(Next(s, step), ins + Accepted(s, step), outs + Delivered(s, step))
  {
    Ready(s, ins, outs, step);
    FlowKept(s, ins, outs, step);
    assert ins + [] == ins && outs + [] == outs;
    match step
    case StartWrite(c, data, patience) =>
      hide Lists, Calls, Flow;
      var call := Write(data, patience, 0, if data == [] then Returned else Looping);
      SetLists(s, c, call, s.ring);
      CallsNew(s.calls, ins, outs, c, call);
    case StartRead(c, len, patience) =>
      hide Lists, Calls, Flow;
      var call := Read(len, patience, [], if len == 0 then Returned else Looping);
      SetLists(s, c, call, s.ring);
      CallsNew(s.calls, ins, outs, c, call);
    case Section(c) => SectionInv(s, ins, outs, c);
    case Tick =>
  }

  lemma SectionInv(s: State, ins: seq<Entry>, outs: seq<Entry>, c: int)
    requires Inv(s, ins, outs) && Enabled(s, Section(c)) && RingOk(s.ring) && InBuffer(s) && Sane(s.calls[c])
    ensures Inv(Next(s, Section(c)), ins + Accepted(s, Section(c)), outs + Delivered(s, Section(c)))
  {
    hide Lists, Calls, Flow, RingOk, WakeReader, WakeWriter, Accepted, Delivered;
    var ins', outs' := ins + Accepted(s, Section(c)), outs + Delivered(s, Section(c));
    var r := Turned(s, Section(c));
    var call := Moved(s, s.calls[c]);
    FlowKept(s, ins, outs, Section(c));
    CallsMove(s, ins, outs, c);
    SetLists(s, c, call, r);
    var s1 := s.(calls := s.calls[c := call], ring := r);
    var s' := Next(s, Section(c));
    if !call.pc.Waiting? {
      WakeLists(s1);
      CallsSame(s1.calls, WakeReader(s1).calls, ins', outs');
      CallsSame(s1.calls, WakeWriter(s1).calls, ins', outs');
    }
    NothingMoved(s, c);
    assert s'.ring == r;
  }

  /** A section without room or data leaves the ring alone. */
  lemma NothingMoved(s: State, c: int)
    requires Enabled(s, Section(c)) && InBuffer(s) && Sane(s.calls[c])
    ensures s.calls[c].Write? && s.ring.used == |s.ring.slots| ==> Turned(s, Section(c)) == s.ring
    ensures s.calls[c].Read? && s.ring.used == 0 ==> Turned(s, Section(c)) == s.ring
  {
  }

  // ---------- runs ----------

  ghost predicate ValidRun(s: State, steps: seq<Step>)
    decreases |steps|
  {
    steps != [] ==>
      && Enabled(s, steps[0]) && InBuffer(s) && (steps[0].Section? ==> Sane(s.calls[steps[0].c]))
      && ValidRun(Next(s, steps[0]), steps[1..])
  }

  ghost function Run(s: State, steps: seq<Step>): State
    requires ValidRun(s, steps)
    decreases |steps|
  {
    if steps == [] then s else Run(Next(s, steps[0]), steps[1..])
  }

  ghost function AllIn(s: State, steps: seq<Step>): seq<Entry>
    requires ValidRun(s, steps)
    decreases |steps|
  {
    if steps == [] then [] else Accepted(s, steps[0]) + AllIn(Next(s, steps[0]), steps[1..])
  }

  ghost function AllOut(s: State, steps: seq<Step>): seq<Entry>
    requires ValidRun(s, steps)
    decreases |steps|
  {
    if steps == [] then [] else Delivered(s, steps[0]) + AllOut(Next(s, steps[0]), steps[1..])
  }

  lemma {:induction false} RunInv(s: State, ins: seq<Entry>, outs: seq<Entry>, steps: seq<Step>)
    requires Inv(s, ins, outs) && ValidRun(s, steps)
    ensures Inv(Run(s, steps), ins + AllIn(s, steps), outs + AllOut(s, steps))
    decreases |steps|
  {
    hide Inv, Next, Accepted, Delivered;
    if steps == [] {
      assert ins + [] == ins && outs + [] == outs;
    } else {
      var s', a, d := Next(s, steps[0]), Accepted(s, steps[0]), Delivered(s, steps[0]);
      StepInv(s, ins, outs, steps[0]);
      RunInv(s', ins + a, outs + d, steps[1..]);
      assert ins + (a + AllIn(s', steps[1..])) == (ins + a) + AllIn(s', steps[1..]);
      assert outs + (d + AllOut(s', steps[1..])) == (outs + d) + AllOut(s', steps[1..]);
    }
  }

  /**
   Over every interleaving of sections and waits from an empty pipe: the tail is the head plus the count
   modulo the size; the bytes accepted are those delivered and those in the ring, in order; the bytes
   that each write got in are exactly the first `written` of its data, in order and once, and the bytes
   that each read took out exactly those it has, however the calls interleave; what a call returns is
   that count; and a write that waits for ever returns only when all its data is in.
   */
  lemma PipeIsExact(slots: seq<Byte>, steps: seq<Step>)
    requires |slots| > 0 && ValidRun(Initial(slots), steps)
    ensures var s, ins, outs := Run(Initial(slots), steps), AllIn(Initial(slots), steps), AllOut(Initial(slots), steps);
            && RingOk(s.ring) && Bytes(ins) == Bytes(outs) + Held(s.ring)
            && Lists(s) && forall c :: CallOk(s.calls, ins, outs, c)
  {
    InitialInv(slots);
    RunInv(Initial(slots), [], [], steps);
    assert [] + AllIn(Initial(slots), steps) == AllIn(Initial(slots), steps);
    assert [] + AllOut(Initial(slots), steps) == AllOut(Initial(slots), steps);
  }

  /** When a turn of the loop is the last, and when it makes the call wait */
  lemma SectionEnds(s: State, ins: seq<Entry>, outs: seq<Entry>, c: int)
    requires Inv(s, ins, outs) && Enabled(s, Section(c)) && InBuffer(s) && Sane(s.calls[c])
    ensures var call := s.calls[c];
            var pc := Next(s, Section(c)).calls[c].pc;
            var blocked := if call.Write? then s.ring.used == |s.ring.slots| else s.ring.used == 0;
            var left := if call.Write? then |call.data| - call.written else call.len - |call.out|;
            var room := if call.Write? then |s.ring.slots| - s.ring.used else s.ring.used;
            var late := call.patience.NoWait? || (call.patience.Until? && call.patience.deadline <= s.now);
            && (pc.Returned? <==> if blocked then late || (call.Read? && call.out != []) else left <= room)
            && (pc.Waiting? <==> blocked && !late && (call.Write? || call.out == []))
  {
    assert CallOk(s.calls, ins, outs, c);
    TakenAllHeld(s.ring, if s.calls[c].Read? then Share(s, s.calls[c]) else 0);
    assert c !in s.readWait && c !in s.writeWait;
    assert s.readWait != [] ==> s.readWait[0] in s.readWait;
    assert s.writeWait != [] ==> s.writeWait[0] in s.writeWait;
  }

  /** A section moves all that is left to do, or leaves the ring full or empty. */
  lemma SectionMovesAll(s: State, ins: seq<Entry>, outs: seq<Entry>, c: int)
    requires Inv(s, ins, outs) && Enabled(s, Section(c)) && InBuffer(s) && Sane(s.calls[c])
    ensures var s' := Next(s, Section(c));
            && c in s'.calls && |s'.ring.slots| == |s.ring.slots|
            && match s'.calls[c]
               case Write(data, _, written, _) => written == |data| || s'.ring.used == |s.ring.slots|
               case Read(len, _, out, _) => |out| == len || s'.ring.used == 0
  {
    StillToDo(s, ins, outs, c);
    Ready(s, ins, outs, Section(c));
    SectionCounts(s, c);
    hide Lists, Calls, Flow, Next, RingOk;
    TakenAllHeld(s.ring, if s.calls[c].Read? then Share(s, s.calls[c]) else 0);
  }

  /** The wait list after the first in it was woken, if so, and call `c` has joined it, if so */
  function Moves(waiting: seq<int>, wakes: bool, joins: bool, c: int): seq<int>
  {
    (if wakes && waiting != [] then waiting[1..] else waiting) + (if joins then [c] else [])
  }

  /**
   Calls wait in line: a section that waits goes to the end; one that puts bytes in wakes the read that
   has waited longest, one that takes bytes out the write that has waited longest.
   */
  lemma FirstWaitingFirstWoken(s: State, ins: seq<Entry>, outs: seq<Entry>, c: int)
    requires Inv(s, ins, outs) && Enabled(s, Section(c)) && InBuffer(s) && Sane(s.calls[c])
    ensures var call, s' := s.calls[c], Next(s, Section(c));
            var blocked := if call.Write? then s.ring.used == |s.ring.slots| else s.ring.used == 0;
            && c in s'.calls
            && s'.readWait == Moves(s.readWait, call.Write? && !blocked, call.Read? && s'.calls[c].pc.Waiting?, c)
            && s'.writeWait == Moves(s.writeWait, call.Read? && !blocked, call.Write? && s'.calls[c].pc.Waiting?, c)
  {
    hide Flow, Calls, Moved, StoredAll, TakenAll, RingOk, GivesUp, NoDup;
    SectionEnds(s, ins, outs, c);
    WaitingHaveRecords(s, c);
  }

  lemma WaitingHaveRecords(s: State, c: int)
    requires Lists(s) && (c in s.calls ==> s.calls[c].pc.Looping?)
    ensures s.readWait != [] ==> s.readWait[0] in s.calls && s.readWait[0] != c
    ensures s.writeWait != [] ==> s.writeWait[0] in s.calls && s.writeWait[0] != c
  {
    if s.readWait != [] {
      var d := s.readWait[0];
      assert d in s.readWait && d in s.calls;
    }
    if s.writeWait != [] {
      var d := s.writeWait[0];
      assert d in s.writeWait && d in s.calls;
    }
  }

  /** Who leaves a wait list is woken, and no other record changes but that of the call itself. */
  lemma OthersAsTheyWere(s: State, ins: seq<Entry>, outs: seq<Entry>, c: int, d: int)
    requires Inv(s, ins, outs) && Enabled(s, Section(c)) && InBuffer(s) && Sane(s.calls[c])
    requires d in s.calls && d != c
    ensures var s' := Next(s, Section(c));
            && d in s'.calls
            && s'.calls[d] ==
               if (d in s.readWait && d !in s'.readWait) || (d in s.writeWait && d !in s'.writeWait)
               then WithPc(s.calls[d], Looping) else s.calls[d]
  {
    hide Flow, Calls, Moved, StoredAll, TakenAll;
    if s.readWait != [] {
      FrontApart(s.readWait);
    }
    if s.writeWait != [] {
      FrontApart(s.writeWait);
    }
  }

  // ---------- who is left waiting ----------

  /** A read is on its way to the ring. */
  predicate Reads(s: State, c: int) { c in s.calls && s.calls[c].Read? && s.calls[c].pc.Looping? }

  predicate Writes(s: State, c: int) { c in s.calls && s.calls[c].Write? && s.calls[c].pc.Looping? }

  /** If a read waits and there is data, some read is coming for it. */
  ghost predicate DataIsSpokenFor(s: State)
  {
    s.readWait == [] || s.ring.used == 0 || exists c :: Reads(s, c)
  }

  /** If a write waits and there is room, some write is coming for it. */
  ghost predicate RoomIsSpokenFor(s: State)
  {
    s.writeWait == [] || s.ring.used == |s.ring.slots| || exists c :: Writes(s, c)
  }

  /** The counts after a section, and who is woken by it */
  lemma SectionCounts(s: State, c: int)
    requires Lists(s) && RingOk(s.ring) && InBuffer(s) && Enabled(s, Section(c)) && Sane(s.calls[c])
    requires s.calls[c].Write? ==> s.calls[c].written < |s.calls[c].data|
    requires s.calls[c].Read? ==> |s.calls[c].out| < s.calls[c].len
    ensures var call, s' := s.calls[c], Next(s, Section(c));
            var n := Share(s, call);
            && |s'.ring.slots| == |s.ring.slots|
            && s'.ring.used == (if call.Write? then s.ring.used + n else s.ring.used - n)
            && s'.calls.Keys == s.calls.Keys
            && (forall d {:trigger s'.calls[d]} :: d in s.calls && d != c && s.calls[d].pc.Looping? ==>
                  s'.calls[d] == s.calls[d])
            && s'.calls[c] == Moved(s, call)
            && (call.Write? && n > 0 && s.readWait != [] ==> Reads(s', s.readWait[0]))
            && (call.Read? && n > 0 && s.writeWait != [] ==> Writes(s', s.writeWait[0]))
            && (call.Read? && n > 0 ==> s'.readWait == s.readWait)
            && (call.Write? && n > 0 ==> s'.writeWait == s.writeWait)
            && (call.Read? && n == 0 ==> s.ring.used == 0) && (call.Write? && n == 0 ==> s.ring.used == |s.ring.slots|)
            && (call.Read? && s.readWait == [] ==> n == 0 || s'.readWait == [])
            && (call.Write? && s.readWait == [] ==> s'.readWait == [])
            && (call.Read? && s.writeWait == [] ==> s'.writeWait == [])
  {
    hide RingOk, StoredAll, TakenAll;
    var call := s.calls[c];
    var n := Share(s, call);
    assert c !in s.readWait && c !in s.writeWait;
    assert s.readWait != [] ==> s.readWait[0] in s.readWait;
    assert s.writeWait != [] ==> s.writeWait[0] in s.writeWait;
    if call.Write? {
      StoredAllHeld(s.ring, call.data[call.written..call.written + n]);
    } else {
      TakenAllHeld(s.ring, n);
    }
  }

  /**
   Data is never left without a taker while a read waits, except by one step: a read that finishes, with
   no other on its way, and leaves some behind; it wakes no reader.
   */
  lemma DataLeftExactly(s: State, ins: seq<Entry>, outs: seq<Entry>, step: Step)
    requires Inv(s, ins, outs) && Enabled(s, step) && InBuffer(s) && (step.Section? ==> Sane(s.calls[step.c]))
    requires DataIsSpokenFor(s)
    ensures DataIsSpokenFor(Next(s, step)) <==>
              !(step.Section? && s.calls[step.c].Read? && s.readWait != []
                && s.calls[step.c].len - |s.calls[step.c].out| < s.ring.used
                && forall d :: Reads(s, d) ==> d == step.c)
  {
    hide Flow, Calls;
    Ready(s, ins, outs, step);
    if step.Section? {
      StillToDo(s, ins, outs, step.c);
      DataAfterSection(s, step.c);
    } else {
      StartKeeps(s, step);
    }
  }

  lemma StillToDo(s: State, ins: seq<Entry>, outs: seq<Entry>, c: int)
    requires Inv(s, ins, outs) && Enabled(s, Section(c))
    ensures s.calls[c].Write? ==> s.calls[c].written < |s.calls[c].data|
    ensures s.calls[c].Read? ==> |s.calls[c].out| < s.calls[c].len
  {
    assert CallOk(s.calls, ins, outs, c);
  }

  lemma StartKeeps(s: State, step: Step)
    requires Enabled(s, step) && InBuffer(s) && !step.Section?
    ensures DataIsSpokenFor(s) ==> DataIsSpokenFor(Next(s, step))
    ensures RoomIsSpokenFor(s) ==> RoomIsSpokenFor(Next(s, step))
  {
    var s' := Next(s, step);
    forall c | Reads(s, c)
      ensures Reads(s', c)
    {
    }
    forall c | Writes(s, c)
      ensures Writes(s', c)
    {
    }
  }

  lemma DataAfterSection(s: State, c: int)
    requires Lists(s) && RingOk(s.ring) && InBuffer(s) && Enabled(s, Section(c)) && Sane(s.calls[c])
    requires s.calls[c].Write? ==> s.calls[c].written < |s.calls[c].data|
    requires s.calls[c].Read? ==> |s.calls[c].out| < s.calls[c].len
    requires DataIsSpokenFor(s)
    ensures DataIsSpokenFor(Next(s, Section(c))) <==>
              !(s.calls[c].Read? && s.readWait != [] && s.calls[c].len - |s.calls[c].out| < s.ring.used
                && forall d :: Reads(s, d) ==> d == c)
  {
    SectionCounts(s, c);
    hide Lists, RingOk, Next, Moved;
    var call, s' := s.calls[c], Next(s, Section(c));
    var n := Share(s, call);
    forall d | d != c && Reads(s, d)
      ensures Reads(s', d)
    {
      assert s'.calls[d] == s.calls[d];
    }
    if call.Write? {
      if n == 0 && s.readWait != [] && s.ring.used > 0 {
        var d :| Reads(s, d);
        assert Reads(s', d);
      }
    } else {
      ReadMoves(s, c);
      NoNewReads(s, c);
    }
  }

  /** A read that leaves something behind has all it asked for. */
  lemma ReadMoves(s: State, c: int)
    requires InBuffer(s) && RingOk(s.ring) && c in s.calls && Sane(s.calls[c]) && s.calls[c].Read?
    requires |s.calls[c].out| < s.calls[c].len
    ensures var call := s.calls[c];
            var n := Share(s, call);
            && Moved(s, call).Read?
            && (n < s.ring.used <==> call.len - |call.out| < s.ring.used)
            && (n < s.ring.used ==> Moved(s, call).pc.Returned?)
  {
    TakenAllHeld(s.ring, Share(s, s.calls[c]));
  }

  /** A read's section sets no other read going. */
  lemma NoNewReads(s: State, c: int)
    requires Lists(s) && InBuffer(s) && Enabled(s, Section(c)) && Sane(s.calls[c]) && s.calls[c].Read?
    ensures forall d :: Reads(Next(s, Section(c)), d) && d != c ==> Reads(s, d)
  {
    assert s.writeWait != [] ==> s.writeWait[0] in s.writeWait;
  }

  /** Likewise for room: a write that finishes, with no other on its way, and leaves some, wakes no writer. */
  lemma RoomLeftExactly(s: State, ins: seq<Entry>, outs: seq<Entry>, step: Step)
    requires Inv(s, ins, outs) && Enabled(s, step) && InBuffer(s) && (step.Section? ==> Sane(s.calls[step.c]))
    requires RoomIsSpokenFor(s)
    ensures RoomIsSpokenFor(Next(s, step)) <==>
              !(step.Section? && s.calls[step.c].Write? && s.writeWait != []
                && |s.calls[step.c].data| - s.calls[step.c].written < |s.ring.slots| - s.ring.used
                && forall d :: Writes(s, d) ==> d == step.c)
  {
    hide Flow, Calls;
    Ready(s, ins, outs, step);
    if step.Section? {
      StillToDo(s, ins, outs, step.c);
      RoomAfterSection(s, step.c);
    } else {
      StartKeeps(s, step);
    }
  }

  lemma RoomAfterSection(s: State, c: int)
    requires Lists(s) && RingOk(s.ring) && InBuffer(s) && Enabled(s, Section(c)) && Sane(s.calls[c])
    requires s.calls[c].Write? ==> s.calls[c].written < |s.calls[c].data|
    requires s.calls[c].Read? ==> |s.calls[c].out| < s.calls[c].len
    requires RoomIsSpokenFor(s)
    ensures RoomIsSpokenFor(Next(s, Section(c))) <==>
              !(s.calls[c].Write? && s.writeWait != []
                && |s.calls[c].data| - s.calls[c].written < |s.ring.slots| - s.ring.used
                && forall d :: Writes(s, d) ==> d == c)
  {
    SectionCounts(s, c);
    hide Lists, RingOk, Next, Moved;
    var call, s' := s.calls[c], Next(s, Section(c));
    var n := Share(s, call);
    forall d | d != c && Writes(s, d)
      ensures Writes(s', d)
    {
      assert s'.calls[d] == s.calls[d];
    }
    if call.Read? {
      if n == 0 && s.writeWait != [] && s.ring.used < |s.ring.slots| {
        var d :| Writes(s, d);
        assert Writes(s', d);
      }
    } else {
      WriteMoves(s, c);
      NoNewWrites(s, c);
    }
  }

  /** A write that leaves room has all its data in. */
  lemma WriteMoves(s: State, c: int)
    requires InBuffer(s) && c in s.calls && Sane(s.calls[c]) && s.calls[c].Write?
    requires s.calls[c].written < |s.calls[c].data|
    ensures var call := s.calls[c];
            var n, room := Share(s, call), |s.ring.slots| - s.ring.used;
            && Moved(s, call).Write?
            && (n < room <==> |call.data| - call.written < room)
            && (n < room ==> Moved(s, call).pc.Returned?)
  {
  }

  /** A write's section sets no other write going. */
  lemma NoNewWrites(s: State, c: int)
    requires Lists(s) && InBuffer(s) && Enabled(s, Section(c)) && Sane(s.calls[c]) && s.calls[c].Write?
    ensures forall d :: Writes(Next(s, Section(c)), d) && d != c ==> Writes(s, d)
  {
    assert s.readWait != [] ==> s.readWait[0] in s.readWait;
  }

  /** A call waits for what is there, with no call left to wake it. */
  predicate Stranded(s: State)
  {
    && ((s.readWait != [] && s.ring.used > 0) || (s.writeWait != [] && s.ring.used < |s.ring.slots|))
    && forall c :: c in s.calls ==> !s.calls[c].pc.Looping?
  }

  lemma Unroll(s: State, step: Step, rest: seq<Step>)
    requires Enabled(s, step) && InBuffer(s) && (step.Section? ==> Sane(s.calls[step.c]))
    requires ValidRun(Next(s, step), rest)
    ensures ValidRun(s, [step] + rest) && Run(s, [step] + rest) == Run(Next(s, step), rest)
  {
    assert ([step] + rest)[1..] == rest;
  }

  /** Two reads of one byte wait, and a write of two bytes comes. */
  function TwoReads(a: Byte, b: Byte): State
  {
    State(Empty([a, b]), 0, [1, 2], [],
          map[1 := Read(1, Forever, [], Waiting), 2 := Read(1, Forever, [], Waiting),
              3 := Write([a, b], NoWait, 0, Looping)])
  }

  lemma BothWait(a: Byte, b: Byte, rest: seq<Step>)
    requires ValidRun(TwoReads(a, b), rest)
    ensures var steps := [StartRead(1, 1, Forever)] + ([Section(1)] + ([StartRead(2, 1, Forever)] + ([Section(2)] +
            ([StartWrite(3, [a, b], NoWait)] + rest))));
            ValidRun(Initial([a, b]), steps) && Run(Initial([a, b]), steps) == Run(TwoReads(a, b), rest)
  {
    hide ValidRun, Run;
    var s0 := Initial([a, b]);
    var s1 := Next(s0, StartRead(1, 1, Forever));
    var s2 := Next(s1, Section(1));
    var s3 := Next(s2, StartRead(2, 1, Forever));
    var s4 := Next(s3, Section(2));
    assert s4.readWait == [1, 2] && Next(s4, StartWrite(3, [a, b], NoWait)) == TwoReads(a, b);
    Unroll(s4, StartWrite(3, [a, b], NoWait), rest);
    Unroll(s3, Section(2), [StartWrite(3, [a, b], NoWait)] + rest);
    Unroll(s2, StartRead(2, 1, Forever), [Section(2)] + ([StartWrite(3, [a, b], NoWait)] + rest));
    Unroll(s1, Section(1), [StartRead(2, 1, Forever)] + ([Section(2)] + ([StartWrite(3, [a, b], NoWait)] + rest)));
    Unroll(s0, StartRead(1, 1, Forever),
           [Section(1)] + ([StartRead(2, 1, Forever)] + ([Section(2)] + ([StartWrite(3, [a, b], NoWait)] + rest))));
  }

  /** The write returns, having woken one read; that takes its byte and returns. */
  lemma OneServed(a: Byte, b: Byte)
    ensures var s := TwoReads(a, b);
            ValidRun(s, [Section(3)] + ([Section(1)] + [])) && Stranded(Run(s, [Section(3)] + ([Section(1)] + [])))
  {
    hide StoredAll, TakenAll, ValidRun, Run;
    var s := TwoReads(a, b);
    EmptyHeld([a, b]);
    assert [a, b][0..2] == [a, b];
    StoredAllHeld(s.ring, [a, b]);
    var s6 := Next(s, Section(3));
    assert s6.readWait == [2] && s6.ring == StoredAll(s.ring, [a, b]);
    InBounds(s6.ring);
    TakenAllHeld(s6.ring, 1);
    var s7 := Next(s6, Section(1));
    assert s7.readWait == [2] && s7.ring == TakenAll(s6.ring, 1).1 && s7.calls.Keys == {1, 2, 3};
    RunEnds(s7);
    Unroll(s6, Section(1), []);
    Unroll(s, Section(3), [Section(1)] + []);
  }

  lemma RunEnds(s: State)
    ensures ValidRun(s, []) && Run(s, []) == s
  {
  }

  /** The other waits on, next to a byte. */
  lemma ReadStranded(a: Byte, b: Byte)
    ensures var steps := [StartRead(1, 1, Forever)] + ([Section(1)] + ([StartRead(2, 1, Forever)] + ([Section(2)] +
            ([StartWrite(3, [a, b], NoWait)] + ([Section(3)] + ([Section(1)] + []))))));
            ValidRun(Initial([a, b]), steps) && Stranded(Run(Initial([a, b]), steps))
  {
    OneServed(a, b);
    BothWait(a, b, [Section(3)] + ([Section(1)] + []));
  }
}
