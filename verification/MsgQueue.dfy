/**
 The message queue (kernel/msgq.c) as a protocol: any number of calls of put and get interleave by
 their locked sections, on the buffer with its head, tail and count.  A call that finds no room or no
 message may wait; it is woken through the wait lists and tries once more.  Each call has a number of
 its own and a record of where it is and what it returned.
 */
module MsgQueue {
  import opened Seqs
  import opened KernelRings

  datatype Result<T> = Ok | Got(m: T) | Again | TimedOut

  datatype Pc<T> = Waiting | Woken | Returned(result: Result<T>)

  datatype Call<T> = Put(m: T, wait: bool, pc: Pc<T>) | Get(wait: bool, pc: Pc<T>)

  function WithPc<T>(call: Call<T>, pc: Pc<T>): Call<T>
  {
    match call
    case Put(m, wait, _) => Put(m, wait, pc)
    case Get(wait, _) => Get(wait, pc)
  }

  datatype State<T> = State(ring: Ring<T>, readWait: seq<int>, writeWait: seq<int>, calls: map<int, Call<T>>)

  datatype Step<T> =
    | StartPut(c: int, m: T, wait: bool)      // vibe_msgq_put up to its return or its wait
    | RetryPut(c: int)                        // the second section, after waking up
    | StartGet(c: int, wait: bool)
    | RetryGet(c: int)
    | Purge

  predicate Enabled<T>(s: State<T>, step: Step<T>)
  {
    match step
    case StartPut(c, _, _) => c !in s.calls
    case RetryPut(c) => c in s.calls && s.calls[c].Put? && s.calls[c].pc.Woken?
    case StartGet(c, _) => c !in s.calls
    case RetryGet(c) => c in s.calls && s.calls[c].Get? && s.calls[c].pc.Woken?
    case Purge => true
  }

  predicate Full<T>(r: Ring<T>) { r.used >= |r.slots| }

  predicate InBuffer<T>(s: State<T>) { s.ring.head < |s.ring.slots| && s.ring.tail < |s.ring.slots| }

  function SetPc<T>(s: State<T>, c: int, pc: Pc<T>): State<T>
    requires c in s.calls
  {
    s.(calls := s.calls[c := WithPc(s.calls[c], pc)])
  }

  /** Wake the reader that has waited longest, if any. */
  function WakeReader<T>(s: State<T>): State<T>
  {
    if s.readWait == [] || s.readWait[0] !in s.calls then s
    else SetPc(s, s.readWait[0], Woken).(readWait := s.readWait[1..])
  }

  function WakeWriter<T>(s: State<T>): State<T>
  {
    if s.writeWait == [] || s.writeWait[0] !in s.calls then s
    else SetPc(s, s.writeWait[0], Woken).(writeWait := s.writeWait[1..])
  }

  function WakeWriters<T>(s: State<T>): State<T>
    decreases |s.writeWait|
  {
    if s.writeWait == [] || s.writeWait[0] !in s.calls then s else WakeWriters(WakeWriter(s))
  }

  function Next<T>(s: State<T>, step: Step<T>): State<T>
    requires Enabled(s, step) && InBuffer(s)
  {
    match step
    case StartPut(c, m, wait) =>
      if !Full(s.ring) then WakeReader(s.(ring := Stored(s.ring, m), calls := s.calls[c := Put(m, wait, Returned(Ok))]))
      else if !wait then s.(calls := s.calls[c := Put(m, wait, Returned(Again))])
      else s.(writeWait := s.writeWait + [c], calls := s.calls[c := Put(m, wait, Waiting)])
    case RetryPut(c) =>
      if !Full(s.ring) then SetPc(s, c, Returned(Ok)).(ring := Stored(s.ring, s.calls[c].m))
      else SetPc(s, c, Returned(TimedOut))
    case StartGet(c, wait) =>
      if s.ring.used > 0 then
        var got := Got(s.ring.slots[s.ring.head]);
        WakeWriter(s.(ring := Taken(s.ring), calls := s.calls[c := Get(wait, Returned(got))]))
      else if !wait then s.(calls := s.calls[c := Get(wait, Returned(Again))])
      else s.(readWait := s.readWait + [c], calls := s.calls[c := Get(wait, Waiting)])
    case RetryGet(c) =>
      if s.ring.used > 0 then SetPc(s, c, Returned(Got(s.ring.slots[s.ring.head]))).(ring := Taken(s.ring))
      else SetPc(s, c, Returned(TimedOut))
    case Purge => WakeWriters(s.(ring := Empty(s.ring.slots)))
  }

  // ---------- what an observer sees ----------

  datatype Entry<T> = Entry(call: int, m: T)

  datatype Exit<T> = To(call: int, m: T) | Purged(m: T)

  /** The message that a step puts into the queue, and for which call */
  function Accepted<T>(s: State<T>, step: Step<T>): seq<Entry<T>>
    requires Enabled(s, step)
  {
    match step
    case StartPut(c, m, _) => if Full(s.ring) then [] else [Entry(c, m)]
    case RetryPut(c) => if Full(s.ring) then [] else [Entry(c, s.calls[c].m)]
    case _ => []
  }

  ghost function AllPurged<T>(held: seq<T>): (r: seq<Exit<T>>)
    ensures |r| == |held| && forall i :: 0 <= i < |held| ==> r[i] == Purged(held[i])
  {
    seq(|held|, i requires 0 <= i < |held| => Purged(held[i]))
  }

  /** The messages that a step takes out, and for which call */
  ghost function Departed<T>(s: State<T>, step: Step<T>): seq<Exit<T>>
    requires Enabled(s, step) && InBuffer(s)
  {
    match step
    case StartGet(c, _) => if s.ring.used > 0 then [To(c, s.ring.slots[s.ring.head])] else []
    case RetryGet(c) => if s.ring.used > 0 then [To(c, s.ring.slots[s.ring.head])] else []
    case Purge => AllPurged(Held(s.ring))
    case _ => []
  }

  ghost function Ins<T>(log: seq<Entry<T>>): (r: seq<T>)
    ensures |r| == |log| && forall i :: 0 <= i < |log| ==> r[i] == log[i].m
  {
    seq(|log|, i requires 0 <= i < |log| => log[i].m)
  }

  ghost function Outs<T>(log: seq<Exit<T>>): (r: seq<T>)
    ensures |r| == |log| && forall i :: 0 <= i < |log| ==> r[i] == log[i].m
  {
    seq(|log|, i requires 0 <= i < |log| => log[i].m)
  }

  /** How often call `c` put a message in */
  function InCount<T>(log: seq<Entry<T>>, c: int): nat
  {
    if log == [] then 0 else InCount(log[..|log| - 1], c) + (if log[|log| - 1].call == c then 1 else 0)
  }

  /** How often call `c` got a message */
  function OutCount<T>(log: seq<Exit<T>>, c: int): nat
  {
    if log == [] then 0
    else OutCount(log[..|log| - 1], c) + (if log[|log| - 1].To? && log[|log| - 1].call == c then 1 else 0)
  }

  // ---------- the invariant ----------

  /**
   The call has put its message in, or got the message it returned, exactly once if it returned
   success, and never otherwise.
   */
  ghost predicate Settled<T>(calls: map<int, Call<T>>, ins: seq<Entry<T>>, outs: seq<Exit<T>>, c: int)
  {
    && InCount(ins, c) == (if c in calls && calls[c].Put? && calls[c].pc == Returned(Ok) then 1 else 0)
    && OutCount(outs, c) == (if c in calls && calls[c].Get? && Succeeded(calls[c].pc) then 1 else 0)
  }

  predicate Succeeded<T>(pc: Pc<T>) { pc.Returned? && pc.result.Got? }

  /** A log entry is what the call it names asked for or returned. */
  ghost predicate InOk<T>(calls: map<int, Call<T>>, e: Entry<T>)
  {
    e.call in calls && calls[e.call].Put? && calls[e.call].m == e.m
  }

  ghost predicate OutOk<T>(calls: map<int, Call<T>>, e: Exit<T>)
  {
    e.To? ==> e.call in calls && calls[e.call].Get? && calls[e.call].pc == Returned(Got(e.m))
  }

  /** A call can only have returned what its kind and its waiting allow. */
  predicate ResultOk<T>(call: Call<T>)
  {
    match call
    case Put(_, wait, Returned(r)) => !r.Got? && (r.Again? ==> !wait) && (r.TimedOut? ==> wait)
    case Get(wait, Returned(r)) => !r.Ok? && (r.Again? ==> !wait) && (r.TimedOut? ==> wait)
    case _ => call.wait
  }

  /** The wait lists hold exactly the calls that wait. */
  ghost predicate Lists<T>(s: State<T>)
  {
    && NoDup(s.readWait) && NoDup(s.writeWait)
    && (forall c :: c in s.writeWait <==> c in s.calls && s.calls[c].Put? && s.calls[c].pc.Waiting?)
    && (forall c :: c in s.readWait <==> c in s.calls && s.calls[c].Get? && s.calls[c].pc.Waiting?)
    && (forall c {:trigger ResultOk(s.calls[c])} :: c in s.calls ==> ResultOk(s.calls[c]))
  }

  ghost predicate Logs<T>(calls: map<int, Call<T>>, ins: seq<Entry<T>>, outs: seq<Exit<T>>)
  {
    && (forall c {:trigger Settled(calls, ins, outs, c)} :: Settled(calls, ins, outs, c))
    && (forall i {:trigger ins[i]} :: 0 <= i < |ins| ==> InOk(calls, ins[i]))
    && (forall i {:trigger outs[i]} :: 0 <= i < |outs| ==> OutOk(calls, outs[i]))
  }

  ghost predicate Flow<T>(r: Ring<T>, ins: seq<Entry<T>>, outs: seq<Exit<T>>)
  {
    RingOk(r) && Ins(ins) == Outs(outs) + Held(r)
  }

  ghost predicate Inv<T>(s: State<T>, ins: seq<Entry<T>>, outs: seq<Exit<T>>)
  {
    Flow(s.ring, ins, outs) && Lists(s) && Logs(s.calls, ins, outs)
  }

  function Initial<T>(slots: seq<T>): State<T> { State(Empty(slots), [], [], map[]) }

  lemma InitialInv<T>(slots: seq<T>)
    requires |slots| > 0
    ensures Inv(Initial(slots), [], [])
  {
    EmptyHeld(slots);
  }

  // ---------- each part is kept ----------

  lemma FlowKept<T>(s: State<T>, ins: seq<Entry<T>>, outs: seq<Exit<T>>, step: Step<T>)
    requires Flow(s.ring, ins, outs) && InBuffer(s) && Enabled(s, step)
    ensures Next(s, step).ring == Moved(s, step)
    ensures Flow(Moved(s, step), ins + Accepted(s, step), outs + Departed(s, step))
  {
    hide Held;
    var r := s.ring;
    match step
    case StartPut(c, m, wait) =>
      KeptBack(ins, outs);
      if !Full(r) {
        Stores(r, ins, outs, Entry(c, m));
      }
    case RetryPut(c) =>
      KeptBack(ins, outs);
      if !Full(r) {
        Stores(r, ins, outs, Entry(c, s.calls[c].m));
      }
    case StartGet(c, wait) =>
      KeptBack(ins, outs);
      if r.used > 0 {
        Takes(r, ins, outs, c);
      }
    case RetryGet(c) =>
      KeptBack(ins, outs);
      if r.used > 0 {
        Takes(r, ins, outs, c);
      }
    case Purge =>
      Purges(r, ins, outs);
      WakesKeepRing(s.(ring := Empty(r.slots)));
  }

  /** The ring after a step */
  function Moved<T>(s: State<T>, step: Step<T>): Ring<T>
    requires Enabled(s, step) && InBuffer(s)
  {
    match step
    case StartPut(_, m, _) => if Full(s.ring) then s.ring else Stored(s.ring, m)
    case RetryPut(c) => if Full(s.ring) then s.ring else Stored(s.ring, s.calls[c].m)
    case StartGet(_, _) => if s.ring.used > 0 then Taken(s.ring) else s.ring
    case RetryGet(_) => if s.ring.used > 0 then Taken(s.ring) else s.ring
    case Purge => Empty(s.ring.slots)
  }

  lemma KeptBack<T>(ins: seq<Entry<T>>, outs: seq<Exit<T>>)
    ensures ins + [] == ins && outs + [] == outs
  {
  }

  lemma Stores<T>(r: Ring<T>, ins: seq<Entry<T>>, outs: seq<Exit<T>>, e: Entry<T>)
    requires Flow(r, ins, outs) && !Full(r) && r.tail < |r.slots|
    ensures Flow(Stored(r, e.m), ins + [e], outs)
  {
    hide Held, Stored;
    StoredHeld(r, e.m);
    assert Ins(ins + [e]) == Ins(ins) + [e.m];
    assert Outs(outs) + (Held(r) + [e.m]) == (Outs(outs) + Held(r)) + [e.m];
  }

  lemma Takes<T>(r: Ring<T>, ins: seq<Entry<T>>, outs: seq<Exit<T>>, c: int)
    requires Flow(r, ins, outs) && r.used > 0 && r.head < |r.slots|
    ensures Flow(Taken(r), ins, outs + [To(c, r.slots[r.head])])
  {
    hide Held, Taken;
    var m := r.slots[r.head];
    TakenHeld(r);
    assert Outs(outs + [To(c, m)]) == Outs(outs) + [m];
    assert Outs(outs) + ([m] + Held(Taken(r))) == (Outs(outs) + [m]) + Held(Taken(r));
  }

  lemma Purges<T>(r: Ring<T>, ins: seq<Entry<T>>, outs: seq<Exit<T>>)
    requires Flow(r, ins, outs)
    ensures Flow(Empty(r.slots), ins + [], outs + AllPurged(Held(r)))
  {
    hide Held;
    EmptyHeld(r.slots);
    assert ins + [] == ins;
    assert Outs(outs + AllPurged(Held(r))) == Outs(outs) + Held(r);
    assert Outs(outs) + Held(r) + [] == Outs(outs) + Held(r);
  }

  lemma {:induction false} WakesKeepRing<T>(s: State<T>)
    ensures WakeWriters(s).ring == s.ring
    decreases |s.writeWait|
  {
    if s.writeWait != [] && s.writeWait[0] in s.calls {
      WakesKeepRing(WakeWriter(s));
    }
  }

  // ---------- the wait lists ----------

  /** Waking changes nothing but where woken calls are. */
  ghost predicate SameCalls<T>(calls: map<int, Call<T>>, calls': map<int, Call<T>>)
  {
    calls'.Keys == calls.Keys &&
    forall c {:trigger calls'[c]} {:trigger calls[c]} :: c in calls ==>
      calls'[c] == calls[c] || (calls[c].pc.Waiting? && calls'[c] == WithPc(calls[c], Woken))
  }

  lemma WakeReaderLists<T>(s: State<T>)
    requires Lists(s)
    ensures Lists(WakeReader(s)) && SameCalls(s.calls, WakeReader(s).calls)
  {
    if s.readWait != [] {
      var d := s.readWait[0];
      FrontApart(s.readWait);
      var s' := WakeReader(s);
      assert d in s.readWait && d in s.calls && s'.calls == s.calls[d := WithPc(s.calls[d], Woken)];
      forall c | c in s'.calls
        ensures ResultOk(s'.calls[c])
      {
        assert ResultOk(s.calls[c]);
      }
    }
  }

  lemma WakeWriterLists<T>(s: State<T>)
    requires Lists(s)
    ensures Lists(WakeWriter(s)) && SameCalls(s.calls, WakeWriter(s).calls)
    ensures s.writeWait != [] ==> s.writeWait[0] in s.calls
  {
    if s.writeWait != [] {
      var d := s.writeWait[0];
      FrontApart(s.writeWait);
      var s' := WakeWriter(s);
      assert d in s.writeWait && d in s.calls && s'.calls == s.calls[d := WithPc(s.calls[d], Woken)];
      forall c | c in s'.calls
        ensures ResultOk(s'.calls[c])
      {
        assert ResultOk(s.calls[c]);
      }
    }
  }

  lemma {:induction false} WakeWritersLists<T>(s: State<T>)
    requires Lists(s)
    ensures Lists(WakeWriters(s)) && SameCalls(s.calls, WakeWriters(s).calls) && WakeWriters(s).writeWait == []
    decreases |s.writeWait|
  {
    hide Lists;
    WakeWriterLists(s);
    if s.writeWait != [] {
      WakeWritersLists(WakeWriter(s));
    }
  }

  lemma SetLists<T>(s: State<T>, c: int, call: Call<T>)
    requires Lists(s) && !call.pc.Waiting? && ResultOk(call) && (c in s.calls ==> !s.calls[c].pc.Waiting?)
    ensures Lists(s.(calls := s.calls[c := call]))
  {
    var s' := s.(calls := s.calls[c := call]);
    forall d | d in s'.calls
      ensures ResultOk(s'.calls[d])
    {
      assert d != c ==> ResultOk(s.calls[d]);
    }
  }

  lemma WaitLists<T>(s: State<T>, c: int, call: Call<T>)
    requires Lists(s) && call.pc.Waiting? && call.wait && c !in s.calls
    ensures call.Put? ==> Lists(s.(writeWait := s.writeWait + [c], calls := s.calls[c := call]))
    ensures call.Get? ==> Lists(s.(readWait := s.readWait + [c], calls := s.calls[c := call]))
  {
    var calls' := s.calls[c := call];
    forall d | d in calls'
      ensures ResultOk(calls'[d])
    {
      assert d != c ==> ResultOk(s.calls[d]);
    }
  }

  /** Whatever the ring is */
  lemma ListsOnly<T>(s: State<T>, r: Ring<T>)
    requires Lists(s)
    ensures Lists(s.(ring := r))
  {
    var s' := s.(ring := r);
    forall c | c in s'.calls
      ensures ResultOk(s'.calls[c])
    {
      assert ResultOk(s.calls[c]);
    }
  }

  // ---------- the logs ----------

  lemma CountAdds<T>(ins: seq<Entry<T>>, e: Entry<T>, outs: seq<Exit<T>>, x: Exit<T>, c: int)
    ensures InCount(ins + [e], c) == InCount(ins, c) + (if e.call == c then 1 else 0)
    ensures OutCount(outs + [x], c) == OutCount(outs, c) + (if x.To? && x.call == c then 1 else 0)
  {
    assert (ins + [e])[..|ins|] == ins && (outs + [x])[..|outs|] == outs;
  }

  lemma {:induction false} CountPurged<T>(outs: seq<Exit<T>>, more: seq<Exit<T>>, c: int)
    requires forall i :: 0 <= i < |more| ==> more[i].Purged?
    ensures OutCount(outs + more, c) == OutCount(outs, c)
    decreases |more|
  {
    if more == [] {
      assert outs + more == outs;
    } else {
      var n := |more| - 1;
      assert (outs + more)[..|outs + more| - 1] == outs + more[..n];
      CountPurged(outs, more[..n], c);
    }
  }

  lemma LogsSame<T>(calls: map<int, Call<T>>, calls': map<int, Call<T>>, ins: seq<Entry<T>>, outs: seq<Exit<T>>)
    requires Logs(calls, ins, outs) && SameCalls(calls, calls')
    ensures Logs(calls', ins, outs)
  {
    forall c
      ensures Settled(calls', ins, outs, c)
    {
      assert Settled(calls, ins, outs, c);
    }
    forall i | 0 <= i < |ins|
      ensures InOk(calls', ins[i])
    {
      assert InOk(calls, ins[i]);
    }
    forall i | 0 <= i < |outs|
      ensures OutOk(calls', outs[i])
    {
      assert OutOk(calls, outs[i]);
    }
  }

  /** The call is new, or the same call not yet returned. */
  ghost predicate Open<T>(calls: map<int, Call<T>>, c: int, call: Call<T>)
  {
    c in calls ==> !calls[c].pc.Returned? && calls[c].Put? == call.Put? && (call.Put? ==> calls[c].m == call.m)
  }

  /** What the call has to show in the logs when it gets to `call` */
  function InBy<T>(c: int, call: Call<T>): seq<Entry<T>>
  {
    if call.Put? && call.pc == Returned(Ok) then [Entry(c, call.m)] else []
  }

  function OutBy<T>(c: int, call: Call<T>): seq<Exit<T>>
  {
    if call.Get? && Succeeded(call.pc) then [To(c, call.pc.result.m)] else []
  }

  lemma LogsMove<T>(calls: map<int, Call<T>>, ins: seq<Entry<T>>, outs: seq<Exit<T>>, c: int, call: Call<T>)
    requires Logs(calls, ins, outs) && Open(calls, c, call)
    ensures Logs(calls[c := call], ins + InBy(c, call), outs + OutBy(c, call))
  {
    hide InCount, OutCount;
    var calls', ins', outs' := calls[c := call], ins + InBy(c, call), outs + OutBy(c, call);
    KeptBack(ins, outs);
    forall d
      ensures Settled(calls', ins', outs', d)
    {
      assert Settled(calls, ins, outs, d);
      if call.Put? && call.pc == Returned(Ok) {
        CountAdds(ins, Entry(c, call.m), outs, Purged(call.m), d);
      }
      if call.Get? && Succeeded(call.pc) {
        CountAdds(ins, Entry(c, call.pc.result.m), outs, To(c, call.pc.result.m), d);
      }
    }
    forall i | 0 <= i < |ins'|
      ensures InOk(calls', ins'[i])
    {
      assert i < |ins| ==> InOk(calls, ins[i]) && ins'[i] == ins[i];
    }
    forall i | 0 <= i < |outs'|
      ensures OutOk(calls', outs'[i])
    {
      assert i < |outs| ==> OutOk(calls, outs[i]) && outs'[i] == outs[i];
    }
  }

  lemma LogsPurge<T>(calls: map<int, Call<T>>, ins: seq<Entry<T>>, outs: seq<Exit<T>>, held: seq<T>)
    requires Logs(calls, ins, outs)
    ensures Logs(calls, ins + [], outs + AllPurged(held))
  {
    var outs' := outs + AllPurged(held);
    KeptBack(ins, outs);
    forall d
      ensures Settled(calls, ins, outs', d)
    {
      assert Settled(calls, ins, outs, d);
      CountPurged(outs, AllPurged(held), d);
    }
    forall i | 0 <= i < |outs'|
      ensures OutOk(calls, outs'[i])
    {
      assert i < |outs| ==> OutOk(calls, outs[i]) && outs'[i] == outs[i];
    }
  }

  // ---------- steps ----------

  /** A call gets on with its section: its record, the ring and the logs, before anyone is woken. */
  lemma SectionInv<T>(s: State<T>, ins: seq<Entry<T>>, outs: seq<Exit<T>>, step: Step<T>, c: int, call: Call<T>)
    requires Inv(s, ins, outs) && Enabled(s, step) && !step.Purge? && InBuffer(s) && Open(s.calls, c, call)
    requires InBy(c, call) == Accepted(s, step) && OutBy(c, call) == Departed(s, step)
    requires !call.pc.Waiting? && ResultOk(call) && (c in s.calls ==> !s.calls[c].pc.Waiting?)
    ensures var s1 := s.(ring := Moved(s, step), calls := s.calls[c := call]);
            Inv(s1, ins + Accepted(s, step), outs + Departed(s, step))
  {
    hide Lists, Logs, Flow, Moved, Accepted, Departed;
    FlowKept(s, ins, outs, step);
    SetLists(s, c, call);
    ListsOnly(s.(calls := s.calls[c := call]), Moved(s, step));
    LogsMove(s.calls, ins, outs, c, call);
  }

  lemma WakeInv<T>(s: State<T>, s': State<T>, ins: seq<Entry<T>>, outs: seq<Exit<T>>)
    requires Inv(s, ins, outs) && Lists(s') && SameCalls(s.calls, s'.calls) && s'.ring == s.ring
    ensures Inv(s', ins, outs)
  {
    hide Lists, Logs, Flow;
    LogsSame(s.calls, s'.calls, ins, outs);
  }

  lemma StaysInBuffer<T>(s: State<T>, ins: seq<Entry<T>>, outs: seq<Exit<T>>)
    requires Inv(s, ins, outs)
    ensures InBuffer(s) && RingOk(s.ring)
  {
    InBounds(s.ring);
  }

  lemma StepInv<T>(s: State<T>, ins: seq<Entry<T>>, outs: seq<Exit<T>>, step: Step<T>)
    requires Inv(s, ins, outs) && Enabled(s, step)
    ensures InBuffer(s) && Inv(Next(s, step), ins + Accepted(s, step), outs + Departed(s, step))
  {
    hide Inv, Lists, Logs, Flow, Stored, Taken, WakeReader, WakeWriter, WakeWriters;
    StaysInBuffer(s, ins, outs);
    match step
    case StartPut(c, m, wait) => PutInv(s, ins, outs, c, m, wait);
    case StartGet(c, wait) => GetInv(s, ins, outs, c, wait);
    case RetryPut(c) =>
      RetryAllowed(s, ins, outs, c);
      SectionInv(s, ins, outs, step, c, WithPc(s.calls[c], if Full(s.ring) then Returned(TimedOut) else Returned(Ok)));
    case RetryGet(c) =>
      RetryAllowed(s, ins, outs, c);
      SectionInv(s, ins, outs, step, c,
                 WithPc(s.calls[c], if s.ring.used > 0 then Returned(Got(s.ring.slots[s.ring.head]))
                   else Returned(TimedOut)));
    case Purge => PurgeInv(s, ins, outs);
  }

  lemma RetryAllowed<T>(s: State<T>, ins: seq<Entry<T>>, outs: seq<Exit<T>>, c: int)
    requires Inv(s, ins, outs) && c in s.calls && s.calls[c].pc.Woken?
    ensures s.calls[c].wait
  {
    assert ResultOk(s.calls[c]);
  }

  lemma PutInv<T>(s: State<T>, ins: seq<Entry<T>>, outs: seq<Exit<T>>, c: int, m: T, wait: bool)
    requires Inv(s, ins, outs) && c !in s.calls && InBuffer(s)
    ensures var step := StartPut(c, m, wait);
            Inv(Next(s, step), ins + Accepted(s, step), outs + Departed(s, step))
  {
    var step := StartPut(c, m, wait);
    if Full(s.ring) && wait {
      hide Lists, Logs, Flow;
      KeptBack(ins, outs);
      FlowKept(s, ins, outs, step);
      WaitLists(s, c, Put(m, wait, Waiting));
      LogsMove(s.calls, ins, outs, c, Put(m, wait, Waiting));
    } else {
      hide Inv, Lists, Logs, Flow, Stored, WakeReader;
      var call := Put(m, wait, Returned(if Full(s.ring) then Again else Ok));
      SectionInv(s, ins, outs, step, c, call);
      var s1 := s.(ring := Moved(s, step), calls := s.calls[c := call]);
      InvLists(s1, ins + Accepted(s, step), outs + Departed(s, step));
      WakeReaderLists(s1);
      ReaderKeepsRing(s1);
      if !Full(s.ring) {
        WakeInv(s1, WakeReader(s1), ins + Accepted(s, step), outs + Departed(s, step));
      }
    }
  }

  lemma InvLists<T>(s: State<T>, ins: seq<Entry<T>>, outs: seq<Exit<T>>)
    requires Inv(s, ins, outs)
    ensures Lists(s)
  {
  }

  lemma ReaderKeepsRing<T>(s: State<T>)
    ensures WakeReader(s).ring == s.ring && WakeWriter(s).ring == s.ring
  {
  }

  lemma GetInv<T>(s: State<T>, ins: seq<Entry<T>>, outs: seq<Exit<T>>, c: int, wait: bool)
    requires Inv(s, ins, outs) && c !in s.calls && InBuffer(s)
    ensures var step: Step<T> := StartGet(c, wait);
            Inv(Next(s, step), ins + Accepted(s, step), outs + Departed(s, step))
  {
    var step: Step<T> := StartGet(c, wait);
    if s.ring.used == 0 && wait {
      hide Lists, Logs, Flow;
      KeptBack(ins, outs);
      FlowKept(s, ins, outs, step);
      WaitLists(s, c, Get(wait, Waiting));
      LogsMove(s.calls, ins, outs, c, Get(wait, Waiting));
    } else {
      hide Inv, Lists, Logs, Flow, Taken, WakeWriter;
      var call := Get(wait, Returned(if s.ring.used > 0 then Got(s.ring.slots[s.ring.head]) else Again));
      SectionInv(s, ins, outs, step, c, call);
      var s1 := s.(ring := Moved(s, step), calls := s.calls[c := call]);
      InvLists(s1, ins + Accepted(s, step), outs + Departed(s, step));
      WakeWriterLists(s1);
      ReaderKeepsRing(s1);
      if s.ring.used > 0 {
        WakeInv(s1, WakeWriter(s1), ins + Accepted(s, step), outs + Departed(s, step));
      }
    }
  }

  lemma PurgeInv<T>(s: State<T>, ins: seq<Entry<T>>, outs: seq<Exit<T>>)
    requires Inv(s, ins, outs) && InBuffer(s)
    ensures var step: Step<T> := Purge;
            Inv(Next(s, step), ins + Accepted(s, step), outs + Departed(s, step))
  {
    hide Lists, Logs, Flow, WakeWriters;
    var step: Step<T> := Purge;
    var s1 := s.(ring := Empty(s.ring.slots));
    FlowKept(s, ins, outs, step);
    ListsOnly(s, Empty(s.ring.slots));
    FlowOk(s.ring, ins, outs);
    LogsPurge(s.calls, ins, outs, Held(s.ring));
    WakeWritersLists(s1);
    WakesKeepRing(s1);
    WakeInv(s1, WakeWriters(s1), ins + Accepted(s, step), outs + Departed(s, step));
  }

  lemma FlowOk<T>(r: Ring<T>, ins: seq<Entry<T>>, outs: seq<Exit<T>>)
    requires Flow(r, ins, outs)
    ensures RingOk(r)
  {
  }

  // ---------- runs ----------

  ghost predicate ValidRun<T>(s: State<T>, steps: seq<Step<T>>)
    decreases |steps|
  {
    steps != [] ==> Enabled(s, steps[0]) && InBuffer(s) && ValidRun(Next(s, steps[0]), steps[1..])
  }

  ghost function Run<T>(s: State<T>, steps: seq<Step<T>>): State<T>
    requires ValidRun(s, steps)
    decreases |steps|
  {
    if steps == [] then s else Run(Next(s, steps[0]), steps[1..])
  }

  ghost function AllIn<T>(s: State<T>, steps: seq<Step<T>>): seq<Entry<T>>
    requires ValidRun(s, steps)
    decreases |steps|
  {
    if steps == [] then [] else Accepted(s, steps[0]) + AllIn(Next(s, steps[0]), steps[1..])
  }

  ghost function AllOut<T>(s: State<T>, steps: seq<Step<T>>): seq<Exit<T>>
    requires ValidRun(s, steps)
    decreases |steps|
  {
    if steps == [] then [] else Departed(s, steps[0]) + AllOut(Next(s, steps[0]), steps[1..])
  }

  lemma {:induction false} RunInv<T>(s: State<T>, ins: seq<Entry<T>>, outs: seq<Exit<T>>, steps: seq<Step<T>>)
    requires Inv(s, ins, outs) && ValidRun(s, steps)
    ensures Inv(Run(s, steps), ins + AllIn(s, steps), outs + AllOut(s, steps))
    decreases |steps|
  {
    hide Inv, Next, Accepted, Departed;
    if steps == [] {
      KeptBack(ins, outs);
    } else {
      var s', a, d := Next(s, steps[0]), Accepted(s, steps[0]), Departed(s, steps[0]);
      StepInv(s, ins, outs, steps[0]);
      RunInv(s', ins + a, outs + d, steps[1..]);
      assert ins + (a + AllIn(s', steps[1..])) == (ins + a) + AllIn(s', steps[1..]);
      assert outs + (d + AllOut(s', steps[1..])) == (outs + d) + AllOut(s', steps[1..]);
    }
  }

  /**
   Over every interleaving of sections, waits and retries from an empty queue: the tail is the head
   plus the count modulo the capacity; the messages accepted are those that left, in that order, and
   those that the buffer holds; the wait lists hold exactly the calls that wait; and every call has put
   in its own message exactly once, or taken out the message it returned exactly once, if it returned
   success, and never otherwise.
   */
  lemma QueueIsExact<T>(slots: seq<T>, steps: seq<Step<T>>)
    requires |slots| > 0 && ValidRun(Initial(slots), steps)
    ensures var s, ins, outs := Run(Initial(slots), steps), AllIn(Initial(slots), steps), AllOut(Initial(slots), steps);
            && RingOk(s.ring) && Ins(ins) == Outs(outs) + Held(s.ring)
            && Lists(s) && Logs(s.calls, ins, outs)
  {
    InitialInv(slots);
    RunInv(Initial(slots), [], [], steps);
    assert [] + AllIn(Initial(slots), steps) == AllIn(Initial(slots), steps);
    assert [] + AllOut(Initial(slots), steps) == AllOut(Initial(slots), steps);
  }

  // ---------- what a call returns ----------

  /** The first section: success, refusal or waiting, by room and messages at that moment */
  lemma FirstTry<T>(s: State<T>, ins: seq<Entry<T>>, outs: seq<Exit<T>>, c: int, m: T, wait: bool)
    requires Inv(s, ins, outs) && c !in s.calls && InBuffer(s)
    ensures var put := Next(s, StartPut(c, m, wait)).calls[c].pc;
            put == if s.ring.used < |s.ring.slots| then Returned(Ok) else if wait then Waiting else Returned(Again)
    ensures var get := Next(s, StartGet(c, wait)).calls[c].pc;
            get == if s.ring.used > 0 then Returned(Got(Held(s.ring)[0])) else if wait then Waiting else Returned(Again)
  {
    if s.ring.used > 0 {
      TakenHeld(s.ring);
    }
    assert c !in s.readWait && c !in s.writeWait;
    assert s.readWait != [] ==> s.readWait[0] in s.readWait;
    assert s.writeWait != [] ==> s.writeWait[0] in s.writeWait;
  }

  /**
   The second section, after waking up, whatever timeout was asked for: it reports a timeout exactly
   when the queue is full, or empty, once more.
   */
  lemma SecondTry<T>(s: State<T>, ins: seq<Entry<T>>, outs: seq<Exit<T>>, c: int)
    requires Inv(s, ins, outs) && InBuffer(s)
    ensures Enabled(s, RetryPut(c)) ==>
              Next(s, RetryPut(c)).calls[c].pc == Returned(if s.ring.used == |s.ring.slots| then TimedOut else Ok)
    ensures Enabled(s, RetryGet(c)) ==>
              Next(s, RetryGet(c)).calls[c].pc == Returned(if s.ring.used == 0 then TimedOut else Got(Held(s.ring)[0]))
  {
    if s.ring.used > 0 {
      TakenHeld(s.ring);
    }
  }

  lemma Unroll<T>(s: State<T>, step: Step<T>, rest: seq<Step<T>>)
    requires Enabled(s, step) && InBuffer(s) && ValidRun(Next(s, step), rest)
    ensures ValidRun(s, [step] + rest) && Run(s, [step] + rest) == Run(Next(s, step), rest)
  {
    assert ([step] + rest)[1..] == rest;
  }

  predicate HasTimedOut<T>(s: State<T>, c: int) { c in s.calls && s.calls[c].pc == Returned(TimedOut) }

  /** A put that may wait for ever reports a timeout: another put takes the room before the woken one gets to try. */
  lemma PutOvertaken<T>(m: T)
    ensures var steps := [StartPut(1, m, false)] + ([StartPut(2, m, true)] +
            ([StartGet(3, false)] + ([StartPut(4, m, false)] + ([RetryPut(2)] + []))));
            ValidRun(Initial([m]), steps) && HasTimedOut(Run(Initial([m]), steps), 2)
  {
    var s0 := Initial([m]);
    var s1 := Next(s0, StartPut(1, m, false));
    var s2 := Next(s1, StartPut(2, m, true));
    var s3 := Next(s2, StartGet(3, false));
    var s4 := Next(s3, StartPut(4, m, false));
    Unroll(s4, RetryPut(2), []);
    Unroll(s3, StartPut(4, m, false), [RetryPut(2)] + []);
    Unroll(s2, StartGet(3, false), [StartPut(4, m, false)] + ([RetryPut(2)] + []));
    Unroll(s1, StartPut(2, m, true), [StartGet(3, false)] + ([StartPut(4, m, false)] + ([RetryPut(2)] + [])));
    Unroll(s0, StartPut(1, m, false),
           [StartPut(2, m, true)] + ([StartGet(3, false)] + ([StartPut(4, m, false)] + ([RetryPut(2)] + []))));
  }

  /** So does a get: another get takes the message before the woken one gets to try. */
  lemma GetOvertaken<T>(m: T)
    ensures var steps := [StartGet(1, true)] + ([StartPut(2, m, false)] +
            ([StartGet(3, false)] + ([RetryGet(1)] + [])));
            ValidRun(Initial([m]), steps) && HasTimedOut(Run(Initial([m]), steps), 1)
  {
    var s0 := Initial([m]);
    var s1 := Next(s0, StartGet(1, true));
    var s2 := Next(s1, StartPut(2, m, false));
    var s3 := Next(s2, StartGet(3, false));
    Unroll(s3, RetryGet(1), []);
    Unroll(s2, StartGet(3, false), [RetryGet(1)] + []);
    Unroll(s1, StartPut(2, m, false), [StartGet(3, false)] + ([RetryGet(1)] + []));
    Unroll(s0, StartGet(1, true), [StartPut(2, m, false)] + ([StartGet(3, false)] + ([RetryGet(1)] + [])));
  }

  // ---------- who is woken ----------

  /** The wait list after the first in it was woken, if so, and call `c` has joined it, if so */
  function Moves(waiting: seq<int>, wakes: bool, joins: bool, c: int): seq<int>
  {
    (if wakes && waiting != [] then waiting[1..] else waiting) + (if joins then [c] else [])
  }

  /**
   Calls wait in line: who has to wait goes to the end; a put that succeeds at once wakes the get that has
   waited longest, a get that does so the put that has waited longest, and a purge, which empties the
   queue, every put.
   */
  lemma FirstWaitingFirstWoken<T>(s: State<T>, ins: seq<Entry<T>>, outs: seq<Exit<T>>, step: Step<T>)
    requires Inv(s, ins, outs) && Enabled(s, step) && InBuffer(s)
    ensures var s' := Next(s, step);
            var put, get := step.StartPut?, step.StartGet?;
            var room, message := s.ring.used < |s.ring.slots|, s.ring.used > 0;
            && s'.readWait == Moves(s.readWait, put && room, get && !message && step.wait, if get then step.c else 0)
            && s'.writeWait ==
               (if step.Purge? then [] else
                  Moves(s.writeWait, get && message, put && !room && step.wait, if put then step.c else 0))
            && (step.Purge? ==> s'.ring.used == 0)
  {
    hide Logs, Flow, Stored, Taken;
    FlowOk(s.ring, ins, outs);
    WaitingHaveRecords(s);
    if step.Purge? {
      ListsOnly(s, Empty(s.ring.slots));
      AllWoken(s.(ring := Empty(s.ring.slots)));
      WakesKeepRing(s.(ring := Empty(s.ring.slots)));
    }
  }

  lemma WaitingHaveRecords<T>(s: State<T>)
    requires Lists(s)
    ensures s.readWait != [] ==> s.readWait[0] in s.calls
    ensures s.writeWait != [] ==> s.writeWait[0] in s.calls
  {
    WakeWriterLists(s);
    if s.readWait != [] {
      var d := s.readWait[0];
      assert d in s.readWait && d in s.calls;
    }
  }

  /** Who leaves a wait list is woken, and no other record changes but that of the call itself. */
  lemma OthersAsTheyWere<T>(s: State<T>, ins: seq<Entry<T>>, outs: seq<Exit<T>>, step: Step<T>, d: int)
    requires Inv(s, ins, outs) && Enabled(s, step) && InBuffer(s)
    requires d in s.calls && (step.Purge? || d != step.c)
    ensures var s' := Next(s, step);
            && d in s'.calls
            && s'.calls[d] ==
               if (d in s.readWait && d !in s'.readWait) || (d in s.writeWait && d !in s'.writeWait)
               then WithPc(s.calls[d], Woken) else s.calls[d]
  {
    hide Logs, Flow, Stored, Taken, RingOk;
    if s.readWait != [] {
      FrontApart(s.readWait);
    }
    if s.writeWait != [] {
      FrontApart(s.writeWait);
    }
    if step.Purge? {
      ListsOnly(s, Empty(s.ring.slots));
      AllWoken(s.(ring := Empty(s.ring.slots)));
    }
  }

  lemma {:induction false} AllWoken<T>(s: State<T>)
    requires Lists(s)
    ensures var s' := WakeWriters(s);
            && s'.writeWait == [] && s'.readWait == s.readWait && s'.calls.Keys == s.calls.Keys
            && forall d {:trigger s'.calls[d]} :: d in s.calls ==>
                 s'.calls[d] == if d in s.writeWait then WithPc(s.calls[d], Woken) else s.calls[d]
    decreases |s.writeWait|
  {
    if s.writeWait != [] {
      WakeWriterLists(s);
      FrontApart(s.writeWait);
      hide Lists;
      AllWoken(WakeWriter(s));
    }
  }

  ghost function WokenPuts<T>(calls: map<int, Call<T>>): set<int>
  {
    set c | c in calls && calls[c].Put? && calls[c].pc.Woken?
  }

  ghost function WokenGets<T>(calls: map<int, Call<T>>): set<int>
  {
    set c | c in calls && calls[c].Get? && calls[c].pc.Woken?
  }

  /** If a put waits, every free slot has a woken put coming for it. */
  ghost predicate RoomIsSpokenFor<T>(s: State<T>)
  {
    s.writeWait == [] || |s.ring.slots| - s.ring.used <= |WokenPuts(s.calls)|
  }

  /** If a get waits, every message has a woken get coming for it. */
  ghost predicate MessagesAreSpokenFor<T>(s: State<T>)
  {
    s.readWait == [] || s.ring.used <= |WokenGets(s.calls)|
  }

  /** A step changes the woken calls by at most one: the one it wakes, or the one that tries again. */
  lemma OneWoken<T>(calls: map<int, Call<T>>, c: int, call: Call<T>)
    requires c in calls ==> calls[c].Put? == call.Put?
    ensures var calls' := calls[c := call];
            var was := c in calls && calls[c].pc.Woken?;
            && WokenPuts(calls') ==
               (if call.Put? && call.pc.Woken? then WokenPuts(calls) + {c} else WokenPuts(calls) - {c})
            && WokenGets(calls') ==
               (if call.Get? && call.pc.Woken? then WokenGets(calls) + {c} else WokenGets(calls) - {c})
            && (c in WokenPuts(calls) <==> was && call.Put?) && (c in WokenGets(calls) <==> was && call.Get?)
  {
  }

  /**
   Room is never left without a taker while a put waits, except by one step: a get that succeeds on its
   second try, which frees a slot and wakes nobody.
   */
  lemma RoomLeftExactly<T>(s: State<T>, ins: seq<Entry<T>>, outs: seq<Exit<T>>, step: Step<T>)
    requires Inv(s, ins, outs) && Enabled(s, step) && InBuffer(s) && RoomIsSpokenFor(s)
    ensures RoomIsSpokenFor(Next(s, step)) <==>
              !(step.RetryGet? && s.ring.used > 0 && s.writeWait != []
                && |s.ring.slots| - s.ring.used == |WokenPuts(s.calls)|)
  {
    hide Logs, Flow;
    match step
    case StartPut(c, m, wait) =>
      RoomAfterPut(s, c, m, wait);
    case RetryPut(c) =>
      OneWoken(s.calls, c, WithPc(s.calls[c], Returned(Ok)));
      OneWoken(s.calls, c, WithPc(s.calls[c], Returned(TimedOut)));
    case StartGet(c, wait) =>
      RoomAfterGet(s, c, wait);
    case RetryGet(c) =>
      StaysInBuffer(s, ins, outs);
      OneWoken(s.calls, c, WithPc(s.calls[c], Returned(TimedOut)));
      OneWoken(s.calls, c, WithPc(s.calls[c], Returned(Got(s.ring.slots[s.ring.head]))));
    case Purge =>
      ListsOnly(s, Empty(s.ring.slots));
      WakeWritersLists(s.(ring := Empty(s.ring.slots)));
  }

  lemma RoomAfterPut<T>(s: State<T>, c: int, m: T, wait: bool)
    requires Lists(s) && c !in s.calls && InBuffer(s) && RoomIsSpokenFor(s)
    ensures RoomIsSpokenFor(Next(s, StartPut(c, m, wait)))
  {
    var s' := Next(s, StartPut(c, m, wait));
    OneWoken(s.calls, c, Put(m, wait, Returned(Ok)));
    OneWoken(s.calls, c, Put(m, wait, Returned(Again)));
    OneWoken(s.calls, c, Put(m, wait, Waiting));
    if !Full(s.ring) && s.readWait != [] {
      var d := s.readWait[0];
      assert d in s.readWait;
      var calls := s.calls[c := Put(m, wait, Returned(Ok))];
      OneWoken(calls, d, WithPc(calls[d], Woken));
    }
  }

  lemma RoomAfterGet<T>(s: State<T>, c: int, wait: bool)
    requires Lists(s) && c !in s.calls && InBuffer(s) && RoomIsSpokenFor(s)
    ensures RoomIsSpokenFor(Next(s, StartGet(c, wait)))
  {
    var m := s.ring.slots[s.ring.head];
    OneWoken(s.calls, c, Get(wait, Returned(Got(m))));
    OneWoken(s.calls, c, Get(wait, Returned(Again)));
    OneWoken(s.calls, c, Get(wait, Waiting));
    if s.ring.used > 0 && s.writeWait != [] {
      var d := s.writeWait[0];
      assert d in s.writeWait;
      var calls := s.calls[c := Get(wait, Returned(Got(m)))];
      OneWoken(calls, d, WithPc(calls[d], Woken));
      assert d !in WokenPuts(calls);
    }
  }

  /** Likewise for messages: a put that succeeds on its second try adds one and wakes nobody. */
  lemma MessageLeftExactly<T>(s: State<T>, ins: seq<Entry<T>>, outs: seq<Exit<T>>, step: Step<T>)
    requires Inv(s, ins, outs) && Enabled(s, step) && InBuffer(s) && MessagesAreSpokenFor(s)
    ensures MessagesAreSpokenFor(Next(s, step)) <==>
              !(step.RetryPut? && s.ring.used < |s.ring.slots| && s.readWait != []
                && s.ring.used == |WokenGets(s.calls)|)
  {
    hide Logs, Flow;
    match step
    case StartPut(c, m, wait) =>
      MessagesAfterPut(s, c, m, wait);
    case RetryPut(c) =>
      OneWoken(s.calls, c, WithPc(s.calls[c], Returned(Ok)));
      OneWoken(s.calls, c, WithPc(s.calls[c], Returned(TimedOut)));
    case StartGet(c, wait) =>
      MessagesAfterGet(s, c, wait);
    case RetryGet(c) =>
      OneWoken(s.calls, c, WithPc(s.calls[c], Returned(TimedOut)));
      OneWoken(s.calls, c, WithPc(s.calls[c], Returned(Got(s.ring.slots[s.ring.head]))));
    case Purge =>
      WakesKeepRing(s.(ring := Empty(s.ring.slots)));
  }

  lemma MessagesAfterPut<T>(s: State<T>, c: int, m: T, wait: bool)
    requires Lists(s) && c !in s.calls && InBuffer(s) && MessagesAreSpokenFor(s)
    ensures MessagesAreSpokenFor(Next(s, StartPut(c, m, wait)))
  {
    hide WokenPuts, WokenGets;
    OneWoken(s.calls, c, Put(m, wait, Returned(Ok)));
    OneWoken(s.calls, c, Put(m, wait, Returned(Again)));
    OneWoken(s.calls, c, Put(m, wait, Waiting));
    if !Full(s.ring) && s.readWait != [] {
      var d := s.readWait[0];
      assert d in s.readWait;
      var calls := s.calls[c := Put(m, wait, Returned(Ok))];
      OneWoken(calls, d, WithPc(calls[d], Woken));
      NotWoken(calls, d);
    }
  }

  lemma NotWoken<T>(calls: map<int, Call<T>>, d: int)
    requires d in calls && !calls[d].pc.Woken?
    ensures d !in WokenGets(calls) && d !in WokenPuts(calls)
  {
  }

  lemma MessagesAfterGet<T>(s: State<T>, c: int, wait: bool)
    requires Lists(s) && c !in s.calls && InBuffer(s) && MessagesAreSpokenFor(s)
    ensures MessagesAreSpokenFor(Next(s, StartGet(c, wait)))
  {
    var m := s.ring.slots[s.ring.head];
    OneWoken(s.calls, c, Get(wait, Returned(Got(m))));
    OneWoken(s.calls, c, Get(wait, Returned(Again)));
    OneWoken(s.calls, c, Get(wait, Waiting));
    if s.ring.used > 0 && s.writeWait != [] {
      var d := s.writeWait[0];
      assert d in s.writeWait;
      var calls := s.calls[c := Get(wait, Returned(Got(m)))];
      OneWoken(calls, d, WithPc(calls[d], Woken));
    }
  }

  /** A put waits next to an empty queue, with no call left to wake it. */
  predicate Stranded<T>(s: State<T>)
  {
    s.ring.used == 0 && s.writeWait != [] && forall c :: c in s.calls ==> !s.calls[c].pc.Woken?
  }

  lemma PutStranded<T>(m: T)
    ensures var steps := [StartGet(1, true)] + ([StartPut(2, m, false)] +
            ([StartPut(3, m, true)] + ([RetryGet(1)] + [])));
            ValidRun(Initial([m]), steps) && Stranded(Run(Initial([m]), steps))
  {
    var s0 := Initial([m]);
    var s1 := Next(s0, StartGet(1, true));
    var s2 := Next(s1, StartPut(2, m, false));
    var s3 := Next(s2, StartPut(3, m, true));
    var s4 := Next(s3, RetryGet(1));
    assert s4.calls.Keys == {1, 2, 3};
    Unroll(s3, RetryGet(1), []);
    Unroll(s2, StartPut(3, m, true), [RetryGet(1)] + []);
    Unroll(s1, StartPut(2, m, false), [StartPut(3, m, true)] + ([RetryGet(1)] + []));
    Unroll(s0, StartGet(1, true), [StartPut(2, m, false)] + ([StartPut(3, m, true)] + ([RetryGet(1)] + [])));
  }
}
