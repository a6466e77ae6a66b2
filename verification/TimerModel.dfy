/**
 Software timers (kernel/timer.c) as a value, with expiry functions that leave the timer list alone.
 */
module TimerModel {
  import opened Seqs
  import Wrap32

  datatype Clock = Clock(periodic: bool, duration: nat, remaining: nat, active: bool)

  /** `vibe_timer_start` for a duration that comes to `ticks` ticks */
  function Started(c: Clock, ticks: nat): Clock
  {
    var d := if ticks == 0 then 1 else ticks;
    c.(duration := d, remaining := d, active := true)
  }

  function Stopped(c: Clock): Clock { c.(remaining := 0, active := false) }

  /** The timer fires on the next tick. */
  predicate Due(c: Clock) { c.active && c.remaining <= 1 }

  /** What a tick does to a timer in the list */
  function Ticked(c: Clock): Clock
  {
    if Due(c) && c.periodic then c.(remaining := c.duration)
    else if Due(c) then c.(remaining := 0, active := false)
    else if c.remaining > 0 then c.(remaining := c.remaining - 1)
    else c
  }

  datatype Timers<T> = Timers(clocks: map<T, Clock>, list: seq<T>)

  /** The timer leaves the list when it fires. */
  predicate Leaves(c: Clock) { Due(c) && !c.periodic }

  /** The timers of a list that stay in it through a tick */
  function Survivors<T(==)>(clocks: map<T, Clock>, list: seq<T>): (r: seq<T>)
    requires forall t :: t in list ==> t in clocks
    ensures forall t :: t in r ==> t in list && !Leaves(clocks[t])
    ensures forall t :: t in list && !Leaves(clocks[t]) ==> t in r
    ensures NoDup(list) ==> NoDup(r)
  {
    if list == [] then []
    else
      var n := |list| - 1;
      var t := list[n];
      assert list == list[..n] + [t] && t in list;
      var rest := Survivors(clocks, list[..n]);
      assert NoDup(list) ==> t !in list[..n];
      if Leaves(clocks[t]) then rest else rest + [t]
  }

  /** The timers of a list that fire on a tick, in order */
  function Firing<T(==)>(clocks: map<T, Clock>, list: seq<T>): (r: seq<T>)
    requires forall t :: t in list ==> t in clocks
    ensures forall t :: t in r ==> t in list && Due(clocks[t])
    ensures forall t :: t in list && Due(clocks[t]) ==> t in r
  {
    if list == [] then []
    else
      var n := |list| - 1;
      var t := list[n];
      assert list == list[..n] + [t] && t in list;
      var rest := Firing(clocks, list[..n]);
      if Due(clocks[t]) then rest + [t] else rest
  }

  datatype Event<T> = Start(t: T, ticks: nat) | Stop(t: T) | Tick

  /** The list holds the active timers, each once, each with some ticks to go. */
  ghost predicate Inv<T>(s: Timers<T>)
  {
    && NoDup(s.list)
    && (forall t :: t in s.list ==> t in s.clocks && s.clocks[t].active)
    && (forall t :: t in s.clocks && s.clocks[t].active ==> t in s.list)
    && (forall t :: t in s.list ==> 1 <= s.clocks[t].remaining <= s.clocks[t].duration)
  }

  function Removed<T(==)>(s: Timers<T>, t: T): Timers<T>
    requires t in s.clocks
  {
    if s.clocks[t].active then Timers(s.clocks[t := Stopped(s.clocks[t])], Without(s.list, t)) else s
  }

  function Step<T(==)>(s: Timers<T>, e: Event<T>): Timers<T>
    requires !e.Tick? ==> e.t in s.clocks
    requires forall t :: t in s.list ==> t in s.clocks
  {
    match e
    case Start(t, ticks) =>
      var s1 := Removed(s, t);
      Timers(s1.clocks[t := Started(s1.clocks[t], ticks)], [t] + s1.list)
    case Stop(t) => Removed(s, t)
    case Tick =>
      Timers(map t | t in s.clocks :: if t in s.list then Ticked(s.clocks[t]) else s.clocks[t],
             Survivors(s.clocks, s.list))
  }

  /** A tick, and the timers that fire on it */
  ghost predicate TickedTo<T>(s: Timers<T>, s': Timers<T>, fired: seq<T>)
  {
    Inv(s) && s' == Step(s, Tick) && fired == Firing(s.clocks, s.list)
  }

  lemma StepInv<T>(s: Timers<T>, e: Event<T>)
    requires Inv(s) && (!e.Tick? ==> e.t in s.clocks)
    ensures Inv(Step(s, e)) && Step(s, e).clocks.Keys == s.clocks.Keys
  {
    if !e.Tick? {
      RemovedInv(s, e.t);
      if e.Start? {
        AddedInv(Removed(s, e.t), e.t, e.ticks);
      }
    }
  }

  lemma RemovedInv<T>(s: Timers<T>, t: T)
    requires Inv(s) && t in s.clocks
    ensures Inv(Removed(s, t)) && t !in Removed(s, t).list && Removed(s, t).clocks.Keys == s.clocks.Keys
  {
    if s.clocks[t].active {
      WithoutMembers(s.list, t);
      var s' := Removed(s, t);
      forall u | u in s'.clocks && s'.clocks[u].active
        ensures u in s'.list
      {
        WithoutMember(s.list, t, u);
      }
      forall u | u in s'.list
        ensures u in s'.clocks && s'.clocks[u].active && 1 <= s'.clocks[u].remaining <= s'.clocks[u].duration
      {
        WithoutMember(s.list, t, u);
      }
    }
  }

  lemma AddedInv<T>(s: Timers<T>, t: T, ticks: nat)
    requires Inv(s) && t in s.clocks && t !in s.list
    ensures Inv(Timers(s.clocks[t := Started(s.clocks[t], ticks)], [t] + s.list))
  {
    NoDupInsert(s.list, 0, t);
    assert s.list[..0] + [t] + s.list[0..] == [t] + s.list;
    var s' := Timers(s.clocks[t := Started(s.clocks[t], ticks)], [t] + s.list);
    forall u | u in s'.clocks && s'.clocks[u].active
      ensures u in s'.list
    {
      assert u != t ==> u in s.list;
      assert s'.list[0] == t;
    }
    forall u | u in s'.list
      ensures u in s'.clocks && s'.clocks[u].active && 1 <= s'.clocks[u].remaining <= s'.clocks[u].duration
    {
      assert u == t || u in s.list;
    }
  }

  lemma NewcomerInv<T>(s: Timers<T>, t: T, c: Clock)
    requires Inv(s) && t !in s.clocks && !c.active
    ensures Inv(Timers(s.clocks[t := c], s.list))
  {
  }

  // ---------- the order of the list ----------

  ghost predicate Soonest<T>(s: Timers<T>, i: nat, j: nat)
    requires i < j < |s.list|
  {
    && s.list[i] in s.clocks && s.list[j] in s.clocks
    && s.clocks[s.list[i]].remaining <= s.clocks[s.list[j]].remaining
  }

  /** Soonest expiry first */
  ghost predicate Sorted<T>(s: Timers<T>)
  {
    forall i, j {:trigger Soonest(s, i, j)} :: 0 <= i < j < |s.list| ==> Soonest(s, i, j)
  }

  /** Starting a timer keeps a sorted list sorted if and only if it expires no later than the first one. */
  lemma SortedExactly<T>(s: Timers<T>, t: T, ticks: nat)
    requires Inv(s) && t in s.clocks && !s.clocks[t].active && Sorted(s)
    ensures Sorted(Step(s, Start(t, ticks))) <==>
              s.list == [] || Started(s.clocks[t], ticks).remaining <= s.clocks[s.list[0]].remaining
  {
    var s' := Step(s, Start(t, ticks));
    assert s'.list == [t] + s.list && t !in s.list;
    if s.list != [] {
      assert s'.list[0] == t && s'.list[1] == s.list[0];
      assert Soonest(s', 0, 1) <==> Started(s.clocks[t], ticks).remaining <= s.clocks[s.list[0]].remaining;
      if Soonest(s', 0, 1) {
        forall i, j | 0 <= i < j < |s'.list|
          ensures Soonest(s', i, j)
        {
          assert s'.list[j] == s.list[j - 1];
          if i > 0 {
            assert s'.list[i] == s.list[i - 1];
            assert Soonest(s, i - 1, j - 1);
          } else if j > 1 {
            assert Soonest(s, 0, j - 1);
          }
        }
      }
    }
  }

  /** Two timers that are started in the order of their expiry, and stand in the other */
  lemma StartedInOrder()
    ensures var idle := Clock(false, 0, 0, false);
            var s := Timers(map[1 := idle, 2 := idle], []);
            Inv(s) && Sorted(Step(s, Start(1, 5))) && !Sorted(Step(Step(s, Start(1, 5)), Start(2, 9)))
  {
    var idle := Clock(false, 0, 0, false);
    var s := Timers(map[1 := idle, 2 := idle], []);
    SortedExactly(s, 1, 5);
    StepInv(s, Start(1, 5));
    SortedExactly(Step(s, Start(1, 5)), 2, 9);
  }

  // ---------- runs ----------

  ghost predicate Known<T>(s: Timers<T>, events: seq<Event<T>>)
  {
    forall i :: 0 <= i < |events| && !events[i].Tick? ==> events[i].t in s.clocks
  }

  ghost function Run<T>(s: Timers<T>, events: seq<Event<T>>): Timers<T>
    requires Inv(s) && Known(s, events)
    decreases |events|
  {
    if events == [] then s else (StepInv(s, events[0]); Run(Step(s, events[0]), events[1..]))
  }

  /** Over every run the list holds exactly the active timers. */
  lemma {:induction false} RunInv<T>(s: Timers<T>, events: seq<Event<T>>)
    requires Inv(s) && Known(s, events)
    ensures Inv(Run(s, events)) && Run(s, events).clocks.Keys == s.clocks.Keys
    decreases |events|
  {
    if events != [] {
      StepInv(s, events[0]);
      RunInv(Step(s, events[0]), events[1..]);
    }
  }

  function TicksIn<T(==)>(events: seq<Event<T>>): nat
    decreases |events|
  {
    if events == [] then 0 else (if events[0].Tick? then 1 else 0) + TicksIn(events[1..])
  }

  /** Timer `t` fires on the `j`-th tick of the run. */
  ghost predicate Fires<T>(s: Timers<T>, events: seq<Event<T>>, t: T, j: nat)
    requires Inv(s) && Known(s, events) && t in s.clocks
    decreases |events|
  {
    events != [] &&
    (StepInv(s, events[0]);
     var s' := Step(s, events[0]);
     if !events[0].Tick? then Fires(s', events[1..], t, j)
     else if j == 1 then t in s.list && Due(s.clocks[t])
     else j > 1 && Fires(s', events[1..], t, j - 1))
  }

  /** Nothing in the run starts or stops timer `t`. */
  ghost predicate LeftAlone<T>(events: seq<Event<T>>, t: T)
  {
    forall i :: 0 <= i < |events| && !events[i].Tick? ==> events[i].t != t
  }

  lemma OthersLeaveAlone<T>(s: Timers<T>, e: Event<T>, t: T)
    requires Inv(s) && !e.Tick? && e.t in s.clocks && t in s.clocks && t != e.t
    ensures Step(s, e).clocks[t] == s.clocks[t]
  {
  }

  lemma {:induction false} InactiveNeverFires<T>(s: Timers<T>, events: seq<Event<T>>, t: T, j: nat)
    requires Inv(s) && Known(s, events) && LeftAlone(events, t) && t in s.clocks && !s.clocks[t].active
    ensures !Fires(s, events, t, j) && t in Run(s, events).clocks && !Run(s, events).clocks[t].active
    decreases |events|
  {
    RunInv(s, events);
    if events != [] {
      StepInv(s, events[0]);
      InactiveNeverFires(Step(s, events[0]), events[1..], t, if events[0].Tick? && j > 0 then j - 1 else j);
    }
  }

  /**
   A one-shot timer with `r` ticks to go fires on the `r`-th tick, on no other, and is then out of
   the list, whatever other timers do.
   */
  lemma {:induction false} OneShotFiresOnce<T>(s: Timers<T>, events: seq<Event<T>>, t: T, j: nat)
    requires Inv(s) && Known(s, events) && LeftAlone(events, t)
    requires t in s.list && !s.clocks[t].periodic
    ensures Fires(s, events, t, j) <==> j == s.clocks[t].remaining && j <= TicksIn(events)
    ensures t in Run(s, events).list <==> TicksIn(events) < s.clocks[t].remaining
    decreases |events|
  {
    hide Step;
    RunInv(s, events);
    if events != [] {
      var s' := Step(s, events[0]);
      StepInv(s, events[0]);
      if !events[0].Tick? {
        OthersLeaveAlone(s, events[0], t);
        OneShotFiresOnce(s', events[1..], t, j);
      } else {
        TickOf(s, t);
        var j' := if j > 0 then j - 1 else 0;
        if Due(s.clocks[t]) {
          InactiveNeverFires(s', events[1..], t, j');
        } else {
          OneShotFiresOnce(s', events[1..], t, j');
        }
      }
    }
  }

  lemma PeriodStep(j: nat, d: nat)
    requires 2 <= j && d >= 1
    ensures (d <= j - 1 && (j - 1 - d) % d == 0) <==> (j - 1) % d == 0
  {
    var q, r := (j - 1) / d, (j - 1) % d;
    assert j - 1 == d * q + r;
    if d <= j - 1 {
      assert j - 1 - d == d * (q - 1) + r;
      Wrap32.Remainder(j - 1 - d, d, q - 1, r);
    }
  }

  lemma TickOf<T>(s: Timers<T>, t: T)
    requires Inv(s) && t in s.list
    ensures t in Step(s, Tick).clocks && Step(s, Tick).clocks[t] == Ticked(s.clocks[t])
    ensures t in Step(s, Tick).list <==> !Leaves(s.clocks[t])
  {
  }

  /** Tick `j` is one on which a timer fires with `r` ticks to go and a period of `d`. */
  predicate OnSchedule(j: nat, r: nat, d: nat)
    requires d > 0
  {
    r <= j && (j - r) % d == 0
  }

  lemma ScheduleStep(j: nat, r: nat, d: nat)
    requires 1 <= r <= d
    ensures j >= 1 && r > 1 ==> (OnSchedule(j, r, d) <==> OnSchedule(j - 1, r - 1, d))
    ensures j >= 1 && r == 1 ==> (OnSchedule(j, r, d) <==> j == 1 || OnSchedule(j - 1, d, d))
    ensures !OnSchedule(0, r, d) && (r > 1 ==> !OnSchedule(0, r - 1, d))
  {
    if j >= 2 && r == 1 {
      PeriodStep(j, d);
    }
  }

  lemma {:induction false} Scheduled<T>(s: Timers<T>, events: seq<Event<T>>, t: T, j: nat)
    requires Inv(s) && Known(s, events) && LeftAlone(events, t)
    requires t in s.list && s.clocks[t].periodic
    ensures Fires(s, events, t, j) <==>
              j <= TicksIn(events) && OnSchedule(j, s.clocks[t].remaining, s.clocks[t].duration)
    ensures t in Run(s, events).list
    decreases |events|
  {
    hide Step, OnSchedule;
    RunInv(s, events);
    ScheduleStep(j, s.clocks[t].remaining, s.clocks[t].duration);
    if events == [] {
      ScheduleStep(0, s.clocks[t].remaining, s.clocks[t].duration);
    } else {
      var s' := Step(s, events[0]);
      StepInv(s, events[0]);
      if !events[0].Tick? {
        OthersLeaveAlone(s, events[0], t);
        Scheduled(s', events[1..], t, j);
      } else {
        TickOf(s, t);
        Scheduled(s', events[1..], t, if j > 0 then j - 1 else 0);
      }
    }
  }

  /**
   A periodic timer fires on the tick its first period ends, then every `duration` ticks, and stays
   in the list.
   */
  lemma PeriodicFiresOnSchedule<T>(s: Timers<T>, events: seq<Event<T>>, t: T, j: nat)
    requires Inv(s) && Known(s, events) && LeftAlone(events, t)
    requires t in s.list && s.clocks[t].periodic
    ensures var c := s.clocks[t];
            Fires(s, events, t, j) <==> c.remaining <= j <= TicksIn(events) && (j - c.remaining) % c.duration == 0
    ensures t in Run(s, events).list
  {
    hide Fires, Run, TicksIn, Known, LeftAlone;
    Scheduled(s, events, t, j);
  }

  /**
   From its start: a one-shot of `d` ticks fires on the `d`-th tick only, a periodic one exactly on
   the multiples of `d`.
   */
  lemma StartedFiresOnTime<T>(s: Timers<T>, t: T, ticks: nat, events: seq<Event<T>>, j: nat)
    requires Inv(s) && t in s.clocks && Known(s, events) && LeftAlone(events, t)
    ensures var s' := Step(s, Start(t, ticks));
            var d := if ticks == 0 then 1 else ticks;
            && Inv(s') && Known(s', events) && t in s'.clocks
            && (!s.clocks[t].periodic ==> (Fires(s', events, t, j) <==> j == d && j <= TicksIn(events)))
            && (s.clocks[t].periodic ==> (Fires(s', events, t, j) <==> 1 <= j <= TicksIn(events) && j % d == 0))
  {
    FreshlyStarted(s, t, ticks);
    var s' := Step(s, Start(t, ticks));
    hide Fires, Step, TicksIn, Inv;
    if s.clocks[t].periodic {
      InStep(s', events, t, j);
    } else {
      OneShotFiresOnce(s', events, t, j);
    }
  }

  /** At the start of a period the schedule is that of the multiples. */
  lemma InStep<T>(s: Timers<T>, events: seq<Event<T>>, t: T, j: nat)
    requires Inv(s) && Known(s, events) && LeftAlone(events, t) && t in s.list && t in s.clocks
    requires s.clocks[t].periodic && s.clocks[t].remaining == s.clocks[t].duration >= 1
    ensures var d := s.clocks[t].duration;
            Fires(s, events, t, j) <==> 1 <= j <= TicksIn(events) && j % d == 0
  {
    hide Fires, TicksIn, Inv, Known, LeftAlone;
    PeriodicFiresOnSchedule(s, events, t, j);
    Multiples(j, s.clocks[t].duration, TicksIn(events));
  }

  lemma Multiples(j: nat, d: nat, n: nat)
    requires d >= 1
    ensures d <= j <= n && (j - d) % d == 0 <==> 1 <= j <= n && j % d == 0
  {
    if j >= 1 {
      PeriodStep(j + 1, d);
    }
  }

  lemma FreshlyStarted<T>(s: Timers<T>, t: T, ticks: nat)
    requires Inv(s) && t in s.clocks
    ensures var s' := Step(s, Start(t, ticks));
            && Inv(s') && s'.clocks.Keys == s.clocks.Keys && t in s'.list && s'.clocks[t] == Started(s.clocks[t], ticks)
  {
    StepInv(s, Start(t, ticks));
    assert Step(s, Start(t, ticks)).list[0] == t;
  }

  // ---------- stopping ----------

  /**
   A timer that is stopped, in whatever period it is, is inactive, out of the list, and fires on no tick
   of any run that leaves it alone; every other timer keeps its clock and its place among the others.
   */
  lemma StopIsFinal<T>(s: Timers<T>, t: T, events: seq<Event<T>>, j: nat)
    requires Inv(s) && t in s.clocks && Known(s, events) && LeftAlone(events, t)
    ensures var s' := Step(s, Stop(t));
            && Inv(s') && Known(s', events) && s'.clocks.Keys == s.clocks.Keys
            && !s'.clocks[t].active && t !in s'.list && !Fires(s', events, t, j)
            && s'.list == Without(s.list, t)
            && forall u :: u in s.clocks && u != t ==> s'.clocks[u] == s.clocks[u]
  {
    var s' := Step(s, Stop(t));
    StepInv(s, Stop(t));
    RemovedInv(s, t);
    if !s.clocks[t].active {
      NothingToTake(s.list, t);
    }
    InactiveNeverFires(s', events, t, j);
  }

  lemma {:induction false} NothingToTake<T>(list: seq<T>, t: T)
    requires t !in list
    ensures Without(list, t) == list
  {
    if list != [] {
      NothingToTake(list[1..], t);
    }
  }

  /** A start puts the timer in front of the others, which keep their clocks and their order. */
  lemma StartGoesFirst<T>(s: Timers<T>, t: T, ticks: nat)
    requires Inv(s) && t in s.clocks
    ensures var s' := Step(s, Start(t, ticks));
            && s'.list == [t] + Without(s.list, t) && s'.clocks.Keys == s.clocks.Keys
            && forall u :: u in s.clocks && u != t ==> s'.clocks[u] == s.clocks[u]
  {
    if !s.clocks[t].active {
      NothingToTake(s.list, t);
    }
  }

  // ---------- the order of a tick ----------

  ghost predicate Has<T>(clocks: map<T, Clock>, list: seq<T>) { forall t :: t in list ==> t in clocks }

  lemma HasParts<T>(clocks: map<T, Clock>, a: seq<T>, b: seq<T>)
    requires Has(clocks, a + b)
    ensures Has(clocks, a) && Has(clocks, b)
  {
    forall t | t in a || t in b
      ensures t in clocks
    {
      assert t in a + b;
    }
  }

  lemma OneLonger<T>(clocks: map<T, Clock>, a: seq<T>, t: T)
    requires Has(clocks, a + [t]) && Has(clocks, a) && t in clocks
    ensures Survivors(clocks, a + [t]) == Survivors(clocks, a) + (if Leaves(clocks[t]) then [] else [t])
    ensures Firing(clocks, a + [t]) == Firing(clocks, a) + (if Due(clocks[t]) then [t] else [])
  {
    assert (a + [t])[..|a|] == a;
  }

  lemma Joined<T>(a: seq<T>, b: seq<T>, c: seq<T>)
    ensures a + (b + c) == (a + b) + c
  {
  }

  /** Who stays and who fires are found stretch by stretch, so both are in the order of the list. */
  lemma {:induction false} InListOrder<T>(clocks: map<T, Clock>, a: seq<T>, b: seq<T>)
    requires Has(clocks, a + b) && Has(clocks, a) && Has(clocks, b)
    ensures Survivors(clocks, a + b) == Survivors(clocks, a) + Survivors(clocks, b)
    ensures Firing(clocks, a + b) == Firing(clocks, a) + Firing(clocks, b)
    decreases |b|
  {
    if b == [] {
      assert a + b == a;
    } else {
      var c, t := b[..|b| - 1], b[|b| - 1];
      assert b == c + [t] && a + b == (a + c) + [t];
      HasParts(clocks, c, [t]);
      HasParts(clocks, a + c, [t]);
      assert t in b;
      hide Survivors, Firing, Has;
      InListOrder(clocks, a, c);
      OneLonger(clocks, c, t);
      OneLonger(clocks, a + c, t);
      Joined(Survivors(clocks, a), Survivors(clocks, c), if Leaves(clocks[t]) then [] else [t]);
      Joined(Firing(clocks, a), Firing(clocks, c), if Due(clocks[t]) then [t] else []);
    }
  }
}
