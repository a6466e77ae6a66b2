/**
 The linked list of active timers (kernel/timer.c) and the three loops over it, proved to be the steps
 of the timer model, with the timers themselves for its names.
 */
module TimerList {
  import opened Seqs
  import opened M = TimerModel

  class Timer {
    var periodic: bool
    var duration: nat
    var remaining: nat
    var active: bool
    var next: Timer?

    /** `vibe_timer_init` */
    constructor (periodic: bool)
      ensures View() == Clock(periodic, 0, 0, false) && next == null
    {
      this.periodic, duration, remaining, active, next := periodic, 0, 0, false, null;
    }

    ghost function View(): Clock
      reads this
    {
      Clock(periodic, duration, remaining, active)
    }
  }

  /** The timer at position `i`, NULL past the end */
  ghost function Nth(list: seq<Timer>, i: nat): Timer?
  {
    if i < |list| then list[i] else null
  }

  ghost function ClocksOf(known: set<Timer>): (r: map<Timer, Clock>)
    reads known
    ensures r.Keys == known && forall t :: t in known ==> r[t] == t.View()
  {
    map t | t in known :: t.View()
  }

  class Timers {
    var head: Timer?
    ghost var list: seq<Timer>
    ghost var known: set<Timer>

    constructor ()
      ensures Valid() && View() == M.Timers(map[], [])
    {
      head, list, known := null, [], {};
    }

    ghost function View(): M.Timers<Timer>
      reads this, known
    {
      M.Timers(ClocksOf(known), list)
    }

    ghost predicate Chained(i: nat)
      requires i < |list|
      reads this`list, list
    {
      list[i].active && list[i].next == Nth(list, i + 1)
    }

    ghost predicate Linked()
      reads this`head, this`list, list
    {
      && NoDup(list) && head == Nth(list, 0)
      && forall i {:trigger Chained(i)} :: 0 <= i < |list| ==> Chained(i)
    }

    /** The links are those of the list, and the model's invariant holds. */
    ghost predicate Valid()
      reads this, known, list
    {
      Linked() && (forall t :: t in list ==> t in known) && M.Inv(View())
    }

    /** A timer that has been initialised */
    method Register(timer: Timer)
      requires Valid() && timer !in known && !timer.active
      modifies this`known
      ensures Valid() && known == old(known) + {timer}
      ensures View() == M.Timers(old(View()).clocks[timer := timer.View()], old(View()).list)
    {
      hide Linked, M.Inv;
      ghost var v := View();
      NewcomerInv(v, timer, timer.View());
      known := known + {timer};
      assert View().clocks == v.clocks[timer := timer.View()];
    }

    /** The timer in front of the one at `k`, found by walking the list */
    method Predecessor(timer: Timer, ghost k: nat) returns (t: Timer)
      requires Linked() && 0 < k < |list| && list[k] == timer
      ensures t == list[k - 1]
    {
      t := head;
      ghost var i := 0;
      assert Chained(0);
      while t.next != null && t.next != timer
        invariant 0 <= i < k && t == list[i] && t.next == list[i + 1]
        decreases k - i
      {
        assert Chained(i + 1);
        t := t.next;
        i := i + 1;
      }
    }

    /** Timer `j` skips the one at `k`. */
    ghost predicate Skips(was: seq<Timer>, k: nat, j: nat)
      requires j < |was|
      reads was
    {
      was[j].active && was[j].next == Nth(was, if j + 1 == k then k + 1 else j + 1)
    }

    lemma Closed(was: seq<Timer>, k: nat)
      requires k < |was| && list == was[..k] + was[k + 1..]
      requires forall j {:trigger Skips(was, k, j)} :: 0 <= j < |was| && j != k ==> Skips(was, k, j)
      ensures forall i {:trigger Chained(i)} :: 0 <= i < |list| ==> Chained(i)
      ensures Nth(list, 0) == Nth(was, if k == 0 then 1 else 0)
    {
      forall i | 0 <= i < |list|
        ensures Chained(i)
      {
        assert Skips(was, k, if i < k then i else i + 1);
      }
    }

    /** The removal in `vibe_timer_stop`, of a timer in the list */
    method Unlink(timer: Timer)
      requires Linked() && timer in list
      modifies this`head, this`list, list
      ensures Linked() && list == Without(old(list), timer)
      ensures timer.View() == Stopped(old(timer.View()))
      ensures forall t :: t in old(list) && t != timer ==> t.View() == old(t.View())
    {
      hide Without, NoDup;
      ghost var was := list;
      ghost var k :| 0 <= k < |was| && was[k] == timer;
      WithoutIndex(was, k);
      WithoutMembers(was, timer);
      Distinct(was, k);
      assert Chained(k);
      if head == timer {
        head := timer.next;
      } else {
        var t := Predecessor(timer, k);
        Distinct(was, k - 1);
        t.next := timer.next;
      }
      timer.active := false;
      timer.remaining := 0;
      timer.next := null;
      list := was[..k] + was[k + 1..];
      forall j | 0 <= j < |was| && j != k
        ensures Skips(was, k, j)
      {
        assert old(Chained(j));
      }
      Closed(was, k);
    }

    /** `vibe_timer_stop`: refused exactly when the timer is not active */
    method Stop(timer: Timer) returns (ok: bool)
      requires Valid() && timer in known
      modifies this`head, this`list, known
      ensures Valid() && known == old(known) && ok == old(timer.active)
      ensures View() == M.Step(old(View()), M.Stop(timer))
    {
      hide Linked;
      ghost var v := View();
      StepInv(v, M.Stop(timer));
      if !timer.active {
        return false;
      }
      Unlink(timer);
      ghost var v' := M.Step(v, M.Stop(timer));
      WithoutKnown(v, timer);
      assert View().clocks == v'.clocks;
      ok := true;
    }

    /** The insertion in `vibe_timer_start`, of a timer that is not in the list */
    method LinkFirst(timer: Timer, ticks: nat)
      requires Linked() && timer !in list
      modifies this`head, this`list, timer
      ensures Linked() && list == [timer] + old(list) && timer.View() == Started(old(timer.View()), ticks)
    {
      ghost var rest := list;
      timer.duration := ticks;
      if timer.duration == 0 {
        timer.duration := 1;
      }
      timer.remaining := timer.duration;
      timer.active := true;
      timer.next := head;
      head := timer;
      list := [timer] + rest;
      forall i | 0 <= i < |list|
        ensures Chained(i)
      {
        assert i > 0 ==> old(Chained(i - 1));
      }
    }

    method AddFirst(timer: Timer, ticks: nat)
      requires Valid() && timer in known && timer !in list
      modifies this`head, this`list, known
      ensures Valid() && known == old(known)
      ensures View() == M.Timers(old(View()).clocks[timer := Started(old(timer.View()), ticks)], [timer] + old(list))
    {
      hide Linked, M.Inv, Started;
      ghost var v := View();
      AddedInv(v, timer, ticks);
      LinkFirst(timer, ticks);
      assert View().clocks == v.clocks[timer := Started(v.clocks[timer], ticks)];
    }

    /**
     `vibe_timer_start` for `ms` milliseconds, which come to `ticks` ticks: zero is refused, a
     running timer is restarted.
     */
    method Start(timer: Timer, ms: nat, ticks: nat) returns (ok: bool)
      requires Valid() && timer in known
      modifies this`head, this`list, known
      ensures Valid() && known == old(known) && (ok <==> ms != 0)
      ensures View() == if ok then M.Step(old(View()), M.Start(timer, ticks)) else old(View())
    {
      hide Valid, M.Inv, Started;
      if ms == 0 {
        return false;
      }
      ghost var v := View();
      ModelInv();
      RemovedInv(v, timer);
      if timer.active {
        var _ := Stop(timer);
      }
      assert View() == Removed(v, timer);
      AddFirst(timer, ticks);
      ok := true;
    }

    lemma ModelInv()
      requires Valid()
      ensures M.Inv(View()) && (forall t :: t in list ==> t in known)
    {
    }

    /** Halfway through a tick: `kept` stay in the list, linked up to `t`. */
    ghost predicate KeptAt(kept: seq<Timer>, t: Timer?, j: nat)
      requires j < |kept|
      reads kept
    {
      kept[j].active && kept[j].next == if j + 1 < |kept| then kept[j + 1] else t
    }

    ghost predicate Partway(kept: seq<Timer>, t: Timer?, prev: Timer?)
      reads this, kept
    {
      && NoDup(kept)
      && (forall j {:trigger KeptAt(kept, t, j)} :: 0 <= j < |kept| ==> KeptAt(kept, t, j))
      && head == (if kept == [] then t else kept[0])
      && prev == (if kept == [] then null else kept[|kept| - 1])
    }

    lemma Keep(kept: seq<Timer>, t: Timer, prev: Timer?)
      requires Partway(kept, t, prev) && t !in kept && t.active
      ensures Partway(kept + [t], t.next, t)
    {
      forall j | 0 <= j < |kept + [t]|
        ensures KeptAt(kept + [t], t.next, j)
      {
        assert j < |kept| ==> KeptAt(kept, t, j);
      }
    }

    /** The removal of a one-shot timer that fires */
    method Drop(t: Timer, prev: Timer?, ghost kept: seq<Timer>)
      requires Partway(kept, t, prev) && t !in kept
      modifies this`head, t`active, t`next, prev
      ensures Partway(kept, old(t.next), prev) && !t.active
      ensures prev != null ==> prev.View() == old(prev.View())
    {
      var next := t.next;
      if prev != null {
        prev.next := next;
      } else {
        head := next;
      }
      t.active := false;
      t.next := null;
      forall j | 0 <= j < |kept|
        ensures KeptAt(kept, next, j)
      {
        assert old(KeptAt(kept, t, j));
      }
    }

    /** One timer's share of a tick */
    method TickOne(t: Timer, prev: Timer?, ghost kept: seq<Timer>) returns (fired: bool, last: Timer?)
      requires Partway(kept, t, prev) && t !in kept && t.active
      modifies this`head, t, prev
      ensures t.View() == Ticked(old(t.View())) && fired == Due(old(t.View()))
      ensures Partway(if t.active then kept + [t] else kept, old(t.next), last)
      ensures prev != null ==> prev.View() == old(prev.View())
      ensures last == if t.active then t else prev
    {
      if t.remaining > 0 {
        t.remaining := t.remaining - 1;
      }
      assert forall j {:trigger KeptAt(kept, t, j)} :: 0 <= j < |kept| ==> old(KeptAt(kept, t, j)) ==>
        KeptAt(kept, t, j);
      fired := t.remaining == 0 && t.active;
      if fired && !t.periodic {
        last := prev;
        Drop(t, prev, kept);
      } else {
        if fired {
          t.remaining := t.duration;
        }
        last := t;
        Keep(kept, t, prev);
      }
    }

    /** The timers before position `i` have been dealt with; `prev` is the last that stays, found at position `m`. */
    ghost predicate Reached(was: seq<Timer>, clocks: map<Timer, Clock>, i: nat, prev: Timer?, m: nat)
      requires i <= |was| && forall t :: t in was ==> t in clocks
      reads this, was, Survivors(clocks, was[..i])
    {
      && NoDup(was) && Processed(was, clocks, i)
      && Partway(Survivors(clocks, was[..i]), Nth(was, i), prev)
      && (prev != null ==> m < i && prev == was[m])
    }

    /** The body of the tick's loop */
    method TickNext(t: Timer, prev: Timer?, ghost was: seq<Timer>, ghost clocks: map<Timer, Clock>,
                    ghost i: nat, ghost m: nat)
      returns (fires: bool, next: Timer?, last: Timer?, ghost m': nat)
      requires i < |was| && (forall t :: t in was ==> t in clocks) && t == was[i] && Reached(was, clocks, i, prev, m)
      modifies this`head, t, prev
      ensures t in clocks && fires == Due(clocks[t]) && next == Nth(was, i + 1)
      ensures Reached(was, clocks, i + 1, last, m')
    {
      hide NoDup, Due, Ticked, Survivors;
      Distinct(was, i);
      NextPristine(was, clocks, i);
      NotStaying(was, clocks, i);
      next := t.next;
      ghost var kept := Survivors(clocks, was[..i]);
      fires, last := TickOne(t, prev, kept);
      forall j | i + 1 <= j < |was|
        ensures Pristine(was, clocks, j)
      {
        Distinct(was, j);
        assert old(Pristine(was, clocks, j));
      }
      forall j | 0 <= j < i
        ensures was[j].View() == Ticked(clocks[was[j]])
      {
        Distinct(was, j);
        assert old(was[j].View()) == Ticked(clocks[was[j]]);
      }
      TickedActive(clocks[t]);
      OneMore(was, clocks, i);
      assert Processed(was, clocks, i + 1);
      m' := if t.active then i else m;
    }

    /** The loop of `_vibe_timer_tick` */
    method TickList(ghost clocks: map<Timer, Clock>) returns (fired: seq<Timer>)
      requires Linked() && forall t :: t in list ==> t in clocks && clocks[t] == t.View()
      modifies this`head, this`list, list
      ensures Linked() && list == Survivors(clocks, old(list)) && fired == Firing(clocks, old(list))
      ensures forall t :: t in old(list) ==> t.View() == Ticked(clocks[t])
    {
      hide Due, Ticked, Survivors, Firing, Processed;
      var t, prev: Timer? := head, null;
      fired := [];
      ghost var was := list;
      ghost var i, m := 0, 0;
      NoneYet(clocks);
      assert was[..0] == [];
      NoneProcessed(clocks);
      while t != null
        invariant 0 <= i <= |was| && t == Nth(was, i) && fired == Firing(clocks, was[..i])
        invariant Reached(was, clocks, i, prev, m)
        decreases |was| - i
      {
        OneMore(was, clocks, i);
        var fires, next, last, m' := TickNext(t, prev, was, clocks, i, m);
        if fires {
          fired := fired + [t];
        }
        t, prev, m := next, last, m';
        i := i + 1;
      }
      assert was[..i] == was;
      AllProcessed(was, clocks);
      list := Survivors(clocks, was);
      forall j | 0 <= j < |list|
        ensures Chained(j)
      {
        assert KeptAt(list, null, j);
      }
    }

    /** `_vibe_timer_tick`: the timers that fired, in order */
    method Tick() returns (fired: seq<Timer>)
      requires Valid()
      modifies this`head, this`list, known
      ensures Valid() && known == old(known) && View() == M.Step(old(View()), M.Tick)
      ensures fired == Firing(old(View()).clocks, old(View()).list)
    {
      hide Linked, Survivors, Firing;
      ghost var v := View();
      StepInv(v, M.Tick);
      fired := TickList(v.clocks);
      ghost var v' := M.Step(v, M.Tick);
      assert View().clocks == v'.clocks;
      assert View().list == v'.list;
    }

    lemma NoneProcessed(clocks: map<Timer, Clock>)
      requires Linked() && forall t :: t in list ==> t in clocks && clocks[t] == t.View()
      ensures Processed(list, clocks, 0)
    {
      forall j | 0 <= j < |list|
        ensures Pristine(list, clocks, j)
      {
        assert Chained(j);
      }
    }
  }

  lemma WithoutKnown(v: M.Timers<Timer>, timer: Timer)
    requires M.Inv(v)
    ensures forall t :: t in Without(v.list, timer) ==> t in v.clocks
  {
    forall t | t in Without(v.list, timer)
      ensures t in v.clocks
    {
      WithoutMember(v.list, timer, t);
    }
  }

  lemma NotStaying(was: seq<Timer>, clocks: map<Timer, Clock>, i: nat)
    requires i < |was| && NoDup(was) && forall t :: t in was ==> t in clocks
    ensures was[i] !in Survivors(clocks, was[..i])
  {
    assert was[i] !in was[..i];
  }

  lemma NextPristine(was: seq<Timer>, clocks: map<Timer, Clock>, i: nat)
    requires i < |was| && (forall t :: t in was ==> t in clocks) && Processed(was, clocks, i)
    ensures was[i].active && was[i].next == Nth(was, i + 1) && was[i] in clocks && was[i].View() == clocks[was[i]]
  {
    assert Pristine(was, clocks, i);
  }

  lemma AllProcessed(was: seq<Timer>, clocks: map<Timer, Clock>)
    requires (forall t :: t in was ==> t in clocks) && Processed(was, clocks, |was|)
    ensures forall t :: t in was ==> t.View() == Ticked(clocks[t])
  {
  }

  /** Not reached yet */
  ghost predicate Pristine(was: seq<Timer>, clocks: map<Timer, Clock>, j: nat)
    requires j < |was| && was[j] in clocks
    reads was
  {
    was[j].active && was[j].next == Nth(was, j + 1) && was[j].View() == clocks[was[j]]
  }

  /** The first `i` timers have had their tick, the others are as they were. */
  ghost predicate Processed(was: seq<Timer>, clocks: map<Timer, Clock>, i: nat)
    requires i <= |was| && forall t :: t in was ==> t in clocks
    reads was
  {
    && (forall j {:trigger was[j]} :: 0 <= j < i ==> was[j].View() == Ticked(clocks[was[j]]))
    && (forall j {:trigger Pristine(was, clocks, j)} :: i <= j < |was| ==> Pristine(was, clocks, j))
  }

  lemma TickedActive(c: Clock)
    requires c.active
    ensures Ticked(c).active <==> !Leaves(c)
  {
  }

  lemma NoneYet(clocks: map<Timer, Clock>)
    ensures Survivors(clocks, []) == [] == Firing(clocks, [])
  {
  }

  lemma OneMore(list: seq<Timer>, clocks: map<Timer, Clock>, i: nat)
    requires i < |list| && forall t :: t in list ==> t in clocks
    ensures Survivors(clocks, list[..i + 1]) ==
            if Leaves(clocks[list[i]]) then Survivors(clocks, list[..i]) else Survivors(clocks, list[..i]) + [list[i]]
    ensures Firing(clocks, list[..i + 1]) ==
            if Due(clocks[list[i]]) then Firing(clocks, list[..i]) + [list[i]] else Firing(clocks, list[..i])
  {
    assert list[..i + 1][..i] == list[..i];
  }
}
