/**
 The scheduler as the kernel keeps it: thread control blocks on the heap, 32 run queues, the sleep list
 and any number of wait lists linked through them, a bit mask of the non-empty queues, and the current
 thread (kernel/sched.c, kernel/thread.c, kernel/sem.c and the tick handler of kernel/init.c).  Every
 routine is proved to be the step of the scheduler model that it stands for, to keep the mask exact and
 all lists well formed.
 */
module Scheduler {
  import opened Bits32
  import opened Seqs
  import opened IntrusiveList
  import opened SchedModel
  import opened ThreadLists
  import R = SchedRuns
  import TimerList
  import TimerModel

  ghost predicate BitOk(mask: nat, queues: seq<seq<int>>, p: nat)
  {
    Bit(mask, p) <==> p < |queues| && queues[p] != []
  }

  /** A bit of the mask is set exactly when the run queue of that priority has a thread in it. */
  ghost predicate MaskOk(mask: nat, queues: seq<seq<int>>)
  {
    forall p: nat {:trigger BitOk(mask, queues, p)} :: BitOk(mask, queues, p)
  }

  /** Lists and pointers name threads. */
  ghost predicate Sound(s: Sched)
  {
    && |s.queues| == PRIORITIES
    && (forall p, t :: 0 <= p < PRIORITIES && t in s.queues[p] ==> t in s.threads)
    && NULL !in s.threads && s.idle in s.threads
    && (s.current != NULL ==> s.current in s.threads)
  }

  lemma InvStruct(s: Sched)
    requires Inv(s)
    ensures Struct(s)
  {
  }

  /** The highest set bit of an exact mask names the highest non-empty queue. */
  lemma MaskFindsHighest(mask: nat, queues: seq<seq<int>>)
    requires MaskOk(mask, queues)
    ensures mask == 0 ==> HighestBelow(queues, |queues|) == -1
    ensures mask != 0 ==> HighestBelow(queues, |queues|) == HighestBit(mask)
  {
    if mask == 0 {
      forall q: nat | q < |queues|
        ensures queues[q] == []
      {
        ZeroHasNoBits(q);
        assert BitOk(mask, queues, q);
      }
    } else {
      var p := HighestBit(mask);
      HighestBitIsHighest(mask);
      assert BitOk(mask, queues, p);
      forall q: nat | p < q < |queues|
        ensures queues[q] == []
      {
        assert BitOk(mask, queues, q);
      }
    }
  }

  /** Thread `t` is in no run queue. */
  ghost predicate Unqueued(s: Sched, t: int)
  {
    forall p {:trigger s.queues[p]} :: 0 <= p < |s.queues| ==> t !in s.queues[p]
  }

  lemma ButUnqueued(s: Sched, t: int)
    requires StructBut(s, t)
    ensures Unqueued(s, t)
  {
  }

  lemma UnqueuedAbsent(s: Sched, contents: seq<seq<int>>, p: nat, t: int)
    requires WAITS <= |contents| && s.queues == contents[..SLEEP] && p < PRIORITIES && Unqueued(s, t)
    ensures Absent(contents, p, t)
  {
    forall j | 0 <= j < SLEEP
      ensures t !in contents[j]
    {
      assert s.queues[j] == contents[j];
    }
  }

  lemma NotWaitingAbsent(s: Sched, contents: seq<seq<int>>, k: nat, t: int)
    requires WAITS <= |contents| && s.waits == contents[WAITS..] && WAITS <= k && NotWaiting(s, t)
    ensures Absent(contents, k, t)
  {
    forall j | WAITS <= j < |contents|
      ensures t !in contents[j]
    {
      assert s.waits[j - WAITS] == contents[j];
    }
  }

  class Kernel {
    const store: Store
    var mask: nat                // g_ready_mask
    var current: int
    var idle: int
    var lock: nat
    var now: nat
    var slice: nat
    var period: nat

    ghost function State(): Sched
      requires WAITS <= |store.contents|
      reads this, store
    {
      Sched(store.tcbs, store.contents[..SLEEP], store.contents[SLEEP], store.contents[WAITS..],
            current, idle, lock, now, slice, period)
    }

    /**
     What holds inside the kernel, even halfway through an operation: all lists are in order and the
     mask is exact.
     */
    ghost predicate Exact()
      reads this, store, store.lists, store.pool, store.blocks
    {
      && store.Valid() && WAITS <= |store.contents| == |store.lists|
      && MaskOk(mask, store.contents[..SLEEP]) && Sound(State())
    }

    ghost predicate Valid()
      reads this, store, store.lists, store.pool, store.blocks
    {
      Exact() && Inv(State())
    }

    /** After boot, with `n` wait lists: only the idle thread, created and queued, and nothing running */
    constructor (idle: int, period: nat, n: nat)
      requires idle > 0 && period > 0
      ensures Valid() && State() == R.Boot(idle, period, n)
    {
      var store := new Store(n);
      store.Add(idle, 0);
      this.store := store;
      this.idle, this.period, slice := idle, period, period;
      mask, current, lock, now := 0, NULL, 0, 0;
      new;
      forall p: nat
        ensures BitOk(mask, store.contents[..SLEEP], p)
      {
        ZeroHasNoBits(p);
      }
      EnqueueThread(idle);
      assert forall p :: 0 <= p < PRIORITIES ==> State().queues[p] == R.Boot(idle, period, n).queues[p];
      assert State().queues == R.Boot(idle, period, n).queues;
      assert State().waits == R.Boot(idle, period, n).waits;
      assert State().threads == R.Boot(idle, period, n).threads;
      R.BootInv(idle, period, n);
    }

    // ---------- kernel/sched.c ----------

    /** `_vibe_sched_enqueue` */
    method EnqueueThread(t: int)
      requires Exact() && t in store.tcbs && store.tcbs[t].priority < PRIORITIES && Unqueued(State(), t)
      modifies this, store, store.lists, store.pool, store.blocks
      ensures Exact() && State() == Enqueue(old(State()), t)
      ensures store.pool == old(store.pool) && store.blocks == old(store.blocks)
      ensures store.threads == old(store.threads) && store.lists[SLEEP].nodes == old(store.lists[SLEEP].nodes)
    {
      hide Store.Valid, MaskOk, Sound;
      ghost var s := State();
      EnqueueExact(mask, s, t);
      var b := store.Read(t);
      store.Write(t, b.(mode := Ready));
      var p := b.priority;
      UnqueuedAbsent(s, store.contents, p, t);
      ListsApart(p);
      store.Append(p, t);
      mask := SetBit(mask, p);
      assert State().queues == s.queues[p := s.queues[p] + [t]] && State().waits == s.waits;
    }

    lemma ListsApart(p: nat)
      requires store.Valid() && p < PRIORITIES
      ensures WAITS <= |store.lists| && store.lists[p] != store.lists[SLEEP]
    {
    }

    /** `_vibe_sched_dequeue` */
    method DequeueThread(t: int)
      requires Exact() && t in store.tcbs && store.tcbs[t].priority < PRIORITIES
      requires t in store.contents[store.tcbs[t].priority]
      modifies this, store, store.lists, store.pool, store.blocks
      ensures Exact() && State() == Dequeue(old(State()), t)
      ensures store.pool == old(store.pool) && store.blocks == old(store.blocks)
    {
      hide Store.Valid, MaskOk, Sound;
      ghost var s := State();
      DequeueExact(mask, s, t);
      var b := store.Read(t);
      var p := b.priority;
      store.Remove(p, t);
      assert State().queues == s.queues[p := Without(s.queues[p], t)] && State().waits == s.waits;
      var head := store.Head(p);
      assert store.contents[p] != [] ==> store.contents[p][0] in State().queues[p];
      if head == NULL {
        mask := ClearBit(mask, p);
      }
    }

    /** `_highest_ready_priority` */
    method HighestReadyPriority() returns (p: int)
      requires Exact()
      ensures p == HighestBelow(State().queues, |State().queues|)
    {
      MaskFindsHighest(mask, State().queues);
      if mask == 0 {
        p := -1;
      } else {
        p := HighestBit(mask);
      }
    }

    /** `_vibe_sched_next_thread` */
    method NextThread() returns (t: int)
      requires Exact()
      ensures t == Next(State())
    {
      var p := HighestReadyPriority();
      if p < 0 {
        return idle;
      }
      t := store.Head(p);
      assert State().queues[p] == store.contents[p];
      if t == NULL {
        t := idle;
      }
    }

    /** `_vibe_sched_reschedule` */
    method Resched()
      requires Exact()
      modifies this, store, store.lists, store.pool, store.blocks
      ensures Exact() && State() == Reschedule(old(State()))
      ensures store.pool == old(store.pool) && store.blocks == old(store.blocks)
    {
      hide Store.Valid, MaskOk, Switch;
      if lock > 0 {
        return;
      }
      var next := NextThread();
      if next == NULL || next == current {
        return;
      }
      NextKnown(State());
      SwitchTo(next);
    }

    /** The context-switch decision in `_vibe_sched_reschedule` */
    method SwitchTo(next: int)
      requires Exact() && next in store.tcbs && next != current
      modifies this, store, store.lists, store.pool, store.blocks
      ensures Exact() && State() == Switch(old(State()), next)
      ensures store.pool == old(store.pool) && store.blocks == old(store.blocks)
    {
      hide Store.Valid, MaskOk;
      var prev := current;
      current := next;
      var b := store.Read(next);
      store.Write(next, b.(mode := Running));
      if prev != NULL {
        var c := store.Read(prev);
        if c.mode.Running? {
          store.Write(prev, c.(mode := Ready));
        }
      }
    }

    /** `_vibe_sched_timeslice_tick` */
    method SliceTick()
      requires Exact() && Struct(State())
      modifies this, store, store.lists, store.pool, store.blocks
      ensures var s := old(State()); s.current in s.threads ==> s.threads[s.current].priority < |s.queues|
      ensures Exact() && State() == TimesliceTick(old(State())) && current == old(current)
      ensures store.pool == old(store.pool) && store.blocks == old(store.blocks)
    {
      hide Store.Valid;
      ghost var s := State();
      if current == NULL {
        return;
      }
      assert SchedModel.ThreadOk(s, current);
      var b := store.Read(current);
      if !b.mode.Running? {
        return;
      }
      if slice > 1 {
        slice := slice - 1;
        return;
      }
      slice := period;
      var n := store.Count(b.priority);
      assert s.queues[b.priority] == store.contents[b.priority];
      if n > 1 {
        R.SliceStruct(s, period);
        DetachRunnable(State(), current);
        DequeueThread(current);
        ButUnqueued(State(), current);
        EnqueueThread(current);
      }
    }

    /** `_vibe_sched_sleep` */
    method SleepInsert(t: int, expiry: nat)
      requires Exact() && t in store.tcbs && t !in store.contents[SLEEP] && Known(State())
      modifies this, store, store.lists, store.pool, store.blocks
      ensures Exact() && State() == SleepUntil(old(State()), t, expiry)
      ensures store.pool == old(store.pool) && store.blocks == old(store.blocks)
    {
      hide Store.Valid, MaskOk, Sound;
      ghost var s := State();
      SleepSound(s, t, expiry);
      var b := store.Read(t);
      store.Write(t, b.(timeout := expiry, mode := Sleeping));
      var later, i := store.FindLater(expiry);
      PlaceIs(s, t, expiry, store.tcbs, i);
      assert Absent(store.contents, SLEEP, t);
      store.PlaceSleeper(later, t, i);
      assert State().queues == s.queues && State().waits == s.waits;
    }

    /**
     `_vibe_sched_wake_expired`: the scan that stops at the first sleeper that is not due, with the
     next node read before the current one is unlinked
     */
    method WakeScan()
      requires Exact() && Struct(State())
      modifies this, store, store.lists, store.pool, store.blocks
      ensures Known(old(State()))
      ensures Exact() && State() == WakeExpired(old(State()))
      ensures store.pool == old(store.pool) && store.blocks == old(store.blocks)
    {
      hide Store.Valid, Without;
      SleepersKnown(State(), NULL);
      store.SleepersKnown();
      var node := store.lists[SLEEP].head;
      while node != null
        invariant Exact() && Struct(State()) && Known(State()) && node == Nth(store.lists[SLEEP].nodes, 0)
        invariant |store.lists[SLEEP].nodes| == |store.contents[SLEEP]|
        invariant store.pool == old(store.pool) && store.blocks == old(store.blocks)
        invariant WakeExpired(State()) == WakeExpired(old(State()))
        decreases |store.contents[SLEEP]|
      {
        store.SleeperAt(0);
        var next := node.next;
        var t := node.id;
        if store.threads[t].timeout > now {
          return;
        }
        WakeFirst(State());
        DetachFirst(State());
        WakeOne(node, t);
        SleepersKnown(State(), NULL);
        store.SleepersKnown();
        node := next;
      }
    }

    /** The body of that scan, for a sleeper that is due */
    method WakeOne(node: Node, t: int)
      requires Exact() && store.contents[SLEEP] != [] && t == store.contents[SLEEP][0] && t in store.tcbs
      requires t in store.threads
      requires store.lists[SLEEP].nodes != [] && store.lists[SLEEP].nodes[0] == node == store.threads[t].sleep
      requires store.tcbs[t].priority < PRIORITIES && Unqueued(State(), t)
      modifies this, store, store.lists, store.pool, store.blocks
      ensures Exact() && State() == Enqueue(old(State()).(sleep := old(State()).sleep[1..]), t)
      ensures store.lists[SLEEP].nodes == old(store.lists[SLEEP].nodes)[1..]
      ensures store.pool == old(store.pool) && store.blocks == old(store.blocks)
    {
      hide Store.Valid;
      ghost var s := State();
      store.Remove(SLEEP, t);
      assert State().queues == s.queues && State().waits == s.waits;
      assert State() == s.(sleep := s.sleep[1..]);
      EnqueueThread(t);
    }

    /** `_vibe_sched_next_wakeup`: the earliest expiry, or -1 for "never" */
    method NextWakeup() returns (tick: int)
      requires Valid()
      ensures store.contents[SLEEP] == [] ==> tick == -1
      ensures store.contents[SLEEP] != [] ==>
                exists t :: t in store.contents[SLEEP] && t in store.tcbs && store.tcbs[t].timeout == tick
      ensures forall t :: t in store.contents[SLEEP] ==> t in store.tcbs && tick <= store.tcbs[t].timeout
    {
      hide Store.Valid;
      var t := store.Head(SLEEP);
      SleepersKnown(State(), NULL);
      SleeperPositive(State());
      if t == NULL {
        return -1;
      }
      forall u | u in store.contents[SLEEP]
        ensures u in store.tcbs && store.tcbs[t].timeout <= store.tcbs[u].timeout
      {
        HeadIsEarliest(State(), u);
      }
      assert t in store.contents[SLEEP];
      var b := store.Read(t);
      tick := b.timeout;
    }

    /** An operation that the model admits is about to be carried out. */
    lemma Begin(op: R.Op)
      requires Valid() && R.Allowed(State(), op)
      ensures Struct(State()) && IdleReady(State()) && Inv(R.Step(State(), op)) && Known(State())
      ensures forall t :: t in store.tcbs ==> SchedModel.ThreadOk(State(), t)
      ensures State().lock == 0 && current != NULL ==> R.CurrentQueued(State())
    {
      R.StepInv(State(), op);
      SleepersKnown(State(), NULL);
    }

    /** `vibe_sched_lock` */
    method LockScheduler()
      requires Valid()
      modifies this, store, store.lists, store.pool, store.blocks
      ensures Valid() && State() == R.Step(old(State()), R.Lock)
      ensures store.pool == old(store.pool) && store.blocks == old(store.blocks)
    {
      hide Inv, Struct, Reschedule, TimesliceTick, WakeExpired, SleepUntil, Store.Valid;
      Begin(R.Lock);
      lock := lock + 1;
    }

    /** `vibe_sched_unlock` */
    method UnlockScheduler()
      requires Valid()
      modifies this, store, store.lists, store.pool, store.blocks
      ensures Valid() && State() == R.Step(old(State()), R.Unlock)
      ensures store.pool == old(store.pool) && store.blocks == old(store.blocks)
    {
      hide Inv, Struct, Reschedule, TimesliceTick, WakeExpired, SleepUntil, Store.Valid;
      Begin(R.Unlock);
      if lock > 0 {
        lock := lock - 1;
      }
      if lock == 0 {
        Resched();
      }
    }

    /** `vibe_sched_start` */
    method StartScheduler()
      requires Valid() && current == NULL
      modifies this, store, store.lists, store.pool, store.blocks
      ensures Valid() && State() == R.Step(old(State()), R.Start)
      ensures store.pool == old(store.pool) && store.blocks == old(store.blocks)
    {
      hide Inv, Struct, Reschedule, TimesliceTick, WakeExpired, SleepUntil, Store.Valid;
      Begin(R.Start);
      NextIsTop(State());
      current := NextThread();
      var b := store.Read(current);
      store.Write(current, b.(mode := Running));
    }

    // ---------- kernel/thread.c ----------

    /** `vibe_thread_create`, of a new control block or one of a thread that is in no list */
    method CreateThread(t: int, priority: nat) returns (ok: bool)
      requires Valid() && R.Allowed(State(), R.Create(t, priority))
      modifies this, store, store.lists, store.pool, store.blocks
      ensures Valid() && State() == R.Step(old(State()), R.Create(t, priority))
      ensures fresh(store.pool - old(store.pool)) && fresh(store.blocks - old(store.blocks))
      ensures ok <==> priority < PRIORITIES
    {
      hide Inv, Struct, Reschedule, TimesliceTick, WakeExpired, SleepUntil, Store.Valid;
      Begin(R.Create(t, priority));
      if priority >= PRIORITIES {
        return false;
      }
      R.FreshBut(State(), t, priority);
      InitBlock(t, priority);
      ButUnqueued(State(), t);
      EnqueueThread(t);
      ok := true;
    }

    /** The control block of a thread to be, in no list */
    method InitBlock(t: int, priority: nat)
      requires Exact() && t > 0 && StructBut(R.Fresh(State(), t, priority), t)
      modifies this, store, store.lists, store.pool, store.blocks
      ensures Exact() && State() == R.Fresh(old(State()), t, priority)
      ensures fresh(store.pool - old(store.pool)) && fresh(store.blocks - old(store.blocks))
    {
      hide Store.Valid, MaskOk;
      ghost var s := R.Fresh(State(), t, priority);
      store.HasBlock(t);
      if t in store.threads {
        InNoList(s, store.contents, t);
        store.Renew(t, priority);
      } else {
        store.Add(t, priority);
      }
      assert State() == s;
    }

    /** `vibe_thread_delete` */
    method DeleteThread(t: int)
      requires Valid() && R.Allowed(State(), R.Delete(t))
      modifies this, store, store.lists, store.pool, store.blocks
      ensures Valid() && State() == R.Step(old(State()), R.Delete(t))
      ensures store.pool == old(store.pool) && store.blocks == old(store.blocks)
    {
      hide Inv, Struct, Reschedule, TimesliceTick, WakeExpired, SleepUntil, Store.Valid;
      Begin(R.Delete(t));
      var b := store.Read(t);
      if b.mode.Ready? || b.mode.Running? {
        DequeueThread(t);
      }
      store.Write(t, b.(mode := Dead));
      if t == current {
        Resched();
      }
    }

    /** `vibe_thread_suspend` */
    method SuspendThread(t: int) returns (ok: bool)
      requires Valid() && R.Allowed(State(), R.Suspend(t))
      modifies this, store, store.lists, store.pool, store.blocks
      ensures Valid() && State() == R.Step(old(State()), R.Suspend(t))
      ensures store.pool == old(store.pool) && store.blocks == old(store.blocks)
      ensures ok <==> !old(store.tcbs)[t].mode.Dead?
    {
      hide Inv, Struct, Reschedule, TimesliceTick, WakeExpired, SleepUntil, Store.Valid;
      Begin(R.Suspend(t));
      var b := store.Read(t);
      if b.mode.Dead? {
        return false;
      }
      if b.mode.Ready? || b.mode.Running? {
        DequeueThread(t);
      }
      store.Write(t, b.(mode := Suspended));
      if t == current {
        Resched();
      }
      ok := true;
    }

    /** `vibe_thread_resume` */
    method ResumeThread(t: int) returns (ok: bool)
      requires Valid() && R.Allowed(State(), R.Resume(t))
      modifies this, store, store.lists, store.pool, store.blocks
      ensures Valid() && State() == R.Step(old(State()), R.Resume(t))
      ensures store.pool == old(store.pool) && store.blocks == old(store.blocks)
      ensures ok <==> old(store.tcbs)[t].mode.Suspended?
    {
      hide Inv, Struct, Reschedule, TimesliceTick, WakeExpired, SleepUntil, Store.Valid;
      Begin(R.Resume(t));
      var b := store.Read(t);
      if !b.mode.Suspended? {
        return false;
      }
      DetachParked(State(), t);
      ButUnqueued(State(), t);
      EnqueueThread(t);
      if current != NULL {
        var c := store.Read(current);
        if b.priority > c.priority {
          Resched();
        }
      }
      ok := true;
    }

    /** `vibe_thread_sleep` of the current thread */
    method SleepThread(ticks: nat)
      requires Valid() && R.Allowed(State(), R.SleepFor(ticks))
      modifies this, store, store.lists, store.pool, store.blocks
      ensures Valid() && State() == R.Step(old(State()), R.SleepFor(ticks))
      ensures store.pool == old(store.pool) && store.blocks == old(store.blocks)
    {
      hide Inv, Struct, Reschedule, TimesliceTick, WakeExpired, SleepUntil, Store.Valid;
      Begin(R.SleepFor(ticks));
      if current == NULL {
        return;
      }
      DetachRunnable(State(), current);
      SleepersKnown(Dequeue(State(), current), current);
      var expiry := now + ticks;
      DequeueThread(current);
      SleepInsert(current, expiry);
      Resched();
    }

    /** `vibe_thread_yield` */
    method YieldThread()
      requires Valid() && R.Allowed(State(), R.Yield)
      modifies this, store, store.lists, store.pool, store.blocks
      ensures Valid() && State() == R.Step(old(State()), R.Yield)
      ensures store.pool == old(store.pool) && store.blocks == old(store.blocks)
    {
      hide Inv, Struct, Reschedule, TimesliceTick, WakeExpired, SleepUntil, Store.Valid;
      Begin(R.Yield);
      if current == NULL {
        return;
      }
      DetachRunnable(State(), current);
      DequeueThread(current);
      ButUnqueued(State(), current);
      EnqueueThread(current);
      Resched();
    }

    /** `vibe_thread_restart` */
    method RestartThread(t: int)
      requires Valid() && R.Allowed(State(), R.Restart(t))
      modifies this, store, store.lists, store.pool, store.blocks
      ensures Valid() && State() == R.Step(old(State()), R.Restart(t))
      ensures store.pool == old(store.pool) && store.blocks == old(store.blocks)
    {
      hide Inv, Struct, Reschedule, TimesliceTick, WakeExpired, SleepUntil, Store.Valid;
      Begin(R.Restart(t));
      var b := store.Read(t);
      UnlistThread(t, b);
      Relaunch(t, b);
    }

    /** The end of `vibe_thread_restart` */
    method Relaunch(t: int, b: Tcb)
      requires Exact() && t in store.tcbs && b == store.tcbs[t] && b.base < PRIORITIES && Unqueued(State(), t)
      modifies this, store, store.lists, store.pool, store.blocks
      ensures Exact() && State() == R.Relaunch(old(State()), t)
      ensures store.pool == old(store.pool) && store.blocks == old(store.blocks)
    {
      hide Store.Valid, MaskOk;
      ghost var s := State();
      store.Write(t, b.(priority := b.base, mode := Suspended, timeout := 0));
      EnqueueThread(t);
      assert State().threads == R.Relaunch(s, t).threads;
    }

    /** The start of `vibe_thread_restart`: out of whatever list it is in */
    method UnlistThread(t: int, b: Tcb)
      requires Valid() && t in store.tcbs && b == store.tcbs[t] && !b.mode.Running? && !b.mode.Waiting?
      modifies this, store, store.lists, store.pool, store.blocks
      ensures t in old(State()).threads && old(State()).threads[t].priority < |old(State()).queues|
      ensures Exact() && State() == R.Unlist(old(State()), t) && Unqueued(State(), t)
      ensures store.pool == old(store.pool) && store.blocks == old(store.blocks)
    {
      hide Store.Valid;
      ghost var s := State();
      assert SchedModel.ThreadOk(s, t);
      if b.mode.Ready? {
        DetachRunnable(s, t);
        DequeueThread(t);
        ButUnqueued(State(), t);
      } else if b.mode.Sleeping? {
        DetachSleeper(s, t);
        store.Remove(SLEEP, t);
        assert State().queues == s.queues && State().waits == s.waits;
        ButUnqueued(State(), t);
      } else {
        DetachParked(s, t);
        ButUnqueued(s, t);
      }
    }

    /** `vibe_thread_set_priority` */
    method SetThreadPriority(t: int, priority: nat) returns (ok: bool)
      requires Valid() && R.Allowed(State(), R.SetPriority(t, priority))
      modifies this, store, store.lists, store.pool, store.blocks
      ensures Valid() && State() == R.Step(old(State()), R.SetPriority(t, priority))
      ensures store.pool == old(store.pool) && store.blocks == old(store.blocks)
      ensures ok <==> priority < PRIORITIES
    {
      hide Inv, Struct, Reschedule, TimesliceTick, WakeExpired, SleepUntil, Store.Valid;
      Begin(R.SetPriority(t, priority));
      if priority >= PRIORITIES {
        return false;
      }
      var b := store.Read(t);
      var wasReady := b.mode.Ready?;
      if wasReady {
        DetachRunnable(State(), t);
        DequeueThread(t);
        ButUnqueued(State(), t);
      }
      store.Write(t, b.(priority := priority, base := priority));
      if wasReady {
        EnqueueThread(t);
      }
      Resched();
      ok := true;
    }

    // ---------- kernel/sem.c, as far as the scheduler goes ----------

    /** The blocking branch of `vibe_sem_take`, on wait list `k` */
    method BlockCurrent(k: nat, timeout: nat)
      requires Valid() && R.Allowed(State(), R.Block(k, timeout))
      modifies this, store, store.lists, store.pool, store.blocks
      ensures Valid() && State() == R.Step(old(State()), R.Block(k, timeout))
      ensures store.pool == old(store.pool) && store.blocks == old(store.blocks)
    {
      hide Inv, Struct, Reschedule, TimesliceTick, WakeExpired, SleepUntil, Store.Valid;
      Begin(R.Block(k, timeout));
      DetachRunnable(State(), current);
      DequeueThread(current);
      ButNotWaiting(State(), current);
      Enlist(k, timeout);
      Resched();
    }

    /** `self->state = VIBE_THREAD_WAITING`, and into the wait list */
    method Enlist(k: nat, timeout: nat)
      requires Exact() && current in store.tcbs && NotWaiting(State(), current) && k < |State().waits|
      modifies this, store, store.lists, store.pool, store.blocks
      ensures Exact() && State() == R.Await(old(State()), old(current), k, timeout)
      ensures store.pool == old(store.pool) && store.blocks == old(store.blocks)
    {
      hide Store.Valid, MaskOk;
      ghost var s := State();
      var b := store.Read(current);
      store.Write(current, b.(mode := Waiting(k), timeout := timeout));
      NotWaitingAbsent(s, store.contents, WAITS + k, current);
      store.Append(WAITS + k, current);
      R.AwaitAppends(s, current, k, timeout);
      assert State().waits == s.waits[k := s.waits[k] + [current]];
      assert State().queues == s.queues;
    }

    /** `vibe_sem_give`, on wait list `k`: the token goes to the first waiter, if there is one */
    method GiveTo(k: nat) returns (handed: bool)
      requires Valid() && R.Allowed(State(), R.Give(k))
      modifies this, store, store.lists, store.pool, store.blocks
      ensures Valid() && State() == R.Step(old(State()), R.Give(k))
      ensures handed <==> old(State()).waits[k] != []
      ensures store.pool == old(store.pool) && store.blocks == old(store.blocks)
    {
      hide Inv, Struct, Reschedule, TimesliceTick, WakeExpired, SleepUntil, Store.Valid;
      Begin(R.Give(k));
      WaiterPositive(State(), k);
      var t := store.Head(WAITS + k);
      handed := t != NULL;
      if handed {
        DetachWaiter(State(), k);
        Unlist(k, t);
        ButUnqueued(State(), t);
        EnqueueThread(t);
        Resched();
      }
    }

    /** The rest of `vibe_list_get_head` */
    method Unlist(k: nat, t: int)
      requires Exact() && k < |State().waits| && State().waits[k] != [] && t == State().waits[k][0]
      modifies this, store, store.lists, store.pool, store.blocks
      ensures Exact() && State() == TakeWaiter(old(State()), k)
      ensures store.pool == old(store.pool) && store.blocks == old(store.blocks)
    {
      hide Store.Valid, MaskOk;
      ghost var s := State();
      assert s.waits[k] == store.contents[WAITS + k] && Without(s.waits[k], t) == s.waits[k][1..];
      store.Remove(WAITS + k, t);
      assert State().waits == TakeWaiter(s, k).waits && State().queues == s.queues;
    }

    // ---------- kernel/init.c ----------

    /** What `_vibe_sys_tick_handler` does after the software timers, the tick having been counted from `s` */
    method AfterTimers(ghost s: Sched)
      requires Exact() && Inv(s) && State() == s.(now := s.now + 1)
      modifies this, store, store.lists, store.pool, store.blocks
      ensures Valid() && State() == R.Step(s, R.Tick)
      ensures store.pool == old(store.pool) && store.blocks == old(store.blocks)
    {
      hide Inv, Struct, Reschedule, TimesliceTick, WakeExpired, SleepUntil, Store.Valid;
      R.StepInv(s, R.Tick);
      InvStruct(s);
      R.TickStruct(s);
      WakeScan();
      SliceTick();
      Resched();
    }

    /** `g_tick_count++` */
    method CountTick() returns (ghost s: Sched)
      requires Valid()
      modifies this`now
      ensures Exact() && s == old(State()) && Inv(s) && State() == s.(now := s.now + 1)
    {
      hide Inv, Store.Valid;
      s := State();
      now := now + 1;
    }

    /** `_vibe_sys_tick_handler`, the scheduler's part */
    method SysTick()
      requires Valid()
      modifies this, store, store.lists, store.pool, store.blocks
      ensures Valid() && State() == R.Step(old(State()), R.Tick)
      ensures store.pool == old(store.pool) && store.blocks == old(store.blocks)
    {
      hide Valid, Exact, R.Step;
      ghost var s := CountTick();
      AfterTimers(s);
    }

    /** The whole handler: the software timers have their tick too, and neither part touches the other. */
    method TickHandler(timers: TimerList.Timers) returns (fired: seq<TimerList.Timer>)
      requires Valid() && timers.Valid()
      modifies this, store, store.lists, store.pool, store.blocks, timers`head, timers`list, timers.known
      ensures Valid() && State() == R.Step(old(State()), R.Tick)
      ensures timers.Valid() && TimerModel.TickedTo(old(timers.View()), timers.View(), fired)
    {
      hide Valid, Exact, R.Step, TimerList.Timers.Valid, TimerModel.Step, TimerModel.Firing, TimerModel.Inv;
      ghost var s := CountTick();
      timers.ModelInv();
      fired := timers.Tick();
      AfterTimers(s);
    }

    // ---------- runs ----------

    /** Any admitted operation, by the routine for it */
    method Perform(op: R.Op)
      requires Valid() && R.Allowed(State(), op)
      modifies this, store, store.lists, store.pool, store.blocks
      ensures Valid() && State() == R.Step(old(State()), op)
      ensures fresh(store.pool - old(store.pool)) && fresh(store.blocks - old(store.blocks))
    {
      hide Inv, R.Step, Store.Valid;
      match op
      case Start => StartScheduler();
      case Create(t, priority) => var _ := CreateThread(t, priority);
      case Delete(t) => DeleteThread(t);
      case Suspend(t) => var _ := SuspendThread(t);
      case Resume(t) => var _ := ResumeThread(t);
      case SleepFor(ticks) => SleepThread(ticks);
      case Yield => YieldThread();
      case Restart(t) => RestartThread(t);
      case SetPriority(t, priority) => var _ := SetThreadPriority(t, priority);
      case Block(k, timeout) => BlockCurrent(k, timeout);
      case Give(k) => var _ := GiveTo(k);
      case Tick => SysTick();
      case Lock => LockScheduler();
      case Unlock => UnlockScheduler();
    }

    /**
     Over every run of admitted operations the code is in the state of the model, with all lists well
     formed and the mask exact.
     */
    method Execute(ops: seq<R.Op>)
      requires Valid() && R.ValidRun(State(), ops)
      modifies this, store, store.lists, store.pool, store.blocks
      ensures Valid() && State() == R.Run(old(State()), ops)
    {
      hide Inv, R.Step, R.Allowed, Store.Valid;
      for k := 0 to |ops|
        invariant Valid() && R.ValidRun(State(), ops[k..])
        invariant R.Run(State(), ops[k..]) == R.Run(old(State()), ops)
        invariant fresh(store.pool - old(store.pool)) && fresh(store.blocks - old(store.blocks))
      {
        assert ops[k..][1..] == ops[k + 1..];
        Perform(ops[k]);
      }
    }
  }

  lemma EnqueueExact(mask: nat, s: Sched, t: int)
    requires MaskOk(mask, s.queues) && Sound(s) && t in s.threads && s.threads[t].priority < PRIORITIES
    ensures MaskOk(SetBit(mask, s.threads[t].priority), Enqueue(s, t).queues) && Sound(Enqueue(s, t))
  {
    var p := s.threads[t].priority;
    forall q: nat
      ensures BitOk(SetBit(mask, p), Enqueue(s, t).queues, q)
    {
      assert BitOk(mask, s.queues, q);
      BitOfSet(mask, p, q);
    }
  }

  /** No thread is NULL, so an empty queue shows by its head. */
  lemma DequeueExact(mask: nat, s: Sched, t: int)
    requires MaskOk(mask, s.queues) && Sound(s) && t in s.threads && s.threads[t].priority < PRIORITIES
    requires t in s.queues[s.threads[t].priority]
    ensures var p := s.threads[t].priority;
            var q := Dequeue(s, t).queues;
            && Sound(Dequeue(s, t)) && (forall x :: x in q[p] ==> x != NULL)
            && (q[p] == [] ==> MaskOk(ClearBit(mask, p), q)) && (q[p] != [] ==> MaskOk(mask, q))
  {
    var p := s.threads[t].priority;
    forall x | x in Without(s.queues[p], t)
      ensures x in s.queues[p]
    {
      WithoutSubset(s.queues[p], t, x);
    }
    var mask' := if Dequeue(s, t).queues[p] == [] then ClearBit(mask, p) else mask;
    forall q: nat
      ensures BitOk(mask', Dequeue(s, t).queues, q)
    {
      assert BitOk(mask, s.queues, q);
      BitOfClear(mask, p, q);
    }
  }

  lemma SleepSound(s: Sched, t: int, expiry: nat)
    requires Sound(s) && Known(s) && t in s.threads
    ensures Sound(SleepUntil(s, t, expiry))
  {
  }

  lemma NextKnown(s: Sched)
    requires Sound(s)
    ensures Next(s) in s.threads
  {
    var h := HighestBelow(s.queues, |s.queues|);
    if h >= 0 {
      assert s.queues[h][0] in s.queues[h];
    }
  }

  /** The scan finds the model's place for a new sleeper. */
  lemma PlaceIs(s: Sched, t: int, expiry: nat, threads: map<int, Tcb>, i: nat)
    requires Known(s) && t in s.threads && t !in s.sleep && i <= |s.sleep|
    requires threads == s.threads[t := s.threads[t].(timeout := expiry, mode := Sleeping)]
    requires forall j :: 0 <= j < i ==> threads[s.sleep[j]].timeout <= expiry
    requires i < |s.sleep| ==> expiry < threads[s.sleep[i]].timeout
    ensures SleepPlace(s, expiry, 0) == i
  {
    var k := SleepPlace(s, expiry, 0);
    assert forall j :: 0 <= j < |s.sleep| ==> s.sleep[j] in s.sleep && threads[s.sleep[j]] == s.threads[s.sleep[j]];
  }

  lemma DetachFirst(s: Sched)
    requires Struct(s) && s.sleep != []
    ensures Unqueued(s, s.sleep[0])
  {
    var t := s.sleep[0];
    assert t in s.sleep && s.threads[t].mode.Sleeping?;
    forall p | 0 <= p < |s.queues|
      ensures t !in s.queues[p]
    {
      assert QueueOk(s, p);
    }
  }

  lemma ButNotWaiting(s: Sched, t: int)
    requires StructBut(s, t)
    ensures NotWaiting(s, t)
  {
  }

  lemma InNoList(s: Sched, contents: seq<seq<int>>, t: int)
    requires StructBut(s, t) && WAITS <= |contents|
    requires s.queues == contents[..SLEEP] && s.sleep == contents[SLEEP] && s.waits == contents[WAITS..]
    ensures Absent(contents, 0, t) && Absent(contents, SLEEP, t) && Absent(contents, WAITS, t)
  {
    UnqueuedAbsent(s, contents, 0, t);
    NotWaitingAbsent(s, contents, WAITS, t);
  }

  lemma WaiterPositive(s: Sched, k: nat)
    requires Struct(s) && k < |s.waits|
    ensures s.waits[k] != [] ==> s.waits[k][0] != NULL
  {
    if s.waits[k] != [] {
      var t := s.waits[k][0];
      assert WaitOk(s, k) && t in s.waits[k] && ThreadOk(s, t);
    }
  }

  lemma SleeperPositive(s: Sched)
    requires Struct(s)
    ensures s.sleep != [] ==> s.sleep[0] != NULL
  {
    if s.sleep != [] {
      assert s.sleep[0] in s.sleep && ThreadOk(s, s.sleep[0]);
    }
  }
}
