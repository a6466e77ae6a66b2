/**
 The thread operations (kernel/thread.c, kernel/sem.c) on any thread, in whatever mode: what the calls
 do to the linked lists also where they should not have been made, and that the conditions of
 `SchedRuns.Allowed` are exactly those under which lists and control blocks stay consistent.
 */
module SchedMisuse {
  import opened Seqs
  import opened SchedModel
  import opened SchedRuns

  /**
   The scheduler with the counters of its lists; `tangled` once a node has been linked in twice and
   the links form no list any more.
   */
  datatype Raw = Raw(s: Sched, counts: seq<int>, sleepCount: int, waitCounts: seq<int>, tangled: bool)

  /** The links form lists, and the counters are their lengths. */
  ghost predicate Counted(r: Raw)
  {
    && !r.tangled && |r.s.queues| == |r.counts| == PRIORITIES
    && (forall p :: 0 <= p < PRIORITIES ==> r.counts[p] == |r.s.queues[p]|)
    && r.sleepCount == |r.s.sleep| && |r.waitCounts| == |r.s.waits|
    && (forall k :: 0 <= k < |r.s.waits| ==> r.waitCounts[k] == |r.s.waits[k]|)
  }

  /** Lists, counters and control blocks agree. */
  ghost predicate Consistent(r: Raw) { Counted(r) && Struct(r.s) }

  function Of(s: Sched): Raw
  {
    Raw(s, seq(|s.queues|, p requires 0 <= p < |s.queues| => |s.queues[p]|), |s.sleep|,
        seq(|s.waits|, k requires 0 <= k < |s.waits| => |s.waits[k]|), false)
  }

  /** The thread exists, and its run queue too. */
  predicate Placed(r: Raw, t: int)
  {
    t in r.s.threads && r.s.threads[t].priority < |r.s.queues| == |r.counts|
  }

  // ---------- the calls ----------

  /**
   `_vibe_sched_dequeue`: `vibe_list_remove` of a node that is in no list cuts off the whole list,
   and counts it down all the same.
   */
  function RawDequeue(r: Raw, t: int): Raw
    requires Placed(r, t)
  {
    var p := r.s.threads[t].priority;
    var q := r.s.queues[p];
    r.(s := r.s.(queues := r.s.queues[p := if t in q then Without(q, t) else []]),
      counts := r.counts[p := r.counts[p] - 1])
  }

  /** `_vibe_sched_enqueue`: a node that is in a run queue already gets tangled. */
  function RawEnqueue(r: Raw, t: int): Raw
    requires Placed(r, t)
  {
    var p := r.s.threads[t].priority;
    r.(s := Enqueue(r.s, t), counts := r.counts[p := r.counts[p] + 1],
       tangled := r.tangled || exists q :: 0 <= q < |r.s.queues| && t in r.s.queues[q])
  }

  function RawResched(r: Raw): Raw { r.(s := Reschedule(r.s)) }

  function RawMode(r: Raw, t: int, m: Mode): Raw
    requires t in r.s.threads
  {
    r.(s := SetMode(r.s, t, m))
  }

  function RawUnqueue(r: Raw, t: int): Raw
    requires Placed(r, t)
  {
    if Runnable(r.s.threads[t]) then RawDequeue(r, t) else r
  }

  /** Wiping the links of a node tears the list that it is in, unless it is alone there. */
  predicate Torn(list: seq<int>, t: int) { t in list && |list| > 1 }

  /** `vibe_thread_create`, of whatever control block: its nodes are initialised, linked or not. */
  function RawCreate(r: Raw, t: int, priority: nat): Raw
    requires |r.s.queues| == |r.counts| == PRIORITIES
  {
    if priority >= PRIORITIES then r
    else
      var torn := Torn(r.s.sleep, t) || (exists p :: 0 <= p < PRIORITIES && Torn(r.s.queues[p], t))
                  || (exists k :: 0 <= k < |r.s.waits| && Torn(r.s.waits[k], t));
      RawEnqueue(r.(s := Fresh(r.s, t, priority), tangled := r.tangled || torn), t)
  }

  /** `vibe_thread_resume` */
  function RawResume(r: Raw, t: int): Raw
    requires Placed(r, t)
  {
    if !r.s.threads[t].mode.Suspended? then r
    else
      var r1 := RawEnqueue(r, t);
      if r.s.current in r.s.threads && r.s.threads[t].priority > r.s.threads[r.s.current].priority then RawResched(r1)
      else r1
  }

  /** `vibe_thread_delete` */
  function RawDelete(r: Raw, t: int): Raw
    requires Placed(r, t)
  {
    var r1 := RawMode(RawUnqueue(r, t), t, Dead);
    if t == r.s.current then RawResched(r1) else r1
  }

  /** `vibe_thread_suspend` */
  function RawSuspend(r: Raw, t: int): Raw
    requires Placed(r, t)
  {
    if r.s.threads[t].mode.Dead? then r
    else
      var r1 := RawMode(RawUnqueue(r, t), t, Suspended);
      if t == r.s.current then RawResched(r1) else r1
  }

  /** `vibe_thread_yield` */
  function RawYield(r: Raw): Raw
    requires r.s.current == NULL || Placed(r, r.s.current)
  {
    if r.s.current == NULL then r else RawResched(RawEnqueue(RawDequeue(r, r.s.current), r.s.current))
  }

  /** `_vibe_sched_sleep` */
  function RawSleepInsert(r: Raw, t: int, expiry: nat): Raw
    requires t in r.s.threads && Known(r.s)
  {
    r.(s := SleepUntil(r.s, t, expiry), sleepCount := r.sleepCount + 1, tangled := r.tangled || t in r.s.sleep)
  }

  /** `vibe_thread_sleep` */
  function RawSleep(r: Raw, ticks: nat): Raw
    requires (r.s.current == NULL || Placed(r, r.s.current)) && Known(r.s)
  {
    if r.s.current == NULL then r
    else RawResched(RawSleepInsert(RawDequeue(r, r.s.current), r.s.current, r.s.now + ticks))
  }

  /** Into the wait list at position `i`: a node that is in a wait list already gets tangled. */
  function RawWaitAt(r: Raw, t: int, k: nat, i: nat, timeout: nat): Raw
    requires t in r.s.threads && k < |r.s.waits| == |r.waitCounts| && i <= |r.s.waits[k]|
  {
    r.(s := WaitAt(r.s, t, k, i, timeout), waitCounts := r.waitCounts[k := r.waitCounts[k] + 1],
       tangled := r.tangled || exists j :: 0 <= j < |r.s.waits| && t in r.s.waits[j])
  }

  /** The blocking branch of `vibe_sem_take` */
  function RawBlock(r: Raw, k: nat, timeout: nat): Raw
    requires Placed(r, r.s.current) && k < |r.s.waits| == |r.waitCounts|
  {
    RawResched(RawWaitAt(RawDequeue(r, r.s.current), r.s.current, k, |r.s.waits[k]|, timeout))
  }

  /** `vibe_sem_give`, as far as the scheduler goes: `vibe_list_get_head`, enqueue, reschedule */
  function RawGive(r: Raw, k: nat): Raw
    requires k < |r.s.waits| == |r.waitCounts| && (r.s.waits[k] != [] ==> Placed(r, r.s.waits[k][0]))
  {
    if r.s.waits[k] == [] then r
    else
      var r1 := r.(s := TakeWaiter(r.s, k), waitCounts := r.waitCounts[k := r.waitCounts[k] - 1]);
      RawResched(RawEnqueue(r1, r.s.waits[k][0]))
  }

  /** `vibe_thread_restart` */
  function RawRestart(r: Raw, t: int): Raw
    requires Placed(r, t) && r.s.threads[t].base < |r.s.queues|
  {
    var b := r.s.threads[t];
    var r1 := if b.mode.Ready? then RawDequeue(r, t)
              else if b.mode.Sleeping? then
                r.(s := r.s.(sleep := Without(r.s.sleep, t)), sleepCount := r.sleepCount - 1)
              else r;
    RawEnqueue(r1.(s := r1.s.(threads := r1.s.threads[t := b.(priority := b.base, timeout := 0)])), t)
  }

  /** `vibe_thread_set_priority` */
  function RawSetPriority(r: Raw, t: int, priority: nat): Raw
    requires Placed(r, t) && |r.s.queues| == PRIORITIES
  {
    if priority >= PRIORITIES then r
    else if r.s.threads[t].mode.Ready? then
      var r1 := RawDequeue(r, t);
      RawResched(RawEnqueue(r1.(s := Reweigh(r1.s, t, priority)), t))
    else RawResched(r.(s := Reweigh(r.s, t, priority)))
  }

  // ---------- where the calls are admitted they are the model's steps ----------

  lemma OfConsistent(s: Sched)
    requires Struct(s)
    ensures Consistent(Of(s))
    ensures forall t :: t in s.threads ==> Placed(Of(s), t)
    ensures |s.waits| == |Of(s).waitCounts|
  {
    forall t | t in s.threads
      ensures Placed(Of(s), t)
    {
      assert ThreadOk(s, t);
    }
  }

  lemma {:induction false} WithoutLength(q: seq<int>, t: int)
    requires t in q
    ensures |Without(q, t)| == |q| - 1
    decreases |q|
  {
    if q[0] != t {
      assert q == [q[0]] + q[1..];
      WithoutLength(q[1..], t);
    }
  }

  lemma DequeueCounted(r: Raw, t: int)
    requires Counted(r) && Placed(r, t) && t in r.s.queues[r.s.threads[t].priority]
    ensures Counted(RawDequeue(r, t)) && RawDequeue(r, t).s == Dequeue(r.s, t)
  {
    WithoutLength(r.s.queues[r.s.threads[t].priority], t);
  }

  lemma EnqueueCounted(r: Raw, t: int)
    requires Counted(r) && Placed(r, t) && StructBut(r.s, t)
    ensures Counted(RawEnqueue(r, t))
  {
  }

  lemma ReschedCounted(r: Raw)
    ensures Counted(RawResched(r)) <==> Counted(r)
  {
  }

  /**
   What a decision does not repair: the queues, the sleep list and the priorities are as they were,
   and under lock all is.
   */
  lemma ReschedFrame(s: Sched)
    ensures var s' := Reschedule(s);
            && s'.queues == s.queues && s'.sleep == s.sleep && s'.waits == s.waits && s'.threads.Keys == s.threads.Keys
            && (forall t :: t in s.threads ==> s'.threads[t].mode == s.threads[t].mode || Runnable(s'.threads[t]))
            && (forall t :: t in s.threads ==> s'.threads[t].priority == s.threads[t].priority)
            && (forall t :: t in s.threads && Runnable(s.threads[t]) ==> Runnable(s'.threads[t]))
            && (s.lock > 0 ==> s' == s)
  {
  }

  /** The thread is in a list that its mode does not call for. */
  ghost predicate Misfiled(s: Sched, t: int)
  {
    t in s.threads &&
    ((t in s.sleep && !s.threads[t].mode.Sleeping?)
     || (exists k :: 0 <= k < |s.waits| && t in s.waits[k] && s.threads[t].mode != Waiting(k)))
  }

  lemma MisfiledShows(s: Sched, t: int)
    requires Misfiled(s, t)
    ensures !Struct(s) && Misfiled(Reschedule(s), t) && !Struct(Reschedule(s))
  {
    ReschedFrame(s);
    var s' := Reschedule(s);
    if !(t in s.sleep && !s.threads[t].mode.Sleeping?) {
      var k :| 0 <= k < |s.waits| && t in s.waits[k] && s.threads[t].mode != Waiting(k);
      assert !WaitOk(s, k) && !WaitOk(s', k);
    }
  }

  /** A thread that sleeps or waits is in a list, and misfiled as soon as its mode is another. */
  lemma Left(s: Sched, t: int, b: Tcb)
    requires Struct(s) && t in s.threads && !Runnable(s.threads[t]) && !Parked(s.threads[t])
    requires !b.mode.Sleeping? && !b.mode.Waiting?
    ensures Misfiled(s.(threads := s.threads[t := b]), t)
  {
    assert ThreadOk(s, t);
  }

  // ---------- create and resume ----------

  /**
   Creating a thread keeps everything consistent if and only if it is refused, or the control block is
   new, or that of a thread that is in no list.
   */
  lemma CreateExact(s: Sched, t: int, priority: nat)
    requires Inv(s) && t > 0
    ensures |Of(s).s.queues| == |Of(s).counts| == PRIORITIES
    ensures Consistent(RawCreate(Of(s), t, priority)) <==> Allowed(s, Create(t, priority))
    ensures Allowed(s, Create(t, priority)) <==>
              priority >= PRIORITIES || t !in s.threads || s.threads[t].mode.Suspended? || s.threads[t].mode.Dead?
    ensures Allowed(s, Create(t, priority)) ==> RawCreate(Of(s), t, priority).s == Step(s, Create(t, priority))
  {
    OfConsistent(s);
    if priority < PRIORITIES {
      var s1 := Fresh(s, t, priority);
      if t !in s.threads || Parked(s.threads[t]) {
        FreshBut(s, t, priority);
        InNoList(s, s1, t);
        EnqueueCounted(Of(s).(s := s1), t);
        StepInv(s, Create(t, priority));
      } else if Runnable(s.threads[t]) {
        assert ThreadOk(s, t) && t in s1.queues[s.threads[t].priority];
      } else {
        Left(s, t, s1.threads[t].(mode := Ready));
        StillMisfiled(s, t, Enqueue(s1, t));
      }
    }
  }

  /** Nothing is torn by a thread that is in no list. */
  lemma InNoList(s: Sched, s1: Sched, t: int)
    requires StructBut(s1, t) && s1.queues == s.queues && s1.sleep == s.sleep && s1.waits == s.waits
    ensures !Torn(s.sleep, t) && (forall p :: 0 <= p < PRIORITIES ==> !Torn(s.queues[p], t))
    ensures forall k :: 0 <= k < |s.waits| ==> !Torn(s.waits[k], t)
  {
  }

  lemma StillMisfiled(s: Sched, t: int, s': Sched)
    requires t in s.threads && t in s'.threads && s'.sleep == s.sleep && s'.waits == s.waits
    requires Misfiled(s.(threads := s.threads[t := s'.threads[t]]), t)
    ensures Misfiled(s', t) && !Struct(s') && !Struct(Reschedule(s'))
  {
    MisfiledShows(s', t);
  }

  /** Resuming always does. */
  lemma ResumeExact(s: Sched, t: int)
    requires Inv(s) && t in s.threads
    ensures Placed(Of(s), t) && Consistent(RawResume(Of(s), t)) && RawResume(Of(s), t).s == Step(s, Resume(t))
  {
    hide Reschedule;
    OfConsistent(s);
    StepInv(s, Resume(t));
    if s.threads[t].mode.Suspended? {
      DetachParked(s, t);
      EnqueueCounted(Of(s), t);
      ReschedCounted(RawEnqueue(Of(s), t));
    }
  }

  // ---------- delete and suspend ----------

  lemma ParkExact(s: Sched, t: int, m: Mode)
    requires Inv(s) && t in s.threads && t != s.idle && (m.Dead? || m.Suspended?)
    ensures Placed(Of(s), t)
    ensures var r1 := RawMode(RawUnqueue(Of(s), t), t, m);
            var b := s.threads[t];
            && (Runnable(b) || Parked(b) ==> Counted(r1) && r1.s == SetMode(Unqueue(s, t), t, m))
            && (!Runnable(b) && !Parked(b) ==> !Struct(r1.s) && !Struct(Reschedule(r1.s)))
  {
    hide Reschedule;
    OfConsistent(s);
    assert ThreadOk(s, t);
    if Runnable(s.threads[t]) {
      DequeueCounted(Of(s), t);
    } else if !Parked(s.threads[t]) {
      Left(s, t, s.threads[t].(mode := m));
      MisfiledShows(SetMode(s, t, m), t);
    }
  }

  /** Deleting keeps everything consistent if and only if the thread neither sleeps nor waits. */
  lemma DeleteExact(s: Sched, t: int)
    requires Inv(s) && t in s.threads && t != s.idle
    ensures Placed(Of(s), t)
    ensures Consistent(RawDelete(Of(s), t)) <==> Allowed(s, Delete(t))
    ensures Allowed(s, Delete(t)) <==> !s.threads[t].mode.Sleeping? && !s.threads[t].mode.Waiting?
    ensures Allowed(s, Delete(t)) ==> RawDelete(Of(s), t).s == Step(s, Delete(t))
  {
    hide Reschedule, Counted;
    ParkExact(s, t, Dead);
    ReschedCounted(RawMode(RawUnqueue(Of(s), t), t, Dead));
    if Allowed(s, Delete(t)) {
      StepInv(s, Delete(t));
    }
  }

  /** So does suspending. */
  lemma SuspendExact(s: Sched, t: int)
    requires Inv(s) && t in s.threads && t != s.idle
    ensures Placed(Of(s), t)
    ensures Consistent(RawSuspend(Of(s), t)) <==> Allowed(s, Suspend(t))
    ensures Allowed(s, Suspend(t)) <==> !s.threads[t].mode.Sleeping? && !s.threads[t].mode.Waiting?
    ensures Allowed(s, Suspend(t)) ==> RawSuspend(Of(s), t).s == Step(s, Suspend(t))
  {
    hide Reschedule, Counted;
    OfConsistent(s);
    ParkExact(s, t, Suspended);
    ReschedCounted(RawMode(RawUnqueue(Of(s), t), t, Suspended));
    if Allowed(s, Suspend(t)) {
      StepInv(s, Suspend(t));
    }
  }

  // ---------- yield, sleep and block ----------

  /**
   Removing a thread that is in no queue cuts off the queue of its priority: either its counter is
   wrong or the one thread in it is lost.
   */
  lemma CutOff(s: Sched, t: int, r: Raw)
    requires Inv(s) && t in s.threads && !Runnable(s.threads[t]) && Placed(Of(s), t)
    requires var p := s.threads[t].priority;
             && |r.s.queues| == |r.counts| == PRIORITIES && r.counts[p] == |s.queues[p]| - 1 && r.s.queues[p] == []
             && forall u :: u in s.threads && u != t ==> u in r.s.threads && r.s.threads[u] == s.threads[u]
    ensures !Consistent(r)
  {
    var p := s.threads[t].priority;
    assert QueueOk(s, p);
    if |s.queues[p]| == 1 {
      var u := s.queues[p][0];
      assert u in s.queues[p];
      assert u in r.s.threads && Runnable(r.s.threads[u]) && r.s.threads[u].priority == p;
      assert u !in r.s.queues[p];
      LostThread(r.s, u);
    }
  }

  lemma LostThread(s: Sched, u: int)
    requires |s.queues| == PRIORITIES && u in s.threads && Runnable(s.threads[u])
    requires s.threads[u].priority < PRIORITIES && u !in s.queues[s.threads[u].priority]
    ensures !Struct(s)
  {
    assert !ThreadOk(s, u);
  }

  /** While the current thread is in no queue the scheduler is locked. */
  lemma UnqueuedIsLocked(s: Sched)
    requires Inv(s) && s.current != NULL
    ensures s.current in s.threads && Placed(Of(s), s.current)
    ensures !Runnable(s.threads[s.current]) ==>
              s.lock > 0 && forall p :: 0 <= p < PRIORITIES ==> s.current !in s.queues[p]
  {
    OfConsistent(s);
    if !Runnable(s.threads[s.current]) {
      forall p | 0 <= p < PRIORITIES
        ensures s.current !in s.queues[p]
      {
        assert QueueOk(s, p);
      }
    }
  }

  /** Yielding keeps everything consistent if and only if the current thread is in its queue. */
  lemma YieldExact(s: Sched)
    requires Inv(s)
    ensures s.current == NULL || Placed(Of(s), s.current)
    ensures Consistent(RawYield(Of(s))) <==> Allowed(s, Yield)
    ensures Allowed(s, Yield) <==> s.current == NULL || CurrentQueued(s)
    ensures Allowed(s, Yield) ==> RawYield(Of(s)).s == Step(s, Yield)
  {
    hide Reschedule;
    OfConsistent(s);
    if s.current != NULL {
      UnqueuedIsLocked(s);
      var t := s.current;
      var r1 := RawDequeue(Of(s), t);
      var r2 := RawEnqueue(r1, t);
      ReschedCounted(r2);
      if Runnable(s.threads[t]) {
        assert ThreadOk(s, t);
        DequeueCounted(Of(s), t);
        DetachRunnable(s, t);
        EnqueueCounted(r1, t);
        StepInv(s, Yield);
      } else {
        ReschedFrame(r2.s);
        ReplacedQueue(s, t, r2);
      }
    }
  }

  lemma ReplacedQueue(s: Sched, t: int, r: Raw)
    requires Inv(s) && t in s.threads && !Runnable(s.threads[t]) && Placed(Of(s), t)
    requires var p := s.threads[t].priority;
             && |r.s.queues| == |r.counts| == PRIORITIES && r.counts[p] == |s.queues[p]| && r.s.queues[p] == [t]
             && forall u :: u in s.threads && u != t ==> u in r.s.threads && r.s.threads[u] == s.threads[u]
    ensures !Consistent(r)
  {
    var p := s.threads[t].priority;
    assert QueueOk(s, p);
    if |s.queues[p]| == 1 {
      var u := s.queues[p][0];
      assert u in s.queues[p] && u != t;
      LostThread(r.s, u);
    }
  }

  /** So does going to sleep. */
  lemma SleepExact(s: Sched, ticks: nat)
    requires Inv(s) && s.current != s.idle
    ensures (s.current == NULL || Placed(Of(s), s.current)) && Known(s)
    ensures Consistent(RawSleep(Of(s), ticks)) <==> Allowed(s, SleepFor(ticks))
    ensures Allowed(s, SleepFor(ticks)) <==> s.current == NULL || CurrentQueued(s)
    ensures Allowed(s, SleepFor(ticks)) ==> RawSleep(Of(s), ticks).s == Step(s, SleepFor(ticks))
  {
    hide Reschedule, SleepPlace;
    OfConsistent(s);
    SleepersKnown(s, NULL);
    if s.current != NULL {
      UnqueuedIsLocked(s);
      var t := s.current;
      var r1 := RawDequeue(Of(s), t);
      var r2 := RawSleepInsert(r1, t, s.now + ticks);
      ReschedCounted(r2);
      if Runnable(s.threads[t]) {
        assert ThreadOk(s, t);
        DequeueCounted(Of(s), t);
        DetachRunnable(s, t);
        StepInv(s, SleepFor(ticks));
      } else {
        ReschedFrame(r2.s);
        CutOff(s, t, r2);
      }
    }
  }

  /** So does blocking. */
  lemma BlockExact(s: Sched, k: nat, timeout: nat)
    requires Inv(s) && s.current != NULL && s.current != s.idle && k < |s.waits|
    ensures Placed(Of(s), s.current) && |s.waits| == |Of(s).waitCounts|
    ensures Consistent(RawBlock(Of(s), k, timeout)) <==> Allowed(s, Block(k, timeout))
    ensures Allowed(s, Block(k, timeout)) <==> CurrentQueued(s)
    ensures Allowed(s, Block(k, timeout)) ==> RawBlock(Of(s), k, timeout).s == Step(s, Block(k, timeout))
  {
    hide Reschedule;
    OfConsistent(s);
    UnqueuedIsLocked(s);
    var t := s.current;
    var r1 := RawDequeue(Of(s), t);
    var r2 := RawWaitAt(r1, t, k, |s.waits[k]|, timeout);
    ReschedCounted(r2);
    if Runnable(s.threads[t]) {
      assert ThreadOk(s, t);
      DequeueCounted(Of(s), t);
      DetachRunnable(s, t);
      WaitAtCounted(r1, t, k, |s.waits[k]|, timeout);
      StepInv(s, Block(k, timeout));
    } else {
      ReschedFrame(r2.s);
      CutOff(s, t, r2);
    }
  }

  lemma WaitAtCounted(r: Raw, t: int, k: nat, i: nat, timeout: nat)
    requires Counted(r) && t in r.s.threads && k < |r.s.waits| && i <= |r.s.waits[k]| && NotWaiting(r.s, t)
    ensures Counted(RawWaitAt(r, t, k, i, timeout))
  {
  }

  // ---------- give, restart and set_priority ----------

  /** Giving always keeps everything consistent: whoever heads a wait list is in no other. */
  lemma GiveExact(s: Sched, k: nat)
    requires Inv(s) && k < |s.waits|
    ensures |s.waits| == |Of(s).waitCounts| && (s.waits[k] != [] ==> Placed(Of(s), s.waits[k][0]))
    ensures Consistent(RawGive(Of(s), k)) && RawGive(Of(s), k).s == Step(s, Give(k))
  {
    hide Reschedule;
    OfConsistent(s);
    StepInv(s, Give(k));
    if s.waits[k] != [] {
      DetachWaiter(s, k);
      var r := Of(s);
      var r1 := r.(s := TakeWaiter(s, k), waitCounts := r.waitCounts[k := r.waitCounts[k] - 1]);
      EnqueueCounted(r1, s.waits[k][0]);
      ReschedCounted(RawEnqueue(r1, s.waits[k][0]));
    }
  }

  /** Restarting keeps everything consistent if and only if the thread neither is RUNNING nor waits. */
  lemma RestartExact(s: Sched, t: int)
    requires Inv(s) && t in s.threads
    ensures Placed(Of(s), t) && s.threads[t].base < |s.queues|
    ensures Consistent(RawRestart(Of(s), t)) <==> Allowed(s, Restart(t))
    ensures Allowed(s, Restart(t)) <==> !s.threads[t].mode.Running? && !s.threads[t].mode.Waiting?
    ensures Allowed(s, Restart(t)) ==> RawRestart(Of(s), t).s == Step(s, Restart(t))
  {
    OfConsistent(s);
    assert ThreadOk(s, t);
    if s.threads[t].mode.Running? {
      assert t in s.queues[s.threads[t].priority];
    } else if s.threads[t].mode.Waiting? {
      var s' := Relaunch(s, t);
      Left(s, t, s'.threads[t]);
      StillMisfiled(s, t, s');
    } else {
      StepInv(s, Restart(t));
      RestartCounted(s, t);
    }
  }

  lemma RestartCounted(s: Sched, t: int)
    requires Inv(s) && Allowed(s, Restart(t)) && Placed(Of(s), t) && s.threads[t].base < |s.queues|
    ensures Counted(RawRestart(Of(s), t)) && RawRestart(Of(s), t).s == Relaunch(Unlist(s, t), t)
  {
    OfConsistent(s);
    assert ThreadOk(s, t);
    UnlistBut(s, t);
    var r := Of(s);
    var b := s.threads[t];
    var r1 := r;
    if b.mode.Ready? {
      DequeueCounted(r, t);
      r1 := RawDequeue(r, t);
    } else if b.mode.Sleeping? {
      WithoutLength(s.sleep, t);
      r1 := r.(s := s.(sleep := Without(s.sleep, t)), sleepCount := r.sleepCount - 1);
    }
    Rewrite(r1.s, t, b.(priority := b.base, timeout := 0));
    EnqueueCounted(r1.(s := r1.s.(threads := r1.s.threads[t := b.(priority := b.base, timeout := 0)])), t);
  }

  /**
   What comes of it: once the first of a wait list has been restarted, or suspended and resumed, the
   next give links it into a run queue a second time; once it has been deleted, the next give brings
   it back to life.
   */
  lemma GiveAfterMisuse(s: Sched, k: nat)
    requires Inv(s) && k < |s.waits| && s.waits[k] != [] && s.waits[k][0] != s.idle && s.waits[k][0] != s.current
    ensures var t := s.waits[k][0];
            && Placed(Of(s), t) && s.threads[t].base < |s.queues|
            && var restarted, deleted, suspended := RawRestart(Of(s), t), RawDelete(Of(s), t), RawSuspend(Of(s), t);
            && Placed(restarted, t) && Placed(deleted, t) && Placed(suspended, t) && Placed(RawResume(suspended, t), t)
            && restarted.s.waits == deleted.s.waits == RawResume(suspended, t).s.waits == s.waits
            && |restarted.waitCounts| == |deleted.waitCounts| == |RawResume(suspended, t).waitCounts| == |s.waits|
            && !Consistent(RawGive(restarted, k)) && !Consistent(RawGive(RawResume(suspended, t), k))
            && deleted.s.threads[t].mode.Dead? && t in RawGive(deleted, k).s.threads
            && Runnable(RawGive(deleted, k).s.threads[t])
  {
    hide Reschedule;
    OfConsistent(s);
    DetachWaiter(s, k);
    var t := s.waits[k][0];
    assert ThreadOk(s, t);
    var restarted, deleted := RawRestart(Of(s), t), RawDelete(Of(s), t);
    assert t in restarted.s.queues[s.threads[t].base];
    var suspended := RawSuspend(Of(s), t);
    assert suspended.s == SetMode(s, t, Suspended);
    var r1 := RawEnqueue(suspended, t);
    assert t in r1.s.queues[s.threads[t].priority];
    ReschedFrame(r1.s);
    ReschedFrame(Enqueue(TakeWaiter(deleted.s, k), t));
  }

  /**
   Changing a priority keeps everything consistent if and only if the thread is not RUNNING, or the
   priority is refused or the old one.
   */
  lemma SetPriorityExact(s: Sched, t: int, priority: nat)
    requires Inv(s) && t in s.threads
    ensures Placed(Of(s), t) && |s.queues| == PRIORITIES
    ensures Consistent(RawSetPriority(Of(s), t, priority)) <==> Allowed(s, SetPriority(t, priority))
    ensures Allowed(s, SetPriority(t, priority)) <==>
              !s.threads[t].mode.Running? || priority >= PRIORITIES || priority == s.threads[t].priority
    ensures Allowed(s, SetPriority(t, priority)) ==>
              RawSetPriority(Of(s), t, priority).s == Step(s, SetPriority(t, priority))
  {
    hide Reschedule;
    OfConsistent(s);
    assert ThreadOk(s, t);
    if priority < PRIORITIES {
      if s.threads[t].mode.Ready? {
        DequeueCounted(Of(s), t);
        DetachRunnable(s, t);
        var r1 := RawDequeue(Of(s), t);
        Rewrite(r1.s, t, s.threads[t].(priority := priority, base := priority));
        EnqueueCounted(r1.(s := Reweigh(r1.s, t, priority)), t);
        ReschedCounted(RawEnqueue(r1.(s := Reweigh(r1.s, t, priority)), t));
        StepInv(s, SetPriority(t, priority));
      } else {
        var r1 := Of(s).(s := Reweigh(s, t, priority));
        ReschedCounted(r1);
        if s.threads[t].mode.Running? && priority != s.threads[t].priority {
          ReschedFrame(r1.s);
          WrongQueue(Reschedule(r1.s), t, s.threads[t].priority);
        } else {
          StepInv(s, SetPriority(t, priority));
        }
      }
    }
  }

  lemma WrongQueue(s: Sched, t: int, p: nat)
    requires p < |s.queues| == PRIORITIES && t in s.queues[p] && t in s.threads && s.threads[t].priority != p
    ensures !Struct(s)
  {
    assert !QueueOk(s, p);
  }

  // ---------- inputs that fail ----------

  /** Idle thread 1 and thread 2 of priority 5 in the given mode, with thread 2 current exactly if `current` */
  function Two(m: Mode, current: bool, lock: nat): Sched
  {
    Sched(map[1 := Tcb(if current then Ready else Running, 0, 0, 0), 2 := Tcb(m, 5, 5, 7)],
          seq(PRIORITIES, p => if p == 0 then [1] else if p == 5 && (m.Ready? || m.Running?) then [2] else []),
          if m.Sleeping? then [2] else [], [if m.Waiting? then [2] else []], if current then 2 else 1, 1, lock, 0, 3, 3)
  }

  lemma TwoInv(m: Mode, current: bool, lock: nat)
    requires (m.Running? ==> current) && (current && lock == 0 ==> m.Ready? || m.Running?)
    requires m.Waiting? ==> m.on == 0
    ensures Inv(Two(m, current, lock))
  {
    var s := Two(m, current, lock);
    forall p | 0 <= p < PRIORITIES
      ensures QueueOk(s, p)
    {
    }
    forall t | t in s.threads
      ensures ThreadOk(s, t)
    {
      assert t == 1 || t == 2;
    }
  }

  /**
   Each excluded case occurs: a thread that sleeps or waits deleted or suspended, one that waits
   restarted, a running thread restarted, given another priority or created anew, and a current thread
   that has suspended itself under lock and then yields, sleeps or blocks.
   */
  lemma MisuseDamages()
    ensures var asleep, waiting := Two(Sleeping, false, 0), Two(Waiting(0), false, 0);
            && Inv(asleep) && Inv(waiting) && Placed(Of(asleep), 2) && Placed(Of(waiting), 2)
            && !Consistent(RawDelete(Of(asleep), 2)) && !Consistent(RawSuspend(Of(asleep), 2))
            && !Consistent(RawDelete(Of(waiting), 2)) && !Consistent(RawSuspend(Of(waiting), 2))
            && !Consistent(RawRestart(Of(waiting), 2))
    ensures var running, stopped := Two(Running, true, 0), Two(Suspended, true, 1);
            && Inv(running) && Inv(stopped) && Placed(Of(running), 2) && Placed(Of(stopped), 2) && Known(stopped)
            && !Consistent(RawRestart(Of(running), 2)) && !Consistent(RawSetPriority(Of(running), 2, 6))
            && !Consistent(RawCreate(Of(running), 2, 6))
            && !Consistent(RawYield(Of(stopped))) && !Consistent(RawSleep(Of(stopped), 1))
            && |stopped.waits| == |Of(stopped).waitCounts| && !Consistent(RawBlock(Of(stopped), 0, 1))
  {
    hide Inv, Consistent, RawDelete, RawSuspend, RawRestart, RawSetPriority, RawYield, RawSleep, RawBlock, RawCreate;
    var asleep, waiting := Two(Sleeping, false, 0), Two(Waiting(0), false, 0);
    TwoInv(Sleeping, false, 0);
    TwoInv(Waiting(0), false, 0);
    DeleteExact(asleep, 2);
    SuspendExact(asleep, 2);
    DeleteExact(waiting, 2);
    SuspendExact(waiting, 2);
    RestartExact(waiting, 2);
    var running, stopped := Two(Running, true, 0), Two(Suspended, true, 1);
    TwoInv(Running, true, 0);
    TwoInv(Suspended, true, 1);
    RestartExact(running, 2);
    SetPriorityExact(running, 2, 6);
    CreateExact(running, 2, 6);
    YieldExact(stopped);
    SleepExact(stopped, 1);
    BlockExact(stopped, 0, 1);
  }
}
