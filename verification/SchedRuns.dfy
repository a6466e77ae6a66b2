/**
 The thread operations (kernel/thread.c), waiting and hand-off (kernel/sem.c) and the system tick
 (kernel/init.c) over the scheduler, and what every run of them keeps.
 */
module SchedRuns {
  import opened Seqs
  import opened SchedModel

  datatype Op =
    | Start
    | Create(t: int, priority: nat)
    | Delete(t: int)
    | Suspend(t: int)
    | Resume(t: int)
    | SleepFor(ticks: nat)
    | Yield
    | Restart(t: int)
    | SetPriority(t: int, priority: nat)
    | Block(k: nat, timeout: nat)   // semaphore take without a token: wait on list `k`
    | Give(k: nat)                  // semaphore give: hand the token to the first of list `k`, if any
    | Tick
    | Lock
    | Unlock

  /** The thread is in no list. */
  predicate Parked(b: Tcb) { b.mode.Suspended? || b.mode.Dead? }

  /**
   The calls that keep the lists and control blocks consistent.  For those on one thread, module
   SchedMisuse shows that the condition here is exact: every other such call damages them.
   */
  predicate Allowed(s: Sched, op: Op)
  {
    match op
    case Start => s.current == NULL
    case Create(t, priority) => t > 0 && (priority < PRIORITIES && t in s.threads ==> Parked(s.threads[t]))
    case Delete(t) => t in s.threads && t != s.idle && (Runnable(s.threads[t]) || Parked(s.threads[t]))
    case Suspend(t) => t in s.threads && t != s.idle && (Runnable(s.threads[t]) || Parked(s.threads[t]))
    case Resume(t) => t in s.threads
    case SleepFor(_) => s.current == NULL || (s.current != s.idle && CurrentQueued(s))
    case Yield => s.current == NULL || CurrentQueued(s)
    case Restart(t) => t in s.threads && !s.threads[t].mode.Running? && !s.threads[t].mode.Waiting?
    case SetPriority(t, priority) =>
      t in s.threads && (s.threads[t].mode.Running? && priority < PRIORITIES ==> priority == s.threads[t].priority)
    case Block(k, _) => k < |s.waits| && s.current != s.idle && CurrentQueued(s)
    case Give(k) => k < |s.waits|
    case Tick => true
    case Lock => true
    case Unlock => true
  }

  /** The current thread has not blocked, deleted or suspended itself, as it can while the scheduler is locked. */
  predicate CurrentQueued(s: Sched)
  {
    s.current in s.threads && Runnable(s.threads[s.current])
  }

  /** `vibe_thread_create`, before the thread is enqueued */
  function Fresh(s: Sched, t: int, priority: nat): Sched
  {
    s.(threads := s.threads[t := Tcb(Suspended, priority, priority, 0)])
  }

  /** Take a thread out of the run queue it is in, if it is in one. */
  function Unqueue(s: Sched, t: int): Sched
    requires t in s.threads && s.threads[t].priority < |s.queues|
  {
    if Runnable(s.threads[t]) then Dequeue(s, t) else s
  }

  /** The start of `vibe_thread_restart`: out of the list that a thread is in that neither runs nor waits */
  function Unlist(s: Sched, t: int): Sched
    requires t in s.threads && s.threads[t].priority < |s.queues|
  {
    if s.threads[t].mode.Ready? then Dequeue(s, t)
    else if s.threads[t].mode.Sleeping? then s.(sleep := Without(s.sleep, t))
    else s
  }

  /** The end of `vibe_thread_restart` */
  function Relaunch(s: Sched, t: int): Sched
    requires t in s.threads && s.threads[t].base < |s.queues|
  {
    var b := s.threads[t];
    Enqueue(s.(threads := s.threads[t := b.(priority := b.base, timeout := 0)]), t)
  }

  function Reweigh(s: Sched, t: int, priority: nat): Sched
    requires t in s.threads
  {
    s.(threads := s.threads[t := s.threads[t].(priority := priority, base := priority)])
  }

  /** The blocking part of `vibe_sem_take`, out of the run queue */
  function Await(s: Sched, t: int, k: nat, timeout: nat): Sched
    requires t in s.threads && k < |s.waits|
  {
    WaitAt(s, t, k, |s.waits[k]|, timeout)
  }

  lemma AwaitAppends(s: Sched, t: int, k: nat, timeout: nat)
    requires t in s.threads && k < |s.waits|
    ensures Await(s, t, k, timeout).waits == s.waits[k := s.waits[k] + [t]]
  {
    var n := |s.waits[k]|;
    assert s.waits[k][..n] + [t] + s.waits[k][n..] == s.waits[k] + [t];
  }

  /** `_vibe_sys_tick_handler`, without software timers, up to the final reschedule */
  function TickBody(s: Sched): Sched
    requires Struct(s)
  {
    SleepersKnown(s, NULL);
    var s1 := s.(now := s.now + 1);
    var s2 := WakeExpired(s1);
    TickStruct(s);
    TimesliceTick(s2)
  }

  /** Operations that end in a scheduling decision */
  predicate Decides(s: Sched, op: Op)
  {
    match op
    case Start => false
    case Create(_, _) => false
    case Delete(t) => t == s.current
    case Suspend(t) => t == s.current && t in s.threads && !s.threads[t].mode.Dead?
    case Resume(t) =>
      && t in s.threads && s.threads[t].mode.Suspended? && s.current in s.threads
      && s.threads[t].priority > s.threads[s.current].priority
    case SleepFor(_) => s.current != NULL
    case Yield => s.current != NULL
    case Restart(_) => false
    case SetPriority(_, priority) => priority < PRIORITIES
    case Block(_, _) => true
    case Give(k) => k < |s.waits| && s.waits[k] != []
    case Tick => true
    case Lock => false
    case Unlock => s.lock <= 1
  }

  /** What an operation does before that decision */
  function Prepared(s: Sched, op: Op): Sched
    requires Inv(s) && Allowed(s, op)
  {
    match op
    case Start =>
      NextIsTop(s);
      SetMode(s.(current := Next(s)), Next(s), Running)
    case Create(t, priority) =>
      if priority >= PRIORITIES then s else Enqueue(Fresh(s, t, priority), t)
    case Delete(t) =>
      assert ThreadOk(s, t);
      SetMode(Unqueue(s, t), t, Dead)
    case Suspend(t) =>
      assert ThreadOk(s, t);
      if s.threads[t].mode.Dead? then s else SetMode(Unqueue(s, t), t, Suspended)
    case Resume(t) =>
      assert ThreadOk(s, t);
      if s.threads[t].mode.Suspended? then Enqueue(s, t) else s
    case SleepFor(ticks) =>
      if s.current == NULL then s
      else
        DetachRunnable(s, s.current);
        SleepersKnown(Dequeue(s, s.current), s.current);
        SleepUntil(Dequeue(s, s.current), s.current, s.now + ticks)
    case Yield =>
      if s.current == NULL then s
      else
        assert ThreadOk(s, s.current);
        Enqueue(Dequeue(s, s.current), s.current)
    case Restart(t) =>
      assert ThreadOk(s, t);
      Relaunch(Unlist(s, t), t)
    case SetPriority(t, priority) =>
      assert ThreadOk(s, t);
      if priority >= PRIORITIES then s
      else if s.threads[t].mode.Ready? then Enqueue(Reweigh(Dequeue(s, t), t, priority), t)
      else Reweigh(s, t, priority)
    case Block(k, timeout) =>
      assert ThreadOk(s, s.current);
      Await(Dequeue(s, s.current), s.current, k, timeout)
    case Give(k) =>
      if s.waits[k] == [] then s
      else
        DetachWaiter(s, k);
        Enqueue(TakeWaiter(s, k), s.waits[k][0])
    case Tick => TickBody(s)
    case Lock => s.(lock := s.lock + 1)
    case Unlock => s.(lock := if s.lock > 0 then s.lock - 1 else 0)
  }

  function Step(s: Sched, op: Op): Sched
    requires Inv(s) && Allowed(s, op)
  {
    if Decides(s, op) then Reschedule(Prepared(s, op)) else Prepared(s, op)
  }

  // ---------- each operation keeps the invariant ----------

  lemma TickStruct(s: Sched)
    requires Struct(s)
    ensures var s1 := s.(now := s.now + 1);
            && Struct(s1) && Known(s1)
            && var s2 := WakeExpired(s1);
            && Struct(s2)
            && (s2.current in s2.threads ==> s2.threads[s2.current].priority < |s2.queues|)
  {
    var s1 := s.(now := s.now + 1);
    forall q | 0 <= q < PRIORITIES
      ensures QueueOk(s1, q)
    {
      assert QueueOk(s, q);
    }
    forall t | t in s1.threads
      ensures ThreadOk(s1, t)
    {
      assert ThreadOk(s, t);
    }
    SleepKept(s, s1);
    WaitsUnchanged(s, s1);
    SleepersKnown(s1, NULL);
    WakesExactly(s1);
    var s2 := WakeExpired(s1);
    assert s2.current in s2.threads ==> ThreadOk(s2, s2.current);
  }

  lemma TimesliceStruct(s: Sched)
    requires Struct(s)
    ensures s.current in s.threads ==> s.threads[s.current].priority < |s.queues|
    ensures Struct(TimesliceTick(s))
    ensures TimesliceTick(s).sleep == s.sleep && TimesliceTick(s).now == s.now
    ensures TimesliceTick(s).threads.Keys == s.threads.Keys
    ensures forall t :: t in s.threads ==>
              && Runnable(TimesliceTick(s).threads[t]) == Runnable(s.threads[t])
              && TimesliceTick(s).threads[t].timeout == s.threads[t].timeout
  {
    if s.current in s.threads {
      assert ThreadOk(s, s.current);
      var s1 := s.(slice := s.period);
      SliceStruct(s, s.period);
      if s.threads[s.current].mode.Running? {
        if s.slice > 1 {
          SliceStruct(s, s.slice - 1);
        } else if |s.queues[s.threads[s.current].priority]| > 1 {
          DetachRunnable(s1, s.current);
          AttachRunnable(Dequeue(s1, s.current), s.current);
        }
      }
    }
  }

  lemma SliceStruct(s: Sched, slice: nat)
    requires Struct(s) && 1 <= slice <= s.period
    ensures Struct(s.(slice := slice))
  {
    var s1 := s.(slice := slice);
    forall q | 0 <= q < PRIORITIES
      ensures QueueOk(s1, q)
    {
      assert QueueOk(s, q);
    }
    forall t | t in s1.threads
      ensures ThreadOk(s1, t)
    {
      assert ThreadOk(s, t);
    }
    SleepKept(s, s1);
    WaitsUnchanged(s, s1);
  }

  /** Before the final reschedule of a tick everyone who is due is awake. */
  lemma TickBodyOk(s: Sched)
    requires Inv(s)
    ensures var s' := TickBody(s);
            && Struct(s') && IdleReady(s') && Punctual(s') && s'.now == s.now + 1 && s'.lock == s.lock
            && s'.current == s.current
            && (forall t :: t in s'.sleep <==> t in s.sleep && s.now + 1 < s.threads[t].timeout)
  {
    hide WakeExpired, TimesliceTick;
    SleepersKnown(s, NULL);
    TickStruct(s);
    var s1 := s.(now := s.now + 1);
    WakesExactly(s1);
    var s2 := WakeExpired(s1);
    assert Woken(s1, s2, s.idle);
    TimesliceStruct(s2);
    TimesliceFrame(s2);
    forall t | t in s2.sleep
      ensures t in s2.threads && s2.threads[t].timeout == s.threads[t].timeout
    {
      assert Woken(s1, s2, t);
    }
  }

  lemma TimesliceFrame(s: Sched)
    requires Struct(s) && (s.current in s.threads ==> s.threads[s.current].priority < |s.queues|)
    ensures TimesliceTick(s).idle == s.idle && TimesliceTick(s).lock == s.lock && TimesliceTick(s).current == s.current
  {
  }

  /** A state with the same threads and wait lists */
  lemma WaitsUnchanged(s: Sched, s': Sched)
    requires WaitsOk(s) && s'.waits == s.waits
    requires forall t :: t in s.threads && s.threads[t].mode.Waiting? ==>
               t in s'.threads && s'.threads[t].mode == s.threads[t].mode
    ensures WaitsOk(s')
  {
    forall k | 0 <= k < |s'.waits|
      ensures WaitOk(s', k)
    {
      assert WaitOk(s, k);
    }
  }

  /** Lists and control blocks agree, and the idle thread can run, whichever thread is current. */
  ghost predicate Settled(s: Sched)
  {
    Struct(s) && IdleReady(s) && Punctual(s)
  }

  lemma StartInv(s: Sched)
    requires Inv(s) && s.current == NULL
    ensures Inv(Prepared(s, Start))
  {
    NextIsTop(s);
    SwitchStruct(s, Next(s));
    assert NULL in s.threads ==> ThreadOk(s, NULL);
  }

  /** A new control block, or one of a thread that is in no list, made anew */
  lemma FreshBut(s: Sched, t: int, priority: nat)
    requires Struct(s) && t > 0 && (t in s.threads ==> Parked(s.threads[t])) && priority < PRIORITIES
    ensures StructBut(Fresh(s, t, priority), t)
  {
    var s1 := Fresh(s, t, priority);
    forall q | 0 <= q < PRIORITIES
      ensures QueueOk(s1, q) && t !in s1.queues[q]
    {
      assert QueueOk(s, q);
    }
    forall u | u in s1.threads && u != t
      ensures ThreadOk(s1, u)
    {
      assert ThreadOk(s, u);
    }
    assert t in s.threads ==> ThreadOk(s, t);
    SleepKept(s, s1);
    NobodyWaits(s, t);
    WaitsKept(s, s1, t);
  }

  lemma CreateOk(s: Sched, t: int, priority: nat)
    requires Inv(s) && Allowed(s, Create(t, priority)) && priority < PRIORITIES
    ensures Inv(Prepared(s, Create(t, priority)))
  {
    FreshBut(s, t, priority);
    AttachRunnable(Fresh(s, t, priority), t);
    assert ThreadOk(s, s.idle);
  }

  lemma UnqueueBut(s: Sched, t: int)
    requires Struct(s) && t in s.threads && (Runnable(s.threads[t]) || Parked(s.threads[t]))
    ensures s.threads[t].priority < |s.queues|
    ensures StructBut(Unqueue(s, t), t)
  {
    assert ThreadOk(s, t);
    if Runnable(s.threads[t]) {
      DetachRunnable(s, t);
    } else {
      DetachParked(s, t);
    }
  }

  lemma ParkOk(s: Sched, t: int, m: Mode)
    requires Inv(s) && t in s.threads && t != s.idle && (Runnable(s.threads[t]) || Parked(s.threads[t]))
    requires (m.Dead? || m.Suspended?) && s.threads[t].priority < |s.queues|
    ensures Settled(SetMode(Unqueue(s, t), t, m))
  {
    UnqueueBut(s, t);
    Park(Unqueue(s, t), t, s.threads[t].(mode := m));
  }

  lemma ResumeOk(s: Sched, t: int)
    requires Inv(s) && t in s.threads
    ensures Inv(Prepared(s, Resume(t)))
  {
    assert ThreadOk(s, t);
    if s.threads[t].mode.Suspended? {
      DetachParked(s, t);
      AttachRunnable(s, t);
    }
  }

  lemma SleepForOk(s: Sched, ticks: nat)
    requires Inv(s) && Allowed(s, SleepFor(ticks)) && s.current != NULL
    ensures Settled(Prepared(s, SleepFor(ticks)))
  {
    hide SleepPlace;
    DetachRunnable(s, s.current);
    var s1 := Dequeue(s, s.current);
    AttachSleeper(s1, s.current, s.now + ticks);
    var s2 := SleepUntil(s1, s.current, s.now + ticks);
    forall t | t in s2.sleep && t in s2.threads
      ensures s2.now <= s2.threads[t].timeout
    {
      assert t == s.current || t in s.sleep;
    }
  }

  lemma YieldOk(s: Sched)
    requires Inv(s) && Allowed(s, Yield) && s.current != NULL
    ensures Settled(Prepared(s, Yield))
  {
    DetachRunnable(s, s.current);
    AttachRunnable(Dequeue(s, s.current), s.current);
  }

  /** A thread that neither runs nor waits, out of the list that it is in */
  lemma UnlistBut(s: Sched, t: int)
    requires Struct(s) && t in s.threads && !s.threads[t].mode.Running? && !s.threads[t].mode.Waiting?
    ensures s.threads[t].priority < |s.queues| && s.threads[t].base < |s.queues|
    ensures StructBut(Unlist(s, t), t)
    ensures forall u :: u in Unlist(s, t).sleep ==> u in s.sleep
  {
    assert ThreadOk(s, t);
    if s.threads[t].mode.Ready? {
      DetachRunnable(s, t);
    } else if s.threads[t].mode.Sleeping? {
      DetachSleeper(s, t);
      WithoutMembers(s.sleep, t);
    } else {
      DetachParked(s, t);
    }
  }

  lemma RestartOk(s: Sched, t: int)
    requires Inv(s) && Allowed(s, Restart(t))
    ensures Inv(Prepared(s, Restart(t)))
  {
    hide Unlist;
    UnlistBut(s, t);
    UnlistFrame(s, t);
    var s1 := Unlist(s, t);
    var b := s.threads[t].(priority := s.threads[t].base, timeout := 0);
    Rewrite(s1, t, b);
    AttachRunnable(s1.(threads := s1.threads[t := b]), t);
  }

  lemma UnlistFrame(s: Sched, t: int)
    requires t in s.threads && s.threads[t].priority < |s.queues|
    ensures Unlist(s, t) == s.(queues := Unlist(s, t).queues, sleep := Unlist(s, t).sleep)
    ensures |Unlist(s, t).queues| == |s.queues|
  {
  }

  /** A thread that is in no run queue may change priority in place; others, to what it was. */
  lemma ReweighInPlace(s: Sched, t: int, priority: nat)
    requires Struct(s) && t in s.threads && priority < PRIORITIES
    requires Runnable(s.threads[t]) ==> priority == s.threads[t].priority
    ensures Struct(Reweigh(s, t, priority))
  {
    var s' := Reweigh(s, t, priority);
    forall q | 0 <= q < PRIORITIES
      ensures QueueOk(s', q)
    {
      assert QueueOk(s, q);
    }
    forall u | u in s'.threads
      ensures ThreadOk(s', u)
    {
      assert ThreadOk(s, u);
    }
    SleepKept(s, s');
    WaitsUnchanged(s, s');
  }

  lemma SetPriorityOk(s: Sched, t: int, priority: nat)
    requires Inv(s) && Allowed(s, SetPriority(t, priority)) && priority < PRIORITIES
    ensures Settled(Prepared(s, SetPriority(t, priority)))
  {
    assert ThreadOk(s, t);
    if s.threads[t].mode.Ready? {
      DetachRunnable(s, t);
      var s1 := Dequeue(s, t);
      Rewrite(s1, t, s.threads[t].(priority := priority, base := priority));
      AttachRunnable(Reweigh(s1, t, priority), t);
    } else {
      ReweighInPlace(s, t, priority);
    }
  }

  lemma BlockOk(s: Sched, k: nat, timeout: nat)
    requires Inv(s) && Allowed(s, Block(k, timeout))
    ensures Settled(Prepared(s, Block(k, timeout)))
  {
    var t := s.current;
    DetachRunnable(s, t);
    AttachWaiter(Dequeue(s, t), t, k, |s.waits[k]|, timeout);
  }

  lemma GiveOk(s: Sched, k: nat)
    requires Inv(s) && k < |s.waits|
    ensures Settled(Prepared(s, Give(k)))
  {
    if s.waits[k] != [] {
      DetachWaiter(s, k);
      AttachRunnable(TakeWaiter(s, k), s.waits[k][0]);
    }
  }

  lemma LockOk(s: Sched, l: nat)
    requires Inv(s)
    ensures Settled(s.(lock := l))
  {
    var s' := s.(lock := l);
    forall q | 0 <= q < PRIORITIES
      ensures QueueOk(s', q)
    {
      assert QueueOk(s, q);
    }
    forall t | t in s'.threads
      ensures ThreadOk(s', t)
    {
      assert ThreadOk(s, t);
    }
    SleepKept(s, s');
    WaitsUnchanged(s, s');
  }

  /** Whatever an operation has done by then, lists and control blocks agree when the decision is made. */
  lemma PreparedOk(s: Sched, op: Op)
    requires Inv(s) && Allowed(s, op)
    ensures Settled(Prepared(s, op))
    ensures !Decides(s, op) ==> Inv(Prepared(s, op))
  {
    hide Next, SleepPlace, TickBody, Unlist;
    match op
    case Start => StartInv(s);
    case Create(t, priority) =>
      if priority < PRIORITIES {
        CreateOk(s, t, priority);
      }
    case Delete(t) =>
      assert ThreadOk(s, t);
      ParkOk(s, t, Dead);
    case Suspend(t) =>
      assert ThreadOk(s, t);
      if !s.threads[t].mode.Dead? {
        ParkOk(s, t, Suspended);
      }
    case Resume(t) => ResumeOk(s, t);
    case SleepFor(ticks) =>
      if s.current != NULL {
        SleepForOk(s, ticks);
      }
    case Yield =>
      if s.current != NULL {
        YieldOk(s);
      }
    case Restart(t) => RestartOk(s, t);
    case SetPriority(t, priority) =>
      if priority < PRIORITIES {
        SetPriorityOk(s, t, priority);
      }
    case Block(k, timeout) => BlockOk(s, k, timeout);
    case Give(k) => GiveOk(s, k);
    case Tick => TickBodyOk(s);
    case Lock => LockOk(s, s.lock + 1);
    case Unlock => LockOk(s, if s.lock > 0 then s.lock - 1 else 0);
  }

  /** Every admitted operation keeps the scheduler invariant. */
  lemma StepInv(s: Sched, op: Op)
    requires Inv(s) && Allowed(s, op)
    ensures Inv(Step(s, op))
  {
    hide Prepared;
    PreparedOk(s, op);
    RescheduleInv(Prepared(s, op));
  }

  // ---------- runs ----------

  /** After boot, with `n` wait lists: the idle thread is queued and nothing runs yet. */
  function Boot(idle: int, period: nat, n: nat): Sched
  {
    Sched(map[idle := Tcb(Ready, 0, 0, 0)], seq(PRIORITIES, p => if p == 0 then [idle] else []), [],
          seq(n, _ => []), NULL, idle, 0, 0, period, period)
  }

  lemma BootInv(idle: int, period: nat, n: nat)
    requires idle > 0 && period > 0
    ensures Inv(Boot(idle, period, n))
    ensures var s := Boot(idle, period, n);
            && s.threads.Keys == {idle} && s.threads[idle] == Tcb(Ready, 0, 0, 0)
            && s.current == NULL && s.lock == 0 && s.now == 0 && s.slice == s.period == period && |s.waits| == n
  {
    var s := Boot(idle, period, n);
    forall p | 0 <= p < PRIORITIES
      ensures QueueOk(s, p)
    {
    }
    assert ThreadOk(s, idle);
  }

  ghost predicate ValidRun(s: Sched, ops: seq<Op>)
    requires Inv(s)
    decreases |ops|
  {
    ops != [] ==> Allowed(s, ops[0]) && (StepInv(s, ops[0]); ValidRun(Step(s, ops[0]), ops[1..]))
  }

  ghost function Run(s: Sched, ops: seq<Op>): Sched
    requires Inv(s) && ValidRun(s, ops)
    decreases |ops|
  {
    if ops == [] then s else (StepInv(s, ops[0]); Run(Step(s, ops[0]), ops[1..]))
  }

  /** Over every run of admitted operations the lists and control blocks stay consistent. */
  lemma {:induction false} RunInv(s: Sched, ops: seq<Op>)
    requires Inv(s) && ValidRun(s, ops)
    ensures Inv(Run(s, ops))
    decreases |ops|
  {
    if ops != [] {
      StepInv(s, ops[0]);
      RunInv(Step(s, ops[0]), ops[1..]);
    }
  }

  /**
   What consistency means for one thread: it is in a run queue exactly when it can run, then only in
   that of its priority; in the sleep list exactly when it sleeps; and in a wait list exactly when it
   waits there.
   */
  lemma QueuedExactlyWhenRunnable(s: Sched, t: int, p: nat)
    requires Inv(s) && t in s.threads && p < PRIORITIES
    ensures t in s.queues[p] <==> Runnable(s.threads[t]) && p == s.threads[t].priority
    ensures t in s.sleep <==> s.threads[t].mode.Sleeping?
    ensures forall k :: 0 <= k < |s.waits| ==> (t in s.waits[k] <==> s.threads[t].mode == Waiting(k))
  {
    assert ThreadOk(s, t) && QueueOk(s, p);
    forall k | 0 <= k < |s.waits|
      ensures t in s.waits[k] <==> s.threads[t].mode == Waiting(k)
    {
      assert WaitOk(s, k);
    }
  }

  // ---------- who runs ----------

  /**
   After a decision with preemption on, the current thread heads the highest non-empty queue: no
   runnable thread outranks it.
   */
  ghost predicate TopRuns(s: Sched)
  {
    && s.current in s.threads && Runnable(s.threads[s.current])
    && s.threads[s.current].priority < |s.queues|
    && s.queues[s.threads[s.current].priority] != [] && s.queues[s.threads[s.current].priority][0] == s.current
    && forall t :: t in s.threads && Runnable(s.threads[t]) ==> s.threads[t].priority <= s.threads[s.current].priority
  }

  lemma TopRunsAfterReschedule(s: Sched)
    requires Settled(s) && s.lock == 0
    ensures TopRuns(Reschedule(s))
  {
    hide Next;
    RescheduleInv(s);
    NextIsTop(Reschedule(s));
  }

  /** Every operation that decides with preemption on leaves the top thread current; so does the start. */
  lemma DecisionPicksTop(s: Sched, op: Op)
    requires Inv(s) && Allowed(s, op) && (Decides(s, op) || op.Start?) && Step(s, op).lock == 0
    ensures TopRuns(Step(s, op))
  {
    hide Next;
    if op.Start? {
      StartTop(s);
    } else {
      hide Prepared, Reschedule;
      PreparedOk(s, op);
      DecisionKeepsLock(Prepared(s, op));
      TopRunsAfterReschedule(Prepared(s, op));
    }
  }

  lemma DecisionKeepsLock(s: Sched)
    ensures Reschedule(s).lock == s.lock
  {
  }

  lemma StartTop(s: Sched)
    requires Inv(s) && s.current == NULL && s.lock == 0
    ensures TopRuns(Step(s, Start))
  {
    NextIsTop(s);
  }

  /** While the scheduler is locked the current thread does not change. */
  lemma LockFreezesCurrent(s: Sched, op: Op)
    requires Inv(s) && Allowed(s, op) && s.lock > 0 && Step(s, op).lock > 0 && s.current != NULL
    ensures Step(s, op).current == s.current
  {
    hide WakeExpired;
    if op.Tick? {
      TickBodyOk(s);
    }
  }

  // ---------- sleeping ----------

  /** At each tick exactly the sleepers whose expiry is reached become ready; the others sleep on. */
  lemma TickWakesOnTime(s: Sched, t: int)
    requires Inv(s) && t in s.sleep
    ensures t in s.threads && t in Step(s, Tick).threads
    ensures s.threads[t].timeout <= s.now + 1 ==> Runnable(Step(s, Tick).threads[t]) && t !in Step(s, Tick).sleep
    ensures s.threads[t].timeout > s.now + 1 ==>
            t in Step(s, Tick).sleep && Step(s, Tick).threads[t].timeout == s.threads[t].timeout
  {
    hide Reschedule, TickBody;
    TickBodyOk(s);
    RescheduleInv(TickBody(s));
    SleeperThroughTick(s, t);
    DecisionKeeps(TickBody(s), t);
  }

  /** A decision changes nothing of a thread but its mode, and makes no runnable thread unable to run. */
  lemma DecisionKeeps(s: Sched, t: int)
    requires t in s.threads
    ensures t in Reschedule(s).threads && Reschedule(s).threads[t].timeout == s.threads[t].timeout
    ensures Runnable(s.threads[t]) ==> Runnable(Reschedule(s).threads[t])
  {
  }

  lemma SleeperThroughTick(s: Sched, t: int)
    requires Inv(s) && t in s.sleep
    ensures t in s.threads && t in TickBody(s).threads
    ensures s.threads[t].timeout <= s.now + 1 ==> Runnable(TickBody(s).threads[t])
    ensures TickBody(s).threads[t].timeout == s.threads[t].timeout
    ensures TickBody(s).threads[t].priority == s.threads[t].priority
  {
    hide WakeExpired;
    SleepersKnown(s, NULL);
    TickStruct(s);
    var s1 := s.(now := s.now + 1);
    WakesExactly(s1);
    assert Woken(s1, WakeExpired(s1), t);
    TimesliceStruct(WakeExpired(s1));
  }

  /** Sleepers with the same expiry leave in the order they came: a newcomer goes behind every one of them. */
  lemma SleepersAreFifo(s: Sched, t: int, expiry: nat, j: nat)
    requires StructBut(s, t) && t in s.threads && Known(s) && j < |s.sleep|
    ensures var s' := SleepUntil(s, t, expiry);
            var i := SleepPlace(s, expiry, 0);
            && s'.sleep[i] == t && |s'.sleep| == |s.sleep| + 1
            && (s.threads[s.sleep[j]].timeout <= expiry <==> j < i)
            && s.sleep[j] == s'.sleep[if j < i then j else j + 1]
  {
    var i := SleepPlace(s, expiry, 0);
    if i < j {
      assert InOrder(s, i, j);
    }
  }
}
