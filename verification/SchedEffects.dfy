/**
 What each scheduler operation (kernel/thread.c, kernel/sem.c, kernel/init.c) means for each thread:
 the thread it is about gets what was asked for, everyone else is left as they were.
 */
module SchedEffects {
  import opened Seqs
  import opened SchedModel
  import opened SchedRuns
  import opened SchedFairness

  /** The lasting part of a control block is the same, and so is whether the thread can run. */
  ghost predicate Undisturbed(s: Sched, s': Sched, u: int)
    requires u in s.threads
  {
    && u in s'.threads
    && s'.threads[u].priority == s.threads[u].priority && s'.threads[u].base == s.threads[u].base
    && s'.threads[u].timeout == s.threads[u].timeout
    && (s'.threads[u].mode == s.threads[u].mode || (Runnable(s.threads[u]) && Runnable(s'.threads[u])))
  }

  /** The operation is about thread `u`. */
  predicate About(s: Sched, op: Op, u: int)
  {
    match op
    case Start => false
    case Create(t, _) => u == t
    case Delete(t) => u == t
    case Suspend(t) => u == t
    case Resume(t) => u == t
    case SleepFor(_) => u == s.current
    case Yield => u == s.current
    case Restart(t) => u == t
    case SetPriority(t, _) => u == t
    case Block(_, _) => u == s.current
    case Give(k) => k < |s.waits| && s.waits[k] != [] && u == s.waits[k][0]
    case Tick => u in s.sleep && u in s.threads && s.threads[u].timeout <= s.now + 1
    case Lock => false
    case Unlock => false
  }

  /**
   A scheduling decision changes no queue, and no more of a control block than the mode, of a thread
   that then can run.
   */
  lemma DecisionFrame(s: Sched, u: int)
    requires u in s.threads
    ensures Reschedule(s).queues == s.queues && Reschedule(s).sleep == s.sleep
    ensures Reschedule(s).threads.Keys == s.threads.Keys
    ensures Reschedule(s).threads[u] == s.threads[u].(mode := Reschedule(s).threads[u].mode)
    ensures Reschedule(s).threads[u].mode == s.threads[u].mode || Runnable(Reschedule(s).threads[u])
  {
  }

  /** An operation that leaves a thread's block and queue alone leaves it undisturbed, whatever is decided then. */
  lemma LeftAlone(s: Sched, s1: Sched, s': Sched, u: int)
    requires Inv(s) && Inv(s') && u in s.threads && u in s1.threads && s1.threads[u] == s.threads[u]
    requires |s1.queues| == PRIORITIES && s.threads[u].priority < PRIORITIES
    requires u in s1.queues[s.threads[u].priority] ==> u in s.queues[s.threads[u].priority]
    requires s' == s1 || s' == Reschedule(s1)
    ensures Undisturbed(s, s', u)
  {
    hide Reschedule;
    DecisionFrame(s1, u);
    assert ThreadOk(s, u) && ThreadOk(s', u);
    assert QueueOk(s, s.threads[u].priority);
  }

  lemma TickLeaves(s: Sched, u: int)
    requires Inv(s) && u in s.threads && !About(s, Tick, u)
    ensures Undisturbed(s, TickBody(s), u)
  {
    hide WakeExpired;
    SleepersKnown(s, NULL);
    TickStruct(s);
    var s1 := s.(now := s.now + 1);
    WakesExactly(s1);
    assert Woken(s1, WakeExpired(s1), u);
    SliceLeaves(WakeExpired(s1), u);
  }

  lemma SliceLeaves(s: Sched, u: int)
    requires Struct(s) && u in s.threads
    requires s.current in s.threads ==> s.threads[s.current].priority < |s.queues|
    ensures Undisturbed(s, TimesliceTick(s), u)
  {
  }

  lemma TickUndisturbed(s: Sched, u: int)
    requires Inv(s) && u in s.threads && !About(s, Tick, u) && Inv(Step(s, Tick))
    ensures Undisturbed(s, Step(s, Tick), u)
  {
    hide Reschedule, TickBody;
    TickBodyOk(s);
    TickLeaves(s, u);
    var s1 := TickBody(s);
    DecisionFrame(s1, u);
    assert ThreadOk(Step(s, Tick), u) && ThreadOk(s1, u);
    assert QueueOk(s1, s1.threads[u].priority);
  }

  /** An operation leaves every thread undisturbed that it is not about. */
  lemma OthersUndisturbed(s: Sched, op: Op, u: int)
    requires Inv(s) && Allowed(s, op) && u in s.threads && !About(s, op, u)
    ensures Undisturbed(s, Step(s, op), u)
  {
    hide Reschedule, TickBody, Next;
    StepInv(s, op);
    assert ThreadOk(s, u);
    if op.Start? {
      NextIsTop(s);
    } else if op.Tick? {
      TickUndisturbed(s, u);
    } else {
      PreparedLeaves(s, op, u);
      hide Prepared;
      LeftAlone(s, Prepared(s, op), Step(s, op), u);
    }
  }

  lemma PreparedLeaves(s: Sched, op: Op, u: int)
    requires Inv(s) && Allowed(s, op) && u in s.threads && !About(s, op, u) && !op.Start? && !op.Tick?
    ensures var s1 := Prepared(s, op);
            && u in s1.threads && s1.threads[u] == s.threads[u] && |s1.queues| == PRIORITIES
            && forall p :: 0 <= p < PRIORITIES && u in s1.queues[p] ==> u in s.queues[p]
  {
    hide SleepPlace;
    forall p, t | 0 <= p < PRIORITIES
      ensures u in Without(s.queues[p], t) ==> u in s.queues[p]
    {
      WithoutSubset(s.queues[p], t, u);
    }
    if op.Delete? || op.Suspend? || op.Resume? || op.Restart? || op.SetPriority? {
      assert ThreadOk(s, op.t);
    } else if op.Block? || ((op.Yield? || op.SleepFor?) && s.current != NULL) {
      assert ThreadOk(s, s.current);
    } else if op.Give? && s.waits[op.k] != [] {
      DetachWaiter(s, op.k);
    }
  }

  /** The queue has lost `t`, if it was there, and may have got it again, at its tail. */
  predicate TailOnly(q: seq<int>, q': seq<int>, t: int)
  {
    q' == q || q' == Without(q, t) || q' == q + [t] || q' == Without(q, t) + [t]
  }

  /**
   In every operation but a tick each run queue stays as it is but for one thread, which the operation is
   about, and which leaves it or comes to its tail; nobody else changes places.
   */
  lemma NewcomersAtTail(s: Sched, op: Op, p: nat)
    requires Inv(s) && Allowed(s, op) && p < PRIORITIES && !op.Tick?
    ensures |Step(s, op).queues| == PRIORITIES
    ensures Step(s, op).queues[p] == s.queues[p] ||
            exists t :: About(s, op, t) && TailOnly(s.queues[p], Step(s, op).queues[p], t)
  {
    hide SleepPlace, Without, Reschedule;
    PreparedQueues(s, op, p);
    if !op.Start? {
      DecisionQueues(Prepared(s, op));
    }
  }

  lemma DecisionQueues(s: Sched)
    ensures Reschedule(s).queues == s.queues
  {
  }

  predicate TailAfter(s: Sched, s': Sched, p: nat, t: int)
    requires p < |s.queues|
  {
    |s'.queues| == |s.queues| && TailOnly(s.queues[p], s'.queues[p], t)
  }

  lemma PreparedQueues(s: Sched, op: Op, p: nat)
    requires Inv(s) && Allowed(s, op) && p < PRIORITIES && !op.Tick?
    ensures |s.queues| == PRIORITIES
    ensures Prepared(s, op).queues == s.queues || exists t :: About(s, op, t) && TailAfter(s, Prepared(s, op), p, t)
  {
    hide SleepPlace, Without, About;
    if op.Create? || op.Delete? || op.Suspend? || op.Resume? || op.Restart? || op.SetPriority? {
      NamedTail(s, op, p);
    } else if op.Block? || ((op.Yield? || op.SleepFor?) && s.current != NULL) {
      assert ThreadOk(s, s.current);
      assert TailAfter(s, Prepared(s, op), p, s.current);
      AboutCurrent(s, op);
    } else if op.Give? && s.waits[op.k] != [] {
      DetachWaiter(s, op.k);
      assert TailAfter(s, Prepared(s, op), p, s.waits[op.k][0]);
      AboutCurrent(s, op);
    }
  }

  lemma AboutCurrent(s: Sched, op: Op)
    ensures op.Block? || op.Yield? || op.SleepFor? ==> About(s, op, s.current)
    ensures op.Give? && op.k < |s.waits| && s.waits[op.k] != [] ==> About(s, op, s.waits[op.k][0])
  {
  }

  lemma NamedTail(s: Sched, op: Op, p: nat)
    requires Inv(s) && Allowed(s, op) && p < PRIORITIES
    requires op.Create? || op.Delete? || op.Suspend? || op.Resume? || op.Restart? || op.SetPriority?
    ensures |s.queues| == PRIORITIES && About(s, op, op.t) && TailAfter(s, Prepared(s, op), p, op.t)
  {
    hide Without;
    assert op.t in s.threads ==> ThreadOk(s, op.t);
  }

  // ---------- waiting ----------

  /** What an operation does to wait list `k` */
  function Waited(s: Sched, op: Op, k: nat): seq<int>
    requires k < |s.waits|
  {
    if op.Block? && op.k == k then s.waits[k] + [s.current]
    else if op.Give? && op.k == k && s.waits[k] != [] then s.waits[k][1..]
    else s.waits[k]
  }

  lemma WaitsStep(s: Sched, op: Op, k: nat)
    requires Inv(s) && Allowed(s, op) && k < |s.waits|
    ensures |Step(s, op).waits| == |s.waits| && Step(s, op).waits[k] == Waited(s, op, k)
  {
    hide Reschedule, SleepPlace, TickBody, Without, Next;
    PreparedOk(s, op);
    RescheduleInv(Prepared(s, op));
    if op.Tick? {
      TickKeepsWaits(s);
    } else if op.Block? {
      assert ThreadOk(s, s.current);
      AwaitAppends(Dequeue(s, s.current), s.current, op.k, op.timeout);
    }
  }

  lemma TickKeepsWaits(s: Sched)
    requires Inv(s)
    ensures TickBody(s).waits == s.waits
  {
    hide WakeExpired;
    SleepersKnown(s, NULL);
    TickStruct(s);
    WakesExactly(s.(now := s.now + 1));
  }

  function Gives(ops: seq<Op>, k: nat): nat
    decreases |ops|
  {
    if ops == [] then 0 else (if ops[0] == Give(k) then 1 else 0) + Gives(ops[1..], k)
  }

  /**
   The timeout of a wait has no effect: over every run, however many ticks it holds, the thread with
   `i` others in front of it goes on waiting through `i` gives, and moves up by one with each.
   */
  lemma {:induction false} TimedWaitNeverEnds(s: Sched, ops: seq<Op>, k: nat, i: nat)
    requires Inv(s) && ValidRun(s, ops) && k < |s.waits| && i < |s.waits[k]| && Gives(ops, k) <= i
    ensures var s' := Run(s, ops);
            var t, j := s.waits[k][i], i - Gives(ops, k);
            && Inv(s') && k < |s'.waits| && j < |s'.waits[k]| && s'.waits[k][j] == t
            && t in s'.threads && s'.threads[t].mode == Waiting(k)
    decreases |ops|
  {
    hide Step;
    if ops == [] {
      assert WaitOk(s, k) && s.waits[k][i] in s.waits[k];
    } else {
      StepInv(s, ops[0]);
      WaitsStep(s, ops[0], k);
      TimedWaitNeverEnds(Step(s, ops[0]), ops[1..], k, if ops[0] == Give(k) then i - 1 else i);
    }
  }

  /** And the give after that, and nothing else, makes it runnable. */
  lemma TurnComes(s: Sched, ops: seq<Op>, k: nat, i: nat)
    requires Inv(s) && ValidRun(s, ops) && k < |s.waits| && i < |s.waits[k]| && Gives(ops, k) == i
    ensures var s', t := Run(s, ops), s.waits[k][i];
            && Inv(s') && k < |s'.waits|
            && t in Step(s', Give(k)).threads && Runnable(Step(s', Give(k)).threads[t])
  {
    hide Step;
    TimedWaitNeverEnds(s, ops, k, i);
    ThreadGetsWhatWasAsked(Run(s, ops), Give(k));
  }

  // ---------- the thread itself ----------

  /** The current thread is READY, at the tail of its queue. */
  ghost predicate Yielded(s: Sched, s': Sched)
  {
    && s.current in s.threads && s.current in s'.threads && s'.threads[s.current].mode == Ready
    && var p := s.threads[s.current].priority;
    && p < |s.queues| == |s'.queues| && s'.queues == s.queues[p := Without(s.queues[p], s.current) + [s.current]]
  }

  /** The thread gets what was asked for; where it is queued then follows from its mode. */
  ghost predicate Granted(s: Sched, op: Op, s': Sched)
    requires Inv(s) && Allowed(s, op)
  {
    match op
    case Create(t, priority) =>
      if priority < PRIORITIES then t in s'.threads && s'.threads[t] == Tcb(Ready, priority, priority, 0) else s' == s
    case Delete(t) => t in s'.threads && s'.threads[t].mode == Dead
    case Suspend(t) => if s.threads[t].mode.Dead? then s' == s else t in s'.threads && s'.threads[t].mode == Suspended
    case Resume(t) => if s.threads[t].mode.Suspended? then t in s'.threads && Runnable(s'.threads[t]) else s' == s
    case SleepFor(ticks) =>
      s.current != NULL ==>
        && s.current in s'.threads && s'.threads[s.current].mode == Sleeping
        && s'.threads[s.current].timeout == s.now + ticks
    case Yield => s.current != NULL ==> Yielded(s, s')
    case SetPriority(t, priority) =>
      if priority < PRIORITIES then t in s'.threads && s'.threads[t].priority == s'.threads[t].base == priority
      else s' == s
    case Restart(t) => t in s'.threads && s'.threads[t] == Tcb(Ready, s.threads[t].base, s.threads[t].base, 0)
    case Block(k, timeout) =>
      && s.current in s'.threads && s'.threads[s.current].mode == Waiting(k)
      && s'.threads[s.current].timeout == timeout
    case Give(k) => s.waits[k] != [] ==> s.waits[k][0] in s'.threads && Runnable(s'.threads[s.waits[k][0]])
    case _ => true
  }

  /** A thread that was taken out of every queue does not get to run by the decision that follows. */
  lemma StaysOut(s: Sched, s': Sched, t: int)
    requires Inv(s') && s' == Reschedule(s) && t in s.threads && s.threads[t].priority < |s.queues|
    requires t !in s.queues[s.threads[t].priority]
    ensures t in s'.threads && s'.threads[t] == s.threads[t]
  {
    hide Reschedule;
    DecisionFrame(s, t);
    assert ThreadOk(s', t);
  }

  lemma ParkGranted(s: Sched, op: Op)
    requires Inv(s) && Allowed(s, op) && (op.Delete? || op.Suspend? || op.Block?) && Inv(Step(s, op))
    ensures Granted(s, op, Step(s, op))
  {
    hide Reschedule;
    var t := if op.Block? then s.current else op.t;
    assert ThreadOk(s, t);
    var s1 := Prepared(s, op);
    if op.Block? {
      DetachRunnable(s, t);
      StaysOut(s1, Step(s, op), t);
    } else if op.Delete? || !s.threads[t].mode.Dead? {
      UnqueueBut(s, t);
      if t == s.current {
        StaysOut(s1, Step(s, op), t);
      }
    }
  }

  lemma SleepGranted(s: Sched, ticks: nat)
    requires Inv(s) && Allowed(s, SleepFor(ticks)) && Inv(Step(s, SleepFor(ticks)))
    ensures Granted(s, SleepFor(ticks), Step(s, SleepFor(ticks)))
  {
    hide Reschedule, SleepPlace;
    if s.current != NULL {
      DetachRunnable(s, s.current);
      var s1 := Dequeue(s, s.current);
      SleepersKnown(s1, s.current);
      StaysOut(SleepUntil(s1, s.current, s.now + ticks), Step(s, SleepFor(ticks)), s.current);
    }
  }

  lemma ReadyGranted(s: Sched, op: Op)
    requires Inv(s) && Allowed(s, op) && (op.Resume? || op.SetPriority?)
    ensures Granted(s, op, Step(s, op))
  {
    hide Reschedule;
    assert ThreadOk(s, op.t);
    DecisionFrame(Prepared(s, op), op.t);
  }

  lemma GiveGranted(s: Sched, k: nat)
    requires Inv(s) && Allowed(s, Give(k))
    ensures Granted(s, Give(k), Step(s, Give(k)))
  {
    hide Reschedule;
    if s.waits[k] != [] {
      DetachWaiter(s, k);
      DecisionFrame(Prepared(s, Give(k)), s.waits[k][0]);
    }
  }

  lemma YieldGranted(s: Sched)
    requires Inv(s) && Allowed(s, Yield)
    ensures s.current != NULL ==> Yielded(s, Step(s, Yield))
  {
    hide Next;
    if s.current != NULL {
      assert ThreadOk(s, s.current);
      DecisionFrame(Prepared(s, Yield), s.current);
    }
  }

  /** Every operation does to its thread what its caller asked for. */
  lemma ThreadGetsWhatWasAsked(s: Sched, op: Op)
    requires Inv(s) && Allowed(s, op)
    ensures Granted(s, op, Step(s, op))
  {
    StepInv(s, op);
    if op.SleepFor? {
      SleepGranted(s, op.ticks);
    } else if op.Delete? || op.Suspend? || op.Block? {
      ParkGranted(s, op);
    } else if op.Resume? || op.SetPriority? {
      ReadyGranted(s, op);
    } else if op.Give? {
      GiveGranted(s, op.k);
    } else if op.Yield? {
      YieldGranted(s);
    } else if op.Restart? {
      assert ThreadOk(s, op.t);
    }
  }

  // ---------- how long a sleep lasts ----------

  /** Under ticks alone a sleeper is asleep after n of them exactly as long as they have not reached its expiry. */
  lemma {:induction false} SleepsUntilExpiry(s: Sched, t: int, n: nat)
    requires Inv(s) && t in s.sleep
    ensures var s' := Ticks(s, n);
            && t in s.threads && t in s'.threads && s'.now == s.now + n
            && (t in s'.sleep <==> n == 0 || s.now + n < s.threads[t].timeout)
            && (t in s'.sleep ==> s'.threads[t].timeout == s.threads[t].timeout)
  {
    hide Reschedule, TickBody;
    assert ThreadOk(s, t);
    if n > 0 {
      SleepsUntilExpiry(s, t, n - 1);
      var s1 := Ticks(s, n - 1);
      TickBodyOk(s1);
      DecisionFrame(TickBody(s1), TickBody(s1).idle);
      DecisionClock(TickBody(s1));
      if t in s1.sleep {
        TickWakesOnTime(s1, t);
      } else {
        StepInv(s1, Tick);
        TickKeepsThreads(s1);
      }
    }
  }

  lemma DecisionClock(s: Sched)
    ensures Reschedule(s).now == s.now
  {
  }

  lemma TickKeepsThreads(s: Sched)
    requires Inv(s)
    ensures Step(s, Tick).threads.Keys == s.threads.Keys
  {
    hide WakeExpired, TimesliceTick, Reschedule;
    SleepersKnown(s, NULL);
    TickStruct(s);
    var s1 := s.(now := s.now + 1);
    WakesExactly(s1);
    TimesliceStruct(WakeExpired(s1));
    TickBodyOk(s);
    RescheduleInv(TickBody(s));
  }

  /**
   So a thread that goes to sleep for d > 0 ticks is asleep for exactly the d - 1 ticks before the
   one that wakes it.
   */
  lemma SleepLastsAsAsked(s: Sched, ticks: nat, n: nat)
    requires Inv(s) && Allowed(s, SleepFor(ticks)) && s.current != NULL
    ensures var s1 := Step(s, SleepFor(ticks));
            && Inv(s1) && (s.current in Ticks(s1, n).sleep <==> n == 0 || n < ticks)
  {
    hide Reschedule, Step;
    var s1 := Step(s, SleepFor(ticks));
    StepInv(s, SleepFor(ticks));
    ThreadGetsWhatWasAsked(s, SleepFor(ticks));
    SleepKeepsClock(s, ticks);
    assert ThreadOk(s1, s.current);
    SleepsUntilExpiry(s1, s.current, n);
  }

  lemma SleepKeepsClock(s: Sched, ticks: nat)
    requires Inv(s) && Allowed(s, SleepFor(ticks))
    ensures Step(s, SleepFor(ticks)).now == s.now
  {
    hide SleepPlace;
  }
}
