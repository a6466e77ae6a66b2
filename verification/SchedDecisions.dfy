/**
 Who runs after each operation, and what the scheduler lock does (kernel/sched.c, kernel/thread.c,
 kernel/sem.c), stated by what callers see: priorities, modes and the nesting of lock and unlock.
 */
module SchedDecisions {
  import opened Seqs
  import opened SchedModel
  import opened SchedRuns

  // ---------- the lock count ----------

  /** Lock adds one, unlock takes one off unless there is none, and nothing else changes the count. */
  lemma LockCounts(s: Sched, op: Op)
    requires Inv(s) && Allowed(s, op)
    ensures Step(s, op).lock ==
              if op.Lock? then s.lock + 1 else if op.Unlock? && s.lock > 0 then s.lock - 1 else s.lock
    ensures op.Lock? ==> Step(s, op) == s.(lock := s.lock + 1)
  {
    hide Reschedule, SleepPlace, TickBody, Next;
    DecisionKeepsLock(Prepared(s, op));
    if op.Tick? {
      TickBodyOk(s);
    }
  }

  /** The depth after a run of operations that starts at depth `d` */
  function Depth(d: nat, ops: seq<Op>): nat
    decreases |ops|
  {
    if ops == [] then d
    else
      var e := match ops[0] case Lock => d + 1 case Unlock => (if d > 0 then d - 1 else 0) case _ => d;
      Depth(e, ops[1..])
  }

  /** The run stays inside the lock that it starts in. */
  predicate Inside(d: nat, ops: seq<Op>)
    decreases |ops|
  {
    d > 0 &&
    (ops != [] ==>
       var e := match ops[0] case Lock => d + 1 case Unlock => d - 1 case _ => d;
       Inside(e, ops[1..]))
  }

  /** However lock and unlock nest, whoever holds the processor keeps it through a run inside the outermost lock. */
  lemma {:induction false} LockedRun(s: Sched, ops: seq<Op>)
    requires Inv(s) && ValidRun(s, ops) && Inside(s.lock, ops) && s.current != NULL
    ensures Run(s, ops).lock == Depth(s.lock, ops) > 0 && Run(s, ops).current == s.current
    decreases |ops|
  {
    if ops != [] {
      StepInv(s, ops[0]);
      LockCounts(s, ops[0]);
      hide Step;
      var s' := Step(s, ops[0]);
      StillInside(s'.lock, ops[1..]);
      LockFreezesCurrent(s, ops[0]);
      LockedRun(s', ops[1..]);
    }
  }

  lemma StillInside(d: nat, ops: seq<Op>)
    requires Inside(d, ops)
    ensures d > 0
  {
  }

  /**
   From an outermost lock to the unlock that matches it the current thread is the same; after that
   unlock, the head of the highest non-empty queue is.
   */
  lemma LockedSection(s: Sched, ops: seq<Op>)
    requires Inv(s) && s.lock == 0 && s.current != NULL && ValidRun(s, [Lock] + ops)
    requires Inside(1, ops) && Depth(1, ops) == 1
    ensures var s' := Run(s, [Lock] + ops);
            && Inv(s') && s'.current == s.current && s'.lock == 1
            && Step(s', Unlock).lock == 0 && TopRuns(Step(s', Unlock))
  {
    assert ([Lock] + ops)[0] == Lock && ([Lock] + ops)[1..] == ops;
    StepInv(s, Lock);
    LockCounts(s, Lock);
    LockedRun(Step(s, Lock), ops);
    RunInv(s, [Lock] + ops);
    var s' := Run(s, [Lock] + ops);
    LockCounts(s', Unlock);
    UnlockPicksTop(s');
  }

  // ---------- after which operations the top thread runs ----------

  /** The last unlock lets the top thread run, whoever was current and however the queues changed meanwhile. */
  lemma UnlockPicksTop(s: Sched)
    requires Inv(s) && s.lock <= 1
    ensures TopRuns(Step(s, Unlock))
  {
    hide Reschedule, Next;
    LockCounts(s, Unlock);
    DecisionPicksTop(s, Unlock);
  }

  /** What can make another thread the top one */
  predicate Rearranges(s: Sched, op: Op)
  {
    match op
    case Delete(t) => t == s.current
    case Suspend(t) => t == s.current && t in s.threads && !s.threads[t].mode.Dead?
    case Resume(t) =>
      && t in s.threads && s.threads[t].mode.Suspended?
      && s.current in s.threads && s.threads[s.current].priority < s.threads[t].priority
    case SleepFor(_) => s.current != NULL
    case Yield => s.current != NULL
    case SetPriority(_, priority) => priority < PRIORITIES
    case Block(_, _) => true
    case Give(k) => k < |s.waits| && s.waits[k] != []
    case Tick => true
    case _ => false
  }

  /**
   With preemption on, the top thread runs after a resume of a thread that outranks the current one, a
   give to a waiter, a change of priority, a sleep, a yield, a wait, a tick, and the end of the current
   thread; and whoever is new on the processor is RUNNING.
   */
  lemma OperationPicksTop(s: Sched, op: Op)
    requires Inv(s) && Allowed(s, op) && s.lock == 0 && Rearranges(s, op)
    ensures TopRuns(Step(s, op))
    ensures Step(s, op).current != s.current ==> Step(s, op).threads[Step(s, op).current].mode == Running
  {
    hide Reschedule, Next, Prepared;
    LockCounts(s, op);
    DecisionPicksTop(s, op);
    PreparedOk(s, op);
    KeepsCurrent(s, op);
    NewcomerRuns(Prepared(s, op));
  }

  lemma KeepsCurrent(s: Sched, op: Op)
    requires Inv(s) && Allowed(s, op) && !op.Start?
    ensures Prepared(s, op).current == s.current
  {
    hide SleepPlace, TickBody;
    if op.Tick? {
      TickBodyOk(s);
    }
  }

  lemma NewcomerRuns(s: Sched)
    requires Settled(s)
    ensures Reschedule(s).current != s.current ==>
              Reschedule(s).current in Reschedule(s).threads
              && Reschedule(s).threads[Reschedule(s).current].mode == Running
  {
    hide Next;
  }

  /** The first thread is the top one, and RUNNING. */
  lemma StartRunsTop(s: Sched)
    requires Inv(s) && s.current == NULL
    ensures TopRuns(Step(s, Start)) && Step(s, Start).threads[Step(s, Start).current].mode == Running
  {
    NextIsTop(s);
  }

  // ---------- who waits although it outranks the current thread ----------

  /**
   The calls that leave a thread waiting that should run: creating or restarting one that outranks the
   current thread, or restarting the current thread, READY as it may be, to a priority or place behind
   another.
   */
  ghost predicate LeavesOutranked(s: Sched, op: Op)
    requires s.current in s.threads
  {
    match op
    case Create(t, priority) => priority < PRIORITIES && s.threads[s.current].priority < priority
    case Restart(t) =>
      t in s.threads &&
      if t != s.current then s.threads[s.current].priority < s.threads[t].base
      else exists u :: u in s.threads && u != t && Runnable(s.threads[u]) && s.threads[t].base <= s.threads[u].priority
    case _ => false
  }

  lemma HeadKept(q: seq<int>, t: int)
    requires q != [] && q[0] != t
    ensures Without(q, t) != [] && Without(q, t)[0] == q[0]
  {
  }

  /** A thread other than the current one leaves or joins a run queue; that one stays at the head of its own. */
  lemma HeadStays(s: Sched, s': Sched, p: nat, t: int)
    requires p < |s.queues| == |s'.queues| && s.queues[p] != [] && s.queues[p][0] != t
    requires s'.queues[p] in {s.queues[p], s.queues[p] + [t], Without(s.queues[p], t), Without(s.queues[p], t) + [t]}
    ensures s'.queues[p] != [] && s'.queues[p][0] == s.queues[p][0]
  {
    HeadKept(s.queues[p], t);
  }

  /** Creating a thread */
  lemma CreateTop(s: Sched, t: int, priority: nat)
    requires Inv(s) && Allowed(s, Create(t, priority)) && TopRuns(s) && priority < PRIORITIES
    ensures TopRuns(Step(s, Create(t, priority))) <==> priority <= s.threads[s.current].priority
  {
    var s', p := Step(s, Create(t, priority)), s.threads[s.current].priority;
    assert t in s'.threads && s'.threads[t].priority == priority && Runnable(s'.threads[t]);
    HeadStays(s, s', p, t);
    assert forall u :: u in s.threads && u != t ==> s'.threads[u] == s.threads[u];
  }

  /** Restarting a thread other than the current one */
  lemma RestartTop(s: Sched, t: int)
    requires Inv(s) && Allowed(s, Restart(t)) && TopRuns(s) && t != s.current
    ensures TopRuns(Step(s, Restart(t))) <==> s.threads[t].base <= s.threads[s.current].priority
  {
    var s', p := Step(s, Restart(t)), s.threads[s.current].priority;
    assert ThreadOk(s, t);
    assert t in s'.threads && s'.threads[t].priority == s.threads[t].base && Runnable(s'.threads[t]);
    HeadStays(s, s', p, t);
    assert forall u :: u in s.threads && u != t ==> s'.threads[u] == s.threads[u];
  }

  /** Restarting the current thread, which a yield may have left READY */
  lemma RestartSelfTop(s: Sched)
    requires Inv(s) && Allowed(s, Restart(s.current)) && TopRuns(s)
    ensures TopRuns(Step(s, Restart(s.current))) <==> !LeavesOutranked(s, Restart(s.current))
  {
    var t := s.current;
    var s', b := Step(s, Restart(t)), s.threads[t].base;
    assert ThreadOk(s, t);
    StepInv(s, Restart(t));
    assert s'.current == t && s'.threads[t].priority == b && Runnable(s'.threads[t]);
    assert forall u :: u in s.threads && u != t ==> s'.threads[u] == s.threads[u];
    var rest := if b == s.threads[t].priority then Without(s.queues[b], t) else s.queues[b];
    assert s'.queues[b] == rest + [t];
    assert QueueOk(s', b);
    if rest != [] {
      var u := rest[0];
      assert u == s'.queues[b][0] && u in s'.queues[b] && s'.queues[b][|rest|] == t && u != t;
    } else {
      forall u | u in s.threads && u != t && Runnable(s.threads[u])
        ensures s.threads[u].priority != b
      {
        assert ThreadOk(s', u);
      }
    }
  }

  /** Another thread that is deleted or suspended */
  lemma ParkTop(s: Sched, op: Op)
    requires Inv(s) && Allowed(s, op) && TopRuns(s) && (op.Delete? || op.Suspend?) && op.t != s.current
    ensures TopRuns(Step(s, op))
  {
    var s', p := Step(s, op), s.threads[s.current].priority;
    assert ThreadOk(s, op.t);
    HeadStays(s, s', p, op.t);
  }

  lemma ResumeTop(s: Sched, t: int)
    requires Inv(s) && Allowed(s, Resume(t)) && TopRuns(s) && !Rearranges(s, Resume(t))
    ensures TopRuns(Step(s, Resume(t)))
  {
    var s', p := Step(s, Resume(t)), s.threads[s.current].priority;
    assert ThreadOk(s, t);
    if s.threads[t].mode.Suspended? {
      HeadStays(s, s', p, t);
    }
  }

  /**
   With preemption on, once the top thread runs, the top thread runs after every operation, except exactly
   those that leave an outranked thread on the processor: creating or restarting a thread makes no
   scheduling decision.
   */
  lemma TopStays(s: Sched, op: Op)
    requires Inv(s) && Allowed(s, op) && s.lock == 0 && TopRuns(s)
    ensures TopRuns(Step(s, op)) <==> !LeavesOutranked(s, op)
  {
    assert ThreadOk(s, s.current);
    if Rearranges(s, op) {
      OperationPicksTop(s, op);
    } else {
      match op
      case Create(t, priority) =>
        if priority < PRIORITIES {
          CreateTop(s, t, priority);
        }
      case Restart(t) =>
        if t == s.current {
          RestartSelfTop(s);
        } else {
          RestartTop(s, t);
        }
      case Delete(t) => ParkTop(s, op);
      case Suspend(t) =>
        if t != s.current {
          ParkTop(s, op);
        }
      case Resume(t) => ResumeTop(s, t);
      case Unlock => UnlockPicksTop(s);
      case Lock => LockCounts(s, op);
      case _ =>
    }
  }

  // ---------- the clock and the slice ----------

  /**
   Ticks alone move the clock and the time slice, and the slice only while the current thread is RUNNING;
   whoever takes over in between goes on with what is left of the slice.
   */
  lemma SliceGoesOn(s: Sched, op: Op)
    requires Inv(s) && Allowed(s, op)
    ensures var s' := Step(s, op);
            && s'.period == s.period && s'.idle == s.idle && s'.now == s.now + (if op.Tick? then 1 else 0)
            && s'.slice ==
               if !op.Tick? || s.current !in s.threads || !s.threads[s.current].mode.Running? then s.slice
               else if s.slice > 1 then s.slice - 1 else s.period
  {
    hide Next, SleepPlace, TickBody, Reschedule, Without;
    PreparedOk(s, op);
    DecisionClocks(Prepared(s, op));
    if op.Tick? {
      TickClocks(s);
    }
  }

  lemma DecisionClocks(s: Sched)
    ensures var s' := Reschedule(s);
            s'.period == s.period && s'.idle == s.idle && s'.now == s.now && s'.slice == s.slice
  {
    hide Next;
  }

  lemma TickClocks(s: Sched)
    requires Inv(s)
    ensures var s' := TickBody(s);
            && s'.period == s.period && s'.idle == s.idle && s'.now == s.now + 1
            && s'.slice ==
               if s.current !in s.threads || !s.threads[s.current].mode.Running? then s.slice
               else if s.slice > 1 then s.slice - 1 else s.period
  {
    hide WakeExpired;
    SleepersKnown(s, NULL);
    TickStruct(s);
    var s1 := s.(now := s.now + 1);
    WakesExactly(s1);
    if s.current in s.threads {
      assert ThreadOk(s, s.current) && Woken(s1, WakeExpired(s1), s.current);
    }
  }

  // ---------- the order of waking ----------

  /** Those of a list who are due and go to run queue `p`, in order */
  function DueIn(s: Sched, list: seq<int>, p: nat): seq<int>
    requires forall j :: 0 <= j < |list| ==> list[j] in s.threads
  {
    if list == [] then []
    else
      var b := s.threads[list[0]];
      (if b.timeout <= s.now && b.priority == p then [list[0]] else []) + DueIn(s, list[1..], p)
  }

  lemma {:induction false} DueSame(s: Sched, s': Sched, list: seq<int>, p: nat)
    requires forall j :: 0 <= j < |list| ==> list[j] in s.threads && list[j] in s'.threads
    requires forall j :: 0 <= j < |list| ==>
               s'.threads[list[j]].timeout == s.threads[list[j]].timeout
               && s'.threads[list[j]].priority == s.threads[list[j]].priority
    requires s'.now == s.now
    ensures DueIn(s', list, p) == DueIn(s, list, p)
  {
    if list != [] {
      DueSame(s, s', list[1..], p);
    }
  }

  lemma {:induction false} NoneDue(s: Sched, list: seq<int>, p: nat)
    requires forall j :: 0 <= j < |list| ==> list[j] in s.threads && s.now < s.threads[list[j]].timeout
    ensures DueIn(s, list, p) == []
  {
    if list != [] {
      NoneDue(s, list[1..], p);
    }
  }

  /** Those who are woken together join their run queues in the order of the sleep list, behind who is there. */
  lemma {:induction false} WokenInOrder(s: Sched, p: nat)
    requires Struct(s) && Known(s) && p < PRIORITIES
    ensures |WakeExpired(s).queues| == PRIORITIES && WakeExpired(s).queues[p] == s.queues[p] + DueIn(s, s.sleep, p)
    decreases |s.sleep|
  {
    if s.sleep == [] || s.threads[s.sleep[0]].timeout > s.now {
      NobodyDue(s, p);
      assert s.queues[p] + [] == s.queues[p];
    } else {
      var t := s.sleep[0];
      WakeFirst(s);
      var s2 := Enqueue(s.(sleep := s.sleep[1..]), t);
      SleepersKnown(s2, NULL);
      WokenInOrder(s2, p);
      assert WakeExpired(s) == WakeExpired(s2);
      FirstDue(s, s2, p);
    }
  }

  lemma NobodyDue(s: Sched, p: nat)
    requires Struct(s) && Known(s)
    requires s.sleep == [] || s.threads[s.sleep[0]].timeout > s.now
    ensures DueIn(s, s.sleep, p) == []
  {
    forall j | 0 <= j < |s.sleep|
      ensures s.now < s.threads[s.sleep[j]].timeout
    {
      if j > 0 {
        assert InOrder(s, 0, j);
      }
    }
    NoneDue(s, s.sleep, p);
  }

  lemma FirstDue(s: Sched, s2: Sched, p: nat)
    requires Known(s) && s.sleep != [] && s.threads[s.sleep[0]].timeout <= s.now
    requires s2 == Enqueue(s.(sleep := s.sleep[1..]), s.sleep[0]) && p < |s.queues|
    ensures Known(s2) && p < |s2.queues|
    ensures s2.queues[p] + DueIn(s2, s2.sleep, p) == s.queues[p] + DueIn(s, s.sleep, p)
  {
    RestKnown(s, s2);
    hide Known, Enqueue, DueIn;
    DueSame(s, s2, s2.sleep, p);
    FrontDue(s, s.sleep, p);
    var first := if s.threads[s.sleep[0]].priority == p then [s.sleep[0]] else [];
    assert s2.queues[p] == s.queues[p] + first by {
      TailGets(s, s2, p);
    }
    Regrouped(s.queues[p], first, DueIn(s, s2.sleep, p));
  }

  lemma Regrouped(a: seq<int>, b: seq<int>, c: seq<int>)
    ensures a + (b + c) == a + b + c
  {
  }

  lemma FrontDue(s: Sched, list: seq<int>, p: nat)
    requires forall j :: 0 <= j < |list| ==> list[j] in s.threads
    requires list != [] && s.threads[list[0]].timeout <= s.now
    ensures DueIn(s, list, p) ==
              (if s.threads[list[0]].priority == p then [list[0]] else []) + DueIn(s, list[1..], p)
  {
  }

  lemma TailGets(s: Sched, s2: Sched, p: nat)
    requires s.sleep != [] && s.sleep[0] in s.threads && s.threads[s.sleep[0]].priority < |s.queues|
    requires s2 == Enqueue(s.(sleep := s.sleep[1..]), s.sleep[0]) && p < |s.queues|
    ensures p < |s2.queues|
    ensures s2.queues[p] == s.queues[p] + if s.threads[s.sleep[0]].priority == p then [s.sleep[0]] else []
  {
  }

  lemma RestKnown(s: Sched, s2: Sched)
    requires Known(s) && s.sleep != [] && s2 == Enqueue(s.(sleep := s.sleep[1..]), s.sleep[0])
    ensures Known(s2) && s2.sleep == s.sleep[1..] && |s2.queues| == |s.queues| && s2.now == s.now
    ensures s.sleep[0] in s.threads && s.threads[s.sleep[0]].priority < |s.queues|
    ensures forall j :: 0 <= j < |s.sleep| ==> s.sleep[j] in s.threads
    ensures forall j {:trigger s2.sleep[j]} :: 0 <= j < |s2.sleep| ==>
              && s2.sleep[j] in s.threads && s2.sleep[j] in s2.threads
              && s2.threads[s2.sleep[j]].timeout == s.threads[s2.sleep[j]].timeout
              && s2.threads[s2.sleep[j]].priority == s.threads[s2.sleep[j]].priority
  {
    forall j | 0 <= j < |s2.sleep|
      ensures s2.sleep[j] in s.threads
    {
      assert s2.sleep[j] == s.sleep[j + 1];
    }
  }
}
