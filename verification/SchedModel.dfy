/**
 The priority scheduler (kernel/sched.c, kernel/thread.c and the tick handler of kernel/init.c) as
 a value: run queues, sleep list, wait lists, thread control blocks, current thread and lock count.
 Threads are positive numbers; 0 is NULL.
 */
module SchedModel {
  import opened Seqs

  const NULL := 0
  const PRIORITIES := 32

  /** The state of a thread; for one that waits, also which wait list it is in, which the code keeps in no field. */
  datatype Mode = Ready | Running | Suspended | Sleeping | Waiting(on: nat) | Dead

  datatype Tcb = Tcb(mode: Mode, priority: nat, base: nat, timeout: nat)

  datatype Sched = Sched(
    threads: map<int, Tcb>,
    queues: seq<seq<int>>,     // g_run_queues
    sleep: seq<int>,           // g_sleep_list
    waits: seq<seq<int>>,      // the wait lists of semaphores and mutexes
    current: int,              // g_current_thread
    idle: int,                 // g_idle_thread
    lock: nat,                 // g_sched_lock_count
    now: nat,                  // g_tick_count
    slice: nat,                // slice_left
    period: nat)               // ticks in a full time slice

  predicate Runnable(b: Tcb) { b.mode.Ready? || b.mode.Running? }

  // ---------- invariants ----------

  /** A run queue holds runnable threads of its priority, each once. */
  ghost predicate QueueOk(s: Sched, p: nat)
    requires p < |s.queues|
  {
    && NoDup(s.queues[p])
    && forall t :: t in s.queues[p] ==> t in s.threads && s.threads[t].priority == p && Runnable(s.threads[t])
  }

  /** A thread is in the list that its mode calls for. */
  ghost predicate ThreadOk(s: Sched, t: int)
    requires t in s.threads && |s.queues| == PRIORITIES
  {
    var b := s.threads[t];
    && t > 0 && b.priority < PRIORITIES && b.base < PRIORITIES
    && (Runnable(b) ==> t in s.queues[b.priority])
    && (b.mode.Sleeping? <==> t in s.sleep)
    && (b.mode.Waiting? ==> b.mode.on < |s.waits| && t in s.waits[b.mode.on])
    && (b.mode.Running? ==> t == s.current)
  }

  /** Sleepers at positions i and j are in the order of their expiry. */
  ghost predicate InOrder(s: Sched, i: nat, j: nat)
    requires i < j < |s.sleep|
  {
    s.sleep[i] in s.threads && s.sleep[j] in s.threads && s.threads[s.sleep[i]].timeout <= s.threads[s.sleep[j]].timeout
  }

  ghost predicate SleepOk(s: Sched)
  {
    && NoDup(s.sleep)
    && (forall t :: t in s.sleep ==> t in s.threads && s.threads[t].mode.Sleeping?)
    && (forall i, j {:trigger InOrder(s, i, j)} :: 0 <= i < j < |s.sleep| ==> InOrder(s, i, j))
  }

  /** A wait list holds threads that wait on it, each once. */
  ghost predicate WaitOk(s: Sched, k: nat)
    requires k < |s.waits|
  {
    && NoDup(s.waits[k])
    && forall t :: t in s.waits[k] ==> t in s.threads && s.threads[t].mode == Waiting(k)
  }

  ghost predicate WaitsOk(s: Sched)
  {
    forall k {:trigger WaitOk(s, k)} :: 0 <= k < |s.waits| ==> WaitOk(s, k)
  }

  /** Thread `x` is in no wait list. */
  ghost predicate NotWaiting(s: Sched, x: int)
  {
    forall k {:trigger s.waits[k]} :: 0 <= k < |s.waits| ==> x !in s.waits[k]
  }

  /** Lists and control blocks agree, with thread `x` set aside: in no list, in whatever mode. */
  ghost predicate StructBut(s: Sched, x: int)
  {
    && |s.queues| == PRIORITIES
    && (forall p {:trigger QueueOk(s, p)} :: 0 <= p < PRIORITIES ==> QueueOk(s, p))
    && (forall p {:trigger s.queues[p]} :: 0 <= p < PRIORITIES ==> x !in s.queues[p])
    && (forall t {:trigger ThreadOk(s, t)} :: t in s.threads && t != x ==> ThreadOk(s, t))
    && SleepOk(s) && x !in s.sleep
    && WaitsOk(s) && NotWaiting(s, x)
    && (x in s.threads ==> x > 0 && s.threads[x].priority < PRIORITIES && s.threads[x].base < PRIORITIES)
    && (s.current != NULL ==> s.current in s.threads)
    && 1 <= s.slice <= s.period
  }

  /** Lists and control blocks agree. */
  ghost predicate Struct(s: Sched)
  {
    && |s.queues| == PRIORITIES
    && (forall p {:trigger QueueOk(s, p)} :: 0 <= p < PRIORITIES ==> QueueOk(s, p))
    && (forall t {:trigger ThreadOk(s, t)} :: t in s.threads ==> ThreadOk(s, t))
    && SleepOk(s) && WaitsOk(s)
    && (s.current != NULL ==> s.current in s.threads)
    && 1 <= s.slice <= s.period
  }

  /** The scheduler invariant: besides, the idle thread can run, and so can the current one unless preemption is off. */
  ghost predicate Inv(s: Sched)
  {
    && Struct(s)
    && IdleReady(s)
    && Punctual(s)
    && (s.lock == 0 && s.current != NULL ==> Runnable(s.threads[s.current]))
  }

  predicate IdleReady(s: Sched)
  {
    s.idle in s.threads && Runnable(s.threads[s.idle])
  }

  /** Nobody oversleeps. */
  ghost predicate Punctual(s: Sched)
  {
    forall t {:trigger t in s.sleep} :: t in s.sleep && t in s.threads ==> s.now <= s.threads[t].timeout
  }

  // ---------- kernel/sched.c ----------

  function SetMode(s: Sched, t: int, m: Mode): Sched
    requires t in s.threads
  {
    s.(threads := s.threads[t := s.threads[t].(mode := m)])
  }

  /** `_vibe_sched_enqueue` */
  function Enqueue(s: Sched, t: int): Sched
    requires t in s.threads && s.threads[t].priority < |s.queues|
  {
    var p := s.threads[t].priority;
    SetMode(s, t, Ready).(queues := s.queues[p := s.queues[p] + [t]])
  }

  /** `_vibe_sched_dequeue` */
  function Dequeue(s: Sched, t: int): Sched
    requires t in s.threads && s.threads[t].priority < |s.queues|
  {
    var p := s.threads[t].priority;
    s.(queues := s.queues[p := Without(s.queues[p], t)])
  }

  /** Highest priority below `p` with a thread in its queue; -1 when there is none */
  function HighestBelow(queues: seq<seq<int>>, p: nat): (h: int)
    requires p <= |queues|
    ensures -1 <= h < p
    ensures h >= 0 ==> queues[h] != []
    ensures forall q :: h < q < p ==> queues[q] == []
  {
    if p == 0 then -1 else if queues[p - 1] != [] then p - 1 else HighestBelow(queues, p - 1)
  }

  /** `_vibe_sched_next_thread`: head of the highest non-empty queue, or the idle thread */
  function Next(s: Sched): int
  {
    var h := HighestBelow(s.queues, |s.queues|);
    if h < 0 then s.idle else s.queues[h][0]
  }

  /** `_vibe_sched_reschedule` */
  function Reschedule(s: Sched): Sched
  {
    var next := Next(s);
    if s.lock > 0 || next == NULL || next == s.current || next !in s.threads then s
    else Switch(s, next)
  }

  /** The context-switch decision: the previous thread stays in its queue, ready unless it blocked. */
  function Switch(s: Sched, next: int): Sched
    requires next in s.threads
  {
    var s1 := SetMode(s.(current := next), next, Running);
    if s.current in s1.threads && s1.threads[s.current].mode.Running? then SetMode(s1, s.current, Ready) else s1
  }

  /** `_vibe_sched_timeslice_tick` */
  function TimesliceTick(s: Sched): Sched
    requires s.current in s.threads ==> s.threads[s.current].priority < |s.queues|
  {
    if s.current !in s.threads || !s.threads[s.current].mode.Running? then s
    else if s.slice > 1 then s.(slice := s.slice - 1)
    else
      var s1 := s.(slice := s.period);
      if |s.queues[s.threads[s.current].priority]| > 1 then Enqueue(Dequeue(s1, s.current), s.current) else s1
  }

  /** Sleepers are threads with a run queue to go to. */
  predicate Known(s: Sched)
  {
    forall j :: 0 <= j < |s.sleep| ==> s.sleep[j] in s.threads && s.threads[s.sleep[j]].priority < |s.queues|
  }

  /** Position for a new sleeper: before the first one that expires later */
  function SleepPlace(s: Sched, expiry: nat, k: nat): (i: nat)
    requires k <= |s.sleep| && Known(s)
    ensures k <= i <= |s.sleep|
    ensures forall j :: k <= j < i ==> s.threads[s.sleep[j]].timeout <= expiry
    ensures i < |s.sleep| ==> expiry < s.threads[s.sleep[i]].timeout
    decreases |s.sleep| - k
  {
    if k == |s.sleep| || expiry < s.threads[s.sleep[k]].timeout then k else SleepPlace(s, expiry, k + 1)
  }

  /** `_vibe_sched_sleep` */
  function SleepUntil(s: Sched, t: int, expiry: nat): Sched
    requires t in s.threads && Known(s)
  {
    var i := SleepPlace(s, expiry, 0);
    s.(threads := s.threads[t := s.threads[t].(timeout := expiry, mode := Sleeping)],
       sleep := s.sleep[..i] + [t] + s.sleep[i..])
  }

  /** `_vibe_sched_wake_expired`: one sleeper after the other, up to the first that is not due */
  function WakeExpired(s: Sched): Sched
    requires Known(s)
    decreases |s.sleep|
  {
    if s.sleep == [] || s.threads[s.sleep[0]].timeout > s.now then s
    else
      assert forall j :: 0 <= j < |s.sleep| - 1 ==> s.sleep[1..][j] == s.sleep[j + 1];
      WakeExpired(Enqueue(s.(sleep := s.sleep[1..]), s.sleep[0]))
  }

  // ---------- taking a thread out of its list and putting it back ----------

  lemma DetachRunnable(s: Sched, t: int)
    requires Struct(s) && t in s.threads && Runnable(s.threads[t])
    ensures s.threads[t].priority < |s.queues|
    ensures StructBut(Dequeue(s, t), t)
  {
    assert ThreadOk(s, t);
    var p := s.threads[t].priority;
    assert QueueOk(s, p);
    WithoutMembers(s.queues[p], t);
    var s' := Dequeue(s, t);
    forall q | 0 <= q < PRIORITIES
      ensures QueueOk(s', q) && t !in s'.queues[q]
    {
      assert QueueOk(s, q);
    }
    forall u | u in s'.threads && u != t
      ensures ThreadOk(s', u)
    {
      assert ThreadOk(s, u);
    }
    SleepKept(s, s');
    NobodyWaits(s, t);
    WaitsKept(s, s', t);
  }

  /** Who does not wait is in no wait list. */
  lemma NobodyWaits(s: Sched, x: int)
    requires WaitsOk(s) && (x in s.threads ==> !s.threads[x].mode.Waiting?)
    ensures NotWaiting(s, x)
  {
    forall k | 0 <= k < |s.waits|
      ensures x !in s.waits[k]
    {
      assert WaitOk(s, k);
    }
  }

  /** The wait lists stay good when neither they nor those who wait change. */
  lemma WaitsKept(s: Sched, s': Sched, x: int)
    requires WaitsOk(s) && s'.waits == s.waits && NotWaiting(s, x)
    requires forall t :: t in s.threads && t != x && s.threads[t].mode.Waiting? ==>
               t in s'.threads && s'.threads[t].mode == s.threads[t].mode
    ensures WaitsOk(s') && NotWaiting(s', x)
  {
    forall k | 0 <= k < |s'.waits|
      ensures WaitOk(s', k) && x !in s'.waits[k]
    {
      assert WaitOk(s, k) && x !in s.waits[k];
    }
  }

  /** The sleep list stays good when neither it nor the sleepers change. */
  lemma SleepKept(s: Sched, s': Sched)
    requires SleepOk(s) && s'.sleep == s.sleep
    requires forall t :: t in s.sleep && t in s.threads ==>
               t in s'.threads && s'.threads[t].mode == s.threads[t].mode
                 && s'.threads[t].timeout == s.threads[t].timeout
    ensures SleepOk(s')
  {
    forall i, j | 0 <= i < j < |s'.sleep|
      ensures InOrder(s', i, j)
    {
      assert InOrder(s, i, j);
      var t, u := s.sleep[i], s.sleep[j];
      assert t in s.sleep && t in s.threads && t in s'.threads;
      assert u in s.sleep && u in s.threads && u in s'.threads;
    }
  }

  lemma AttachRunnable(s: Sched, t: int)
    requires StructBut(s, t) && t in s.threads
    ensures s.threads[t].priority < |s.queues|
    ensures Struct(Enqueue(s, t))
  {
    var p := s.threads[t].priority;
    var s' := Enqueue(s, t);
    assert t !in s.queues[p];
    forall q | 0 <= q < PRIORITIES
      ensures QueueOk(s', q)
    {
      assert QueueOk(s, q) && t !in s.queues[q];
    }
    forall u | u in s'.threads
      ensures ThreadOk(s', u)
    {
      if u != t {
        assert ThreadOk(s, u);
      }
    }
    SleepKept(s, s');
    WaitsKept(s, s', t);
  }

  /** A thread that is in no list may be given any control block whose mode calls for none. */
  lemma Park(s: Sched, t: int, b: Tcb)
    requires StructBut(s, t) && t in s.threads
    requires (b.mode.Suspended? || b.mode.Dead?) && b.priority < PRIORITIES && b.base < PRIORITIES
    ensures Struct(s.(threads := s.threads[t := b]))
  {
    var s' := s.(threads := s.threads[t := b]);
    forall q | 0 <= q < PRIORITIES
      ensures QueueOk(s', q)
    {
      assert QueueOk(s, q) && t !in s.queues[q];
    }
    forall u | u in s'.threads
      ensures ThreadOk(s', u)
    {
      if u != t {
        assert ThreadOk(s, u);
      }
    }
    SleepKept(s, s');
    WaitsKept(s, s', t);
  }

  lemma DetachParked(s: Sched, t: int)
    requires Struct(s) && t in s.threads && (s.threads[t].mode.Suspended? || s.threads[t].mode.Dead?)
    ensures StructBut(s, t)
  {
    assert ThreadOk(s, t);
    NobodyWaits(s, t);
    forall q | 0 <= q < PRIORITIES
      ensures t !in s.queues[q]
    {
      assert QueueOk(s, q);
    }
  }

  /** Sleepers are known threads, also while some other thread is set aside. */
  lemma SleepersKnown(s: Sched, x: int)
    requires Struct(s) || StructBut(s, x)
    ensures Known(s)
  {
    forall j | 0 <= j < |s.sleep|
      ensures s.sleep[j] in s.threads && s.threads[s.sleep[j]].priority < |s.queues|
    {
      assert s.sleep[j] in s.sleep;
      assert ThreadOk(s, s.sleep[j]);
    }
  }

  /** Taking a sleeper off the list, wherever it is */
  lemma DetachSleeper(s: Sched, t: int)
    requires Struct(s) && t in s.threads && s.threads[t].mode.Sleeping?
    ensures StructBut(s.(sleep := Without(s.sleep, t)), t)
  {
    assert ThreadOk(s, t);
    WithoutMembers(s.sleep, t);
    var s' := s.(sleep := Without(s.sleep, t));
    forall q | 0 <= q < PRIORITIES
      ensures QueueOk(s', q) && t !in s'.queues[q]
    {
      assert QueueOk(s, q);
    }
    forall u | u in s'.threads && u != t
      ensures ThreadOk(s', u)
    {
      assert ThreadOk(s, u);
    }
    SleepShorter(s, t);
    NobodyWaits(s, t);
    WaitsKept(s, s', t);
  }

  lemma SleepShorter(s: Sched, t: int)
    requires SleepOk(s) && t in s.sleep
    ensures SleepOk(s.(sleep := Without(s.sleep, t)))
  {
    hide Without;
    WithoutMembers(s.sleep, t);
    var s' := s.(sleep := Without(s.sleep, t));
    var k :| 0 <= k < |s.sleep| && s.sleep[k] == t;
    WithoutIndex(s.sleep, k);
    assert s'.sleep == s.sleep[..k] + s.sleep[k + 1..];
    forall i, j | 0 <= i < j < |s'.sleep|
      ensures InOrder(s', i, j)
    {
      var i' := if i < k then i else i + 1;
      var j' := if j < k then j else j + 1;
      assert s'.sleep[i] == s.sleep[i'] && s'.sleep[j] == s.sleep[j'];
      assert InOrder(s, i', j');
    }
  }

  /**
   A new sleeper goes behind everyone who expires no later, so the list stays sorted and ties stay in
   order of arrival.
   */
  lemma AttachSleeper(s: Sched, t: int, expiry: nat)
    requires StructBut(s, t) && t in s.threads
    ensures Known(s) && Struct(SleepUntil(s, t, expiry))
  {
    hide SleepPlace, SleepOk, NoDup, InOrder;
    SleepersKnown(s, t);
    var i := SleepPlace(s, expiry, 0);
    var s' := SleepUntil(s, t, expiry);
    assert forall u :: u in s'.sleep <==> u in s.sleep || u == t by {
      assert s.sleep == s.sleep[..i] + s.sleep[i..];
    }
    forall q | 0 <= q < PRIORITIES
      ensures QueueOk(s', q)
    {
      assert QueueOk(s, q) && t !in s.queues[q];
    }
    forall u | u in s'.threads
      ensures ThreadOk(s', u)
    {
      if u != t {
        assert ThreadOk(s, u);
      } else {
        assert s.queues[s.threads[t].priority] == s.queues[s.threads[t].priority];
      }
    }
    WaitsKept(s, s', t);
    NewSleeperOk(s, t, expiry);
  }

  lemma NewSleeperOk(s: Sched, t: int, expiry: nat)
    requires StructBut(s, t) && t in s.threads && Known(s)
    ensures SleepOk(SleepUntil(s, t, expiry))
  {
    hide SleepPlace;
    var i := SleepPlace(s, expiry, 0);
    var s' := SleepUntil(s, t, expiry);
    NoDupInsert(s.sleep, i, t);
    forall u | u in s'.sleep
      ensures u in s'.threads && s'.threads[u].mode.Sleeping?
    {
      assert u == t || u in s.sleep;
    }
    forall j, k | 0 <= j < k < |s'.sleep|
      ensures InOrder(s', j, k)
    {
      SleeperOrder(s, t, expiry, j, k);
    }
  }

  lemma SleeperOrder(s: Sched, t: int, expiry: nat, j: nat, k: nat)
    requires StructBut(s, t) && t in s.threads && Known(s)
    requires j < k < |SleepUntil(s, t, expiry).sleep|
    ensures InOrder(SleepUntil(s, t, expiry), j, k)
  {
    var i := SleepPlace(s, expiry, 0);
    var s' := SleepUntil(s, t, expiry);
    var j' := if j < i then j else j - 1;
    var k' := if k < i then k else k - 1;
    assert j != i ==> s'.sleep[j] == s.sleep[j'] && s.sleep[j'] in s.sleep;
    assert k != i ==> s'.sleep[k] == s.sleep[k'] && s.sleep[k'] in s.sleep;
    if j != i && k != i {
      assert InOrder(s, j', k');
    } else if j == i && k' > i {
      assert InOrder(s, i, k');
    }
  }

  /** The control block of a thread that is in no list may be rewritten at will. */
  lemma Rewrite(s: Sched, t: int, b: Tcb)
    requires StructBut(s, t) && t in s.threads && b.priority < PRIORITIES && b.base < PRIORITIES
    ensures StructBut(s.(threads := s.threads[t := b]), t)
  {
    var s' := s.(threads := s.threads[t := b]);
    forall q | 0 <= q < PRIORITIES
      ensures QueueOk(s', q)
    {
      assert QueueOk(s, q) && t !in s.queues[q];
    }
    forall u | u in s'.threads && u != t
      ensures ThreadOk(s', u)
    {
      assert ThreadOk(s, u);
    }
    SleepKept(s, s');
    WaitsKept(s, s', t);
  }

  // ---------- wait lists ----------

  /** Out of the run queue, WAITING, and in wait list `k` in front of the one at `i` */
  function WaitAt(s: Sched, t: int, k: nat, i: nat, timeout: nat): Sched
    requires t in s.threads && k < |s.waits| && i <= |s.waits[k]|
  {
    s.(threads := s.threads[t := s.threads[t].(mode := Waiting(k), timeout := timeout)],
       waits := s.waits[k := s.waits[k][..i] + [t] + s.waits[k][i..]])
  }

  /** The first of wait list `k` taken off it */
  function TakeWaiter(s: Sched, k: nat): Sched
    requires k < |s.waits| && s.waits[k] != []
  {
    s.(waits := s.waits[k := s.waits[k][1..]])
  }

  lemma AttachWaiter(s: Sched, t: int, k: nat, i: nat, timeout: nat)
    requires StructBut(s, t) && t in s.threads && k < |s.waits| && i <= |s.waits[k]|
    ensures Struct(WaitAt(s, t, k, i, timeout))
  {
    hide NoDup;
    var s' := WaitAt(s, t, k, i, timeout);
    assert forall u :: u in s'.waits[k] <==> u in s.waits[k] || u == t by {
      assert s.waits[k] == s.waits[k][..i] + s.waits[k][i..];
    }
    forall q | 0 <= q < PRIORITIES
      ensures QueueOk(s', q)
    {
      assert QueueOk(s, q) && t !in s.queues[q];
    }
    forall j | 0 <= j < |s'.waits|
      ensures WaitOk(s', j)
    {
      assert WaitOk(s, j) && t !in s.waits[j];
      if j == k {
        NoDupInsert(s.waits[k], i, t);
      }
    }
    forall u | u in s'.threads
      ensures ThreadOk(s', u)
    {
      assert u != t ==> ThreadOk(s, u);
    }
    SleepKept(s, s');
  }

  /** The first waiter can be taken off its list, and is then in none. */
  lemma DetachWaiter(s: Sched, k: nat)
    requires Struct(s) && k < |s.waits| && s.waits[k] != []
    ensures var t := s.waits[k][0];
            && t in s.threads && s.threads[t].mode == Waiting(k) && s.threads[t].priority < |s.queues|
            && StructBut(TakeWaiter(s, k), t)
  {
    var t := s.waits[k][0];
    assert WaitOk(s, k) && t in s.waits[k];
    assert ThreadOk(s, t);
    var s' := TakeWaiter(s, k);
    assert Without(s.waits[k], t) == s.waits[k][1..];
    WithoutMembers(s.waits[k], t);
    forall q | 0 <= q < PRIORITIES
      ensures QueueOk(s', q) && t !in s'.queues[q]
    {
      assert QueueOk(s, q);
    }
    forall j | 0 <= j < |s'.waits|
      ensures WaitOk(s', j) && t !in s'.waits[j]
    {
      assert WaitOk(s, j);
    }
    forall u | u in s'.threads && u != t
      ensures ThreadOk(s', u)
    {
      assert ThreadOk(s, u);
    }
    SleepKept(s, s');
  }

  // ---------- selection ----------

  /** The next thread is the head of the highest non-empty queue: no runnable thread outranks it. */
  lemma NextIsTop(s: Sched)
    requires Struct(s) && IdleReady(s)
    ensures Next(s) in s.threads && Runnable(s.threads[Next(s)]) && Next(s) != NULL
    ensures s.threads[Next(s)].priority < |s.queues|
    ensures s.queues[s.threads[Next(s)].priority] != [] && s.queues[s.threads[Next(s)].priority][0] == Next(s)
    ensures forall t :: t in s.threads && Runnable(s.threads[t]) ==>
            s.threads[t].priority <= s.threads[Next(s)].priority
  {
    var h := HighestBelow(s.queues, PRIORITIES);
    assert ThreadOk(s, s.idle);
    assert QueueOk(s, h);
    assert s.queues[h][0] in s.queues[h];
    assert ThreadOk(s, s.queues[h][0]);
    forall t | t in s.threads && Runnable(s.threads[t])
      ensures s.threads[t].priority <= h
    {
      assert ThreadOk(s, t);
    }
  }

  lemma SwitchStruct(s: Sched, next: int)
    requires Struct(s) && next in s.threads && Runnable(s.threads[next]) && next != s.current && next != NULL
    ensures Struct(Switch(s, next))
  {
    var s' := Switch(s, next);
    assert s.current in s.threads ==> ThreadOk(s, s.current);
    forall t | t in s.threads
      ensures Runnable(s'.threads[t]) == Runnable(s.threads[t]) && s'.threads[t].priority == s.threads[t].priority
    {
    }
    forall q | 0 <= q < PRIORITIES
      ensures QueueOk(s', q)
    {
      assert QueueOk(s, q);
    }
    forall t | t in s'.threads
      ensures ThreadOk(s', t)
    {
      assert ThreadOk(s, t);
    }
    SleepKept(s, s');
    NobodyWaits(s, next);
    WaitsKept(s, s', next);
  }

  /** Rescheduling keeps the invariant; it never moves a thread within or between queues. */
  lemma RescheduleInv(s: Sched)
    requires Struct(s) && IdleReady(s) && Punctual(s)
    ensures Inv(Reschedule(s))
    ensures s.lock == 0 ==> Reschedule(s).current == Next(s) == Next(Reschedule(s))
    ensures s.lock > 0 ==> Reschedule(s) == s
    ensures Reschedule(s).queues == s.queues && Reschedule(s).sleep == s.sleep && Reschedule(s).waits == s.waits
    ensures Reschedule(s).threads.Keys == s.threads.Keys
  {
    hide HighestBelow;
    NextIsTop(s);
    if s.lock == 0 && Next(s) != s.current {
      SwitchStruct(s, Next(s));
    }
  }

  // ---------- waking ----------

  /** A sleeper that is woken is ready; everyone else is as before. */
  ghost predicate Woken(s: Sched, s': Sched, t: int)
    requires t in s.threads
  {
    t in s'.threads &&
    s'.threads[t] ==
    if t in s.sleep && s.threads[t].timeout <= s.now then s.threads[t].(mode := Ready) else s.threads[t]
  }

  /** The scan wakes exactly the sleepers whose time has come, although it stops at the first that is not due. */
  lemma {:induction false} WakesExactly(s: Sched)
    requires Struct(s) && Known(s)
    ensures var s' := WakeExpired(s);
            && Struct(s') && s'.threads.Keys == s.threads.Keys
            && (forall t {:trigger Woken(s, s', t)} :: t in s.threads ==> Woken(s, s', t))
            && (forall t :: t in s'.sleep <==> t in s.sleep && t in s.threads && s.now < s.threads[t].timeout)
            && s' == s.(threads := s'.threads, queues := s'.queues, sleep := s'.sleep)
            && (forall p :: 0 <= p < PRIORITIES ==> s.queues[p] <= s'.queues[p])
    decreases |s.sleep|
  {
    if s.sleep != [] {
      var t := s.sleep[0];
      if s.threads[t].timeout > s.now {
        forall u | u in s.sleep
          ensures u in s.threads && s.now < s.threads[u].timeout
        {
          var k :| 0 <= k < |s.sleep| && s.sleep[k] == u;
          if k > 0 {
            assert InOrder(s, 0, k);
          }
        }
      } else {
        var s1 := s.(sleep := s.sleep[1..]);
        WakeFirst(s);
        var s2 := Enqueue(s1, t);
        SleepersKnown(s2, NULL);
        WakesExactly(s2);
        var s' := WakeExpired(s);
        assert s' == WakeExpired(s2);
        forall u | u in s.threads
          ensures Woken(s, s', u)
        {
          assert Woken(s2, s', u);
        }
      }
    }
  }

  lemma WakeFirst(s: Sched)
    requires Struct(s) && s.sleep != []
    ensures var t := s.sleep[0];
            && t in s.threads && s.threads[t].priority < |s.queues|
            && Struct(Enqueue(s.(sleep := s.sleep[1..]), t))
            && (forall u :: u in s.sleep[1..] <==> u in s.sleep && u != t)
  {
    var t := s.sleep[0];
    assert t in s.sleep;
    assert ThreadOk(s, t);
    assert Without(s.sleep, t) == s.sleep[1..];
    WithoutMembers(s.sleep, t);
    DetachSleeper(s, t);
    AttachRunnable(s.(sleep := s.sleep[1..]), t);
  }

  /** `_vibe_sched_next_wakeup` reads the head: no sleeper is due earlier. */
  lemma HeadIsEarliest(s: Sched, t: int)
    requires Struct(s) && t in s.sleep
    ensures s.sleep[0] in s.threads && t in s.threads && s.threads[s.sleep[0]].timeout <= s.threads[t].timeout
  {
    var k :| 0 <= k < |s.sleep| && s.sleep[k] == t;
    assert s.sleep[0] in s.sleep;
    if k > 0 {
      assert InOrder(s, 0, k);
    }
  }
}
