/**
 Round-robin between threads of equal priority (kernel/sched.c).  Under ticks alone each thread of the
 highest non-empty queue gets the processor in turn, for exactly one time slice, provided that its
 head is in mode RUNNING.  A yield that finds nobody else to run leaves it READY instead; then the
 slice stands still and those who queue up behind never get their turn.
 */
module SchedFairness {
  import opened Seqs
  import opened SchedModel
  import opened SchedRuns
  import Wrap32

  /** The current thread is the head of queue `p`, above which nothing is ready. */
  ghost predicate Leads(s: Sched, p: nat)
  {
    && Inv(s) && p < PRIORITIES == |s.queues| && s.lock == 0 && 1 <= s.slice <= s.period
    && s.current in s.threads && s.threads[s.current].priority == p
    && s.queues[p] != [] && s.queues[p][0] == s.current
    && forall q :: p < q < PRIORITIES ==> s.queues[q] == []
  }

  /** The slice of the current thread runs. */
  predicate Sliced(s: Sched)
  {
    s.current in s.threads && s.threads[s.current].mode.Running?
  }

  /** Nobody of higher priority wakes up before `deadline`. */
  ghost predicate Quiet(s: Sched, p: nat, deadline: nat)
  {
    forall t {:trigger t in s.sleep} :: t in s.sleep && t in s.threads ==>
      s.threads[t].timeout > deadline || s.threads[t].priority <= p
  }

  /** Besides, nobody of the same priority does. */
  ghost predicate Silent(s: Sched, p: nat, deadline: nat)
  {
    forall t {:trigger t in s.sleep} :: t in s.sleep && t in s.threads ==>
      s.threads[t].timeout > deadline || s.threads[t].priority < p
  }

  /** Waking appends to queue `p` and leaves those above it empty. */
  lemma WakeKeepsLead(s: Sched, p: nat, deadline: nat)
    requires Leads(s, p) && Quiet(s, p, deadline) && s.now < deadline
    ensures var s1 := s.(now := s.now + 1);
            && Struct(s1) && Known(s1)
            && var s2 := WakeExpired(s1);
            && Struct(s2) && s2 == s1.(threads := s2.threads, queues := s2.queues, sleep := s2.sleep)
            && s.current in s2.threads && s2.threads[s.current] == s.threads[s.current]
            && s.queues[p] <= s2.queues[p] && (Silent(s, p, deadline) ==> s2.queues[p] == s.queues[p])
            && (forall q :: p < q < PRIORITIES ==> s2.queues[q] == [])
            && (forall t :: t in s2.sleep ==>
                  t in s.sleep && t in s.threads && t in s2.threads && s2.threads[t] == s.threads[t])
  {
    hide WakeExpired;
    TickStruct(s);
    var s1 := s.(now := s.now + 1);
    WakesExactly(s1);
    var s2 := WakeExpired(s1);
    assert ThreadOk(s, s.current);
    assert Woken(s1, s2, s.current);
    forall q, u | 0 <= q < PRIORITIES && u in s2.queues[q]
      ensures q <= p
    {
      assert QueueOk(s2, q);
      assert ThreadOk(s, u) && Woken(s1, s2, u);
      assert Runnable(s.threads[u]) || u in s.sleep;
    }
    forall q | p < q < PRIORITIES
      ensures s2.queues[q] == []
    {
      HasMember(s2.queues[q]);
    }
    forall t | t in s2.sleep
      ensures t in s.sleep && t in s.threads && t in s2.threads && s2.threads[t] == s.threads[t]
    {
      assert Woken(s1, s2, t);
    }
    if Silent(s, p, deadline) {
      NobodyJoins(s, s1, s2, p, deadline);
    }
  }

  /** A queue that nobody wakes up into stays as it is. */
  lemma NobodyJoins(s: Sched, s1: Sched, s2: Sched, p: nat, deadline: nat)
    requires Inv(s) && Struct(s2) && p < PRIORITIES && Silent(s, p, deadline) && s1 == s.(now := s.now + 1)
    requires s1.now <= deadline
    requires s2.threads.Keys == s.threads.Keys && s.queues[p] <= s2.queues[p]
    requires forall t {:trigger Woken(s1, s2, t)} :: t in s.threads ==> Woken(s1, s2, t)
    ensures s2.queues[p] == s.queues[p]
  {
    assert QueueOk(s2, p);
    forall u | u in s2.queues[p]
      ensures u in s.queues[p]
    {
      assert ThreadOk(s, u) && Woken(s1, s2, u);
    }
    Longer(s.queues[p], s2.queues[p]);
  }

  lemma Longer(a: seq<int>, b: seq<int>)
    requires a <= b && NoDup(b)
    ensures a != b ==> exists x :: x in b && x !in a
  {
    if a != b {
      var x := b[|a|];
      assert x in b && forall i :: 0 <= i < |a| ==> a[i] == b[i];
    }
  }

  lemma HasMember(s: seq<int>)
    ensures s != [] ==> exists u :: u in s
  {
    if s != [] {
      var u := s[0];
      assert u in s;
    }
  }

  /**
   The slice step on its own: count down, or start a new slice and rotate if anyone else waits;
   nothing for a head that is READY.
   */
  lemma SliceStep(s: Sched, p: nat)
    requires Struct(s) && p < PRIORITIES && s.current in s.threads && s.threads[s.current].priority == p
    requires s.queues[p] != [] && s.queues[p][0] == s.current
    ensures var s' := TimesliceTick(s);
            && Struct(s') && s'.sleep == s.sleep && s'.period == s.period && s'.current == s.current
            && (forall q :: 0 <= q < PRIORITIES && q != p ==> s'.queues[q] == s.queues[q])
            && s'.queues[p] != [] && (s'.queues[p][0] == s.current ==> s'.threads == s.threads)
            && (forall t :: t in s.threads && t != s.current ==> t in s'.threads && s'.threads[t] == s.threads[t])
    ensures TimesliceTick(s).slice == NextSlice(s) && TimesliceTick(s).queues[p] == Rotated(s, s.queues[p])
  {
    TimesliceStruct(s);
    assert QueueOk(s, p);
    assert Without(s.queues[p], s.current) == s.queues[p][1..];
    if |s.queues[p]| > 1 {
      assert (s.queues[p][1..] + [s.current])[0] == s.queues[p][1];
    }
  }

  /** What a tick makes of the slice */
  function NextSlice(s: Sched): int
  {
    if !Sliced(s) then s.slice else if s.slice > 1 then s.slice - 1 else s.period
  }

  /** What a tick makes of the queue that the current thread heads */
  function Rotated(s: Sched, queue: seq<int>): seq<int>
  {
    if Sliced(s) && s.slice <= 1 && |queue| > 1 then queue[1..] + [queue[0]] else queue
  }

  lemma HighestIs(queues: seq<seq<int>>, n: nat, p: nat)
    requires p < n <= |queues| && queues[p] != [] && forall q :: p < q < n ==> queues[q] == []
    ensures HighestBelow(queues, n) == p
  {
    if n > p + 1 {
      HighestIs(queues, n - 1, p);
    }
  }

  /**
   One tick.  Within a slice nothing changes for the top queue but newcomers at its end; at the end of
   a slice the second thread, if there is one, takes over with a full slice.  With a head that is
   READY nothing changes but newcomers.
   */
  lemma OneTick(s: Sched, p: nat, deadline: nat)
    requires Leads(s, p) && Quiet(s, p, deadline) && s.now < deadline
    ensures var s' := Step(s, Tick);
            && Leads(s', p) && Quiet(s', p, deadline) && s'.now == s.now + 1 && s'.period == s.period
            && s'.slice == NextSlice(s) && Sliced(s') == Sliced(s)
            && (if !Sliced(s) || s.slice > 1 then s.queues[p] <= s'.queues[p]
                else |s.queues[p]| > 1 ==> s.queues[p][1..] <= s'.queues[p])
            && (Silent(s, p, deadline) ==> Silent(s', p, deadline) && s'.queues[p] == Rotated(s, s.queues[p]))
  {
    hide WakeExpired, TimesliceTick, Reschedule;
    WakeKeepsLead(s, p, deadline);
    TickStruct(s);
    SleepersKnown(s, NULL);
    var s2 := WakeExpired(s.(now := s.now + 1));
    assert ThreadOk(s, s.current);
    SliceStep(s2, p);
    var s3 := TimesliceTick(s2);
    assert s3 == TickBody(s);
    TickBodyOk(s);
    LeadsAfter(s3, p);
    QuietAfter(s, s2, s3, p, deadline);
    assert s3.current != s3.queues[p][0] ==> Sliced(s);
  }

  /** The decision at the end of the tick gives the processor to the head of queue `p`. */
  lemma LeadsAfter(s: Sched, p: nat)
    requires Struct(s) && IdleReady(s) && Punctual(s) && s.lock == 0 && p < PRIORITIES
    requires s.queues[p] != [] && forall q :: p < q < PRIORITIES ==> s.queues[q] == []
    ensures var s' := Reschedule(s);
            && Leads(s', p) && s'.queues == s.queues && s'.now == s.now && s'.slice == s.slice && s'.period == s.period
            && (Sliced(s') <==> s.current != s.queues[p][0] || Sliced(s))
  {
    HighestIs(s.queues, PRIORITIES, p);
    RescheduleInv(s);
    assert QueueOk(s, p);
    assert s.queues[p][0] in s.queues[p];
  }

  lemma QuietAfter(s: Sched, s2: Sched, s3: Sched, p: nat, deadline: nat)
    requires Quiet(s, p, deadline) && s3.sleep == s2.sleep && Struct(s3) && IdleReady(s3) && Punctual(s3)
    requires forall t :: t in s2.sleep ==>
               t in s.sleep && t in s.threads && t in s2.threads && s2.threads[t] == s.threads[t]
    requires s2.current in s2.threads && Runnable(s2.threads[s2.current]) && Struct(s2)
    requires forall t :: t in s2.threads && t != s2.current ==> t in s3.threads && s3.threads[t] == s2.threads[t]
    ensures Quiet(Reschedule(s3), p, deadline)
    ensures Silent(s, p, deadline) ==> Silent(Reschedule(s3), p, deadline)
  {
    hide Next;
    RescheduleInv(s3);
    NextIsTop(s3);
    forall t | t in s3.sleep
      ensures t in s.sleep && t in s3.threads && s3.threads[t] == s.threads[t]
    {
      assert ThreadOk(s2, s2.current);
    }
  }

  // ---------- many ticks ----------

  ghost function Ticks(s: Sched, n: nat): (s': Sched)
    requires Inv(s)
    ensures Inv(s')
  {
    if n == 0 then s
    else
      var s1 := Ticks(s, n - 1);
      StepInv(s1, Tick);
      Step(s1, Tick)
  }

  /** Which turn it is after n ticks, and how many ticks of it are left, when the first turn has `first` ticks left */
  function Turn(n: nat, first: nat, period: nat): (nat, nat)
  {
    if n == 0 then (0, first)
    else
      var (i, left) := Turn(n - 1, first, period);
      if left > 1 then (i, left - 1) else (i + 1, period)
  }

  /** The first turn takes what is left of the slice, every later one exactly `period` ticks. */
  lemma {:induction false} TurnInFirst(n: nat, first: nat, period: nat)
    requires n < first
    ensures Turn(n, first, period) == (0, first - n)
  {
    if n > 0 {
      TurnInFirst(n - 1, first, period);
    }
  }

  lemma {:induction false} TurnLater(i: nat, r: nat, first: nat, period: nat)
    requires 0 < first && 0 < period && r < period
    ensures Turn(first + i * period + r, first, period) == (i + 1, period - r)
    decreases i, r
  {
    if r > 0 {
      TurnLater(i, r - 1, first, period);
    } else if i > 0 {
      TurnLater(i - 1, period - 1, first, period);
      assert first + i * period - 1 == first + (i - 1) * period + (period - 1);
    } else {
      TurnInFirst(first - 1, first, period);
    }
  }

  /** The same for the state at hand: with a head that is READY it stays its turn. */
  function TurnAfter(s: Sched, n: nat): (nat, int)
  {
    if Sliced(s) then Turn(n, s.slice, s.period) else (0, s.slice)
  }

  /**
   Round-robin.  Let the queue of the highest ready priority be Q, its head current with s.slice ticks
   left, and let nobody of higher priority wake up.  Then after any number of ticks it is the turn of
   the thread `TurnAfter` names, as long as that is one of Q; newcomers queue up behind.
   */
  lemma {:induction false} RoundRobin(s: Sched, p: nat, n: nat, deadline: nat)
    requires Leads(s, p) && Quiet(s, p, deadline) && s.now + n <= deadline
    requires TurnAfter(s, n).0 < |s.queues[p]|
    ensures var s' := Ticks(s, n);
            var (i, left) := TurnAfter(s, n);
            && Leads(s', p) && Quiet(s', p, deadline) && s'.now == s.now + n && Sliced(s') == Sliced(s)
            && s'.period == s.period && s'.slice == left
            && s.queues[p][i..] <= s'.queues[p] && s'.current == s.queues[p][i]
  {
    hide Step, Inv, Quiet, Sliced;
    if n > 0 {
      var (i, left) := TurnAfter(s, n - 1);
      RoundRobin(s, p, n - 1, deadline);
      var s1 := Ticks(s, n - 1);
      OneTick(s1, p, deadline);
      var s2 := Ticks(s, n);
      if left > 1 || !Sliced(s) {
        PrefixTrans(s.queues[p][i..], s1.queues[p], s2.queues[p]);
      } else {
        assert s.queues[p][i + 1..] == s.queues[p][i..][1..];
        PrefixTail(s.queues[p][i..], s1.queues[p]);
        PrefixTrans(s.queues[p][i + 1..], s1.queues[p][1..], s2.queues[p]);
      }
    }
  }

  /** The head keeps the processor for what is left of its slice. */
  lemma FirstKeepsItsSlice(s: Sched, p: nat, n: nat, deadline: nat)
    requires Leads(s, p) && n < s.slice && s.now + n <= deadline && Quiet(s, p, deadline)
    ensures Ticks(s, n).current == s.current
  {
    TurnInFirst(n, s.slice, s.period);
    RoundRobin(s, p, n, deadline);
  }

  /**
   The thread at position i > 0 of the queue has the processor for exactly one slice, the i-th, if
   and only if the head is RUNNING.
   */
  lemma EachGetsItsSlice(s: Sched, p: nat, i: nat, r: nat, deadline: nat)
    requires Leads(s, p) && 0 < i < |s.queues[p]| && r < s.period
    requires var n := s.slice + (i - 1) * s.period + r;
             n >= 0 && s.now + n <= deadline && Quiet(s, p, deadline)
    ensures var n := s.slice + (i - 1) * s.period + r;
            n >= 0 && (Ticks(s, n).current == s.queues[p][i] <==> Sliced(s))
  {
    hide Step, Inv, Quiet, Ticks, Turn, TurnAfter;
    TurnLater(i - 1, r, s.slice, s.period);
    InTurn(s, p, s.slice + (i - 1) * s.period + r, i, deadline);
  }

  lemma InTurn(s: Sched, p: nat, n: nat, i: nat, deadline: nat)
    requires Leads(s, p) && 0 < i < |s.queues[p]| && Quiet(s, p, deadline) && s.now + n <= deadline
    requires Turn(n, s.slice, s.period).0 == i
    ensures Ticks(s, n).current == s.queues[p][i] <==> Sliced(s)
  {
    HeadApart(s, p, i);
    hide Step, Inv, Quiet, Ticks, Turn;
    RoundRobin(s, p, n, deadline);
  }

  lemma HeadApart(s: Sched, p: nat, i: nat)
    requires Leads(s, p) && 0 < i < |s.queues[p]|
    ensures s.queues[p][i] != s.current
  {
    assert QueueOk(s, p);
  }

  // ---------- round after round ----------

  /** The queue with its first `i` threads moved to the back */
  function Turned(queue: seq<int>, i: nat): seq<int>
    requires queue != []
    decreases i
  {
    if i == 0 then queue else Turned(queue[1..] + [queue[0]], i - 1)
  }

  lemma {:induction false} TurnedStep(queue: seq<int>, i: nat)
    requires queue != []
    ensures var q := Turned(queue, i); q != [] && Turned(queue, i + 1) == q[1..] + [q[0]]
    decreases i
  {
    if i > 0 {
      TurnedStep(queue[1..] + [queue[0]], i - 1);
    }
  }

  /** Its head is then the thread at position i modulo the length. */
  lemma {:induction false} TurnedHead(queue: seq<int>, i: nat)
    requires queue != []
    ensures |Turned(queue, i)| == |queue| && Turned(queue, i)[0] == queue[i % |queue|]
    decreases i
  {
    var k := |queue|;
    if i == 0 {
      Wrap32.Remainder(0, k, 0, 0);
    } else {
      var next := queue[1..] + [queue[0]];
      TurnedHead(next, i - 1);
      var j := (i - 1) % k;
      assert i - 1 == k * ((i - 1) / k) + j;
      if j + 1 < k {
        Wrap32.Remainder(i, k, (i - 1) / k, j + 1);
      } else {
        assert k * ((i - 1) / k + 1) == k * ((i - 1) / k) + k;
        Wrap32.Remainder(i, k, (i - 1) / k + 1, 0);
      }
    }
  }

  /**
   While nobody joins the queue either, turn i belongs to the thread at position i modulo the length
   of the queue, for ever.
   */
  lemma {:induction false} RoundAfterRound(s: Sched, p: nat, n: nat, deadline: nat)
    requires Leads(s, p) && Quiet(s, p, deadline) && Silent(s, p, deadline) && s.now + n <= deadline
    ensures var s' := Ticks(s, n);
            var (i, left) := TurnAfter(s, n);
            && Leads(s', p) && Quiet(s', p, deadline) && Silent(s', p, deadline) && s'.now == s.now + n
            && Sliced(s') == Sliced(s) && s'.period == s.period && s'.slice == left
            && s'.queues[p] == Turned(s.queues[p], i) && s'.current == s.queues[p][i % |s.queues[p]|]
  {
    hide Step, Inv, Quiet, Silent, Sliced, Turned;
    TurnedHead(s.queues[p], TurnAfter(s, n).0);
    if n == 0 {
      TurnedNone(s.queues[p]);
    } else {
      var (i, left) := TurnAfter(s, n - 1);
      RoundAfterRound(s, p, n - 1, deadline);
      OneTick(Ticks(s, n - 1), p, deadline);
      TurnedStep(s.queues[p], i);
      TurnedHead(s.queues[p], i);
      Single(Turned(s.queues[p], i));
    }
  }

  lemma TurnedNone(queue: seq<int>)
    requires queue != []
    ensures Turned(queue, 0) == queue
  {
  }

  lemma Single(queue: seq<int>)
    ensures |queue| == 1 ==> queue[1..] + [queue[0]] == queue
  {
  }

  // ---------- a lone yield ----------

  /**
   A yield leaves its caller READY.  It remains the choice, and so runs on in that mode, exactly when it
   is alone in its queue with nothing above; otherwise another thread is RUNNING.
   */
  lemma YieldMode(s: Sched)
    requires Inv(s) && s.lock == 0 && s.current != NULL
    ensures var s' := Step(s, Yield);
            && s.current in s.threads && s.threads[s.current].priority < |s.queues|
            && var p := s.threads[s.current].priority;
            && s.current in s'.threads && s'.threads[s.current].mode == Ready
            && s'.queues[p] == Without(s.queues[p], s.current) + [s.current]
            && (s'.current == s.current <==>
                  s.queues[p] == [s.current] && forall q :: p < q < |s.queues| ==> s.queues[q] == [])
            && (s'.current == s.current <==> !Sliced(s'))
  {
    hide Reschedule;
    StepInv(s, Yield);
    assert ThreadOk(s, s.current);
    DetachRunnable(s, s.current);
    var s1 := Enqueue(Dequeue(s, s.current), s.current);
    AttachRunnable(Dequeue(s, s.current), s.current);
    RescheduleInv(s1);
    YieldChoice(s, s1);
    NextIsTop(s1);
    DecisionMode(s1);
  }

  /** Whom the decision after a yield chooses */
  lemma YieldChoice(s: Sched, s1: Sched)
    requires Inv(s) && s.current in s.threads && Runnable(s.threads[s.current])
    requires s.threads[s.current].priority < |s.queues|
    requires s1 == Enqueue(Dequeue(s, s.current), s.current) && Struct(s1)
    ensures var p := s.threads[s.current].priority;
            Next(s1) == s.current <==>
              s.queues[p] == [s.current] && forall q :: p < q < |s.queues| ==> s.queues[q] == []
  {
    hide HighestBelow;
    var p := s.threads[s.current].priority;
    assert ThreadOk(s, s.current) && QueueOk(s, p);
    WithoutMembers(s.queues[p], s.current);
    var rest := Without(s.queues[p], s.current);
    assert s1.queues[p] == rest + [s.current];
    var h := HighestBelow(s1.queues, |s1.queues|);
    assert h >= p;
    if h == p {
      OnlyMember(s.queues[p], s.current);
      forall q | p < q < |s.queues|
        ensures s.queues[q] == []
      {
        assert s1.queues[q] == s.queues[q];
      }
    } else {
      assert QueueOk(s, h);
      assert s1.queues[h] == s.queues[h] && s.queues[h][0] in s.queues[h];
    }
  }

  lemma OnlyMember(queue: seq<int>, t: int)
    requires NoDup(queue) && t in queue
    ensures var rest := Without(queue, t);
            && (rest == [] <==> queue == [t])
            && (rest != [] ==> rest[0] != t)
  {
    WithoutMembers(queue, t);
    var rest := Without(queue, t);
    if |queue| > 1 {
      var x := if queue[0] != t then queue[0] else queue[1];
      assert x in queue && x in rest;
      assert rest[0] in rest;
    }
  }

  lemma DecisionMode(s: Sched)
    requires s.lock == 0 && s.current in s.threads && s.threads[s.current].mode.Ready? && Next(s) in s.threads
    requires Next(s) != NULL
    ensures var s' := Reschedule(s);
            && s.current in s'.threads && s'.threads[s.current].mode == Ready
            && (s'.current == s.current <==> Next(s) == s.current)
            && (s'.current == s.current <==> !Sliced(s'))
  {
    hide Next;
  }

  /**
   Starvation.  Once the head of the top queue is READY, no number of ticks takes the processor from
   it, however many threads of its priority wait behind or join.
   */
  lemma LoneYielderKeepsProcessor(s: Sched, p: nat, n: nat, deadline: nat)
    requires Leads(s, p) && !Sliced(s) && Quiet(s, p, deadline) && s.now + n <= deadline
    ensures var s' := Ticks(s, n);
            s'.current == s.current && s'.slice == s.slice && !Sliced(s') && s.queues[p] <= s'.queues[p]
  {
    hide Inv, Quiet, Ticks;
    RoundRobin(s, p, n, deadline);
    assert s.queues[p][0..] == s.queues[p];
  }

  /** So a thread of the same priority that is created after a lone yield waits, READY, as long as only time passes. */
  lemma NewcomerStarves(s: Sched, u: int, n: nat, deadline: nat)
    requires Inv(s) && s.lock == 0 && s.current != NULL && u > 0 && u !in s.threads
    requires s.current in s.threads && s.threads[s.current].priority < |s.queues|
    requires var p := s.threads[s.current].priority;
             && s.queues[p] == [s.current] && (forall q :: p < q < |s.queues| ==> s.queues[q] == [])
             && Quiet(s, p, deadline) && s.now + n <= deadline
    ensures var p := s.threads[s.current].priority;
            var s1 := Step(s, Yield);
            && Inv(s1) && Allowed(s1, Create(u, p))
            && var s2 := Step(s1, Create(u, p));
            && Inv(s2) && s2.queues[p] == [s.current, u]
            && Ticks(s2, n).current == s.current && [s.current, u] <= Ticks(s2, n).queues[p]
  {
    var p := s.threads[s.current].priority;
    YieldMode(s);
    StepInv(s, Yield);
    var s1 := Step(s, Yield);
    YieldFrame(s, u);
    assert Without([s.current], s.current) == [];
    StepInv(s1, Create(u, p));
    var s2 := Step(s1, Create(u, p));
    assert s2.queues[p] == [s.current] + [u] == [s.current, u];
    LoneYielderKeepsProcessor(s2, p, n, deadline);
  }

  lemma YieldFrame(s: Sched, u: int)
    requires Inv(s) && s.lock == 0 && s.current != NULL
    requires s.current in s.threads && s.threads[s.current].priority < |s.queues|
    ensures var s' := Step(s, Yield);
            && s'.threads.Keys == s.threads.Keys && s'.sleep == s.sleep && s'.now == s.now && s'.lock == 0
            && s'.slice == s.slice
            && s'.period == s.period && |s'.queues| == |s.queues|
            && (forall q :: 0 <= q < |s.queues| && q != s.threads[s.current].priority ==> s'.queues[q] == s.queues[q])
            && (forall t :: t in s.threads ==>
                  s'.threads[t].priority == s.threads[t].priority && s'.threads[t].timeout == s.threads[t].timeout)
  {
    hide Next;
    assert ThreadOk(s, s.current);
  }

  /**
   With someone waiting behind it, the head loses the processor when its slice is over if and only if
   it is RUNNING.
   */
  lemma TurnPassesExactlyWhenRunning(s: Sched, p: nat, deadline: nat)
    requires Leads(s, p) && |s.queues[p]| > 1 && Quiet(s, p, deadline) && s.now + s.slice <= deadline
    ensures Ticks(s, s.slice).current == (if Sliced(s) then s.queues[p][1] else s.current)
    ensures Ticks(s, s.slice).current != s.current <==> Sliced(s)
  {
    HeadApart(s, p, 1);
    hide Inv, Quiet, Ticks, Turn;
    TurnLater(0, 0, s.slice, s.period);
    RoundRobin(s, p, s.slice, deadline);
  }

  lemma PrefixTrans(a: seq<int>, b: seq<int>, c: seq<int>)
    requires a <= b && b <= c
    ensures a <= c
  {
  }

  lemma PrefixTail(a: seq<int>, b: seq<int>)
    requires a != [] && a <= b
    ensures a[1..] <= b[1..]
  {
  }
}
