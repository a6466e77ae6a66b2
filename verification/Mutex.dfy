/**
 The priority-inheritance mutex (kernel/mutex.c) over the scheduler, as the calls are written: they
 change a thread's priority first and take it out of its run queue afterwards, which is then another
 queue; and they insert a waiter in front of the first one behind a node that is not there.  Exactly
 when a call keeps the scheduler's lists and the mutex's own list in order.
 */
module Mutex {
  import opened Seqs
  import opened SchedModel
  import opened SchedRuns
  import opened SchedMisuse
  import opened SchedEffects

  /** A mutex; those who wait for it are in wait list `list` of the scheduler. */
  datatype Mutex = Mutex(owner: int, count: nat, orig: nat, list: nat)

  datatype Outcome = Locked | Busy | Queued | Fault | Unlocked | Refused

  // ---------- the calls ----------

  /**
   `vibe_list_remove` from the run queue of its priority, of a node that is in run queue `was`: its
   neighbours there let go of it, and the ends of the wrong list are set where it has none.
   */
  function RemoveElsewhere(r: Raw, t: int, was: nat): Raw
    requires Placed(r, t) && was < |r.s.queues|
  {
    var p := r.s.threads[t].priority;
    var q := r.s.queues[was];
    var r1 := r.(counts := r.counts[p := r.counts[p] - 1]);
    if t !in q || q == [t] then r1.(s := r.s.(queues := r.s.queues[p := []]))
    else if q[0] == t || q[|q| - 1] == t then r1.(tangled := true)
    else r1.(s := r.s.(queues := r.s.queues[was := Without(q, t)]))
  }

  function Priced(s: Sched, t: int, priority: nat): Sched
    requires t in s.threads
  {
    s.(threads := s.threads[t := s.threads[t].(priority := priority)])
  }

  /** A new priority, as both calls give it: the field, and for a READY thread the queue */
  function Reprice(r: Raw, t: int, priority: nat): Raw
    requires Placed(r, t) && priority < |r.s.queues|
  {
    var was := r.s.threads[t].priority;
    var r1 := r.(s := Priced(r.s, t, priority));
    if !r.s.threads[t].mode.Ready? then r1
    else RawEnqueue(if priority == was then RawDequeue(r1, t) else RemoveElsewhere(r1, t, was), t)
  }

  /** The first waiter of lower priority, or the end of the list */
  function WaitPlace(s: Sched, waiters: seq<int>, priority: nat): (i: nat)
    requires forall k {:trigger waiters[k]} :: 0 <= k < |waiters| ==> waiters[k] in s.threads
    ensures i <= |waiters|
    ensures i < |waiters| ==> s.threads[waiters[i]].priority < priority
    ensures forall k :: 0 <= k < i ==> priority <= s.threads[waiters[k]].priority
  {
    if waiters == [] || s.threads[waiters[0]].priority < priority then 0
    else 1 + WaitPlace(s, waiters[1..], priority)
  }

  ghost predicate Callable(r: Raw, m: Mutex)
  {
    && Placed(r, r.s.current) && (m.owner != NULL ==> Placed(r, m.owner)) && m.list < |r.s.waits| == |r.waitCounts|
    && (forall i {:trigger r.s.waits[m.list][i]} :: 0 <= i < |r.s.waits[m.list]| ==> Placed(r, r.s.waits[m.list][i]))
  }

  /** The caller has to wait for another thread. */
  predicate Contended(s: Sched, m: Mutex, wait: bool) { m.owner != s.current && m.owner != NULL && wait }

  function Boosted(r: Raw, m: Mutex): Raw
    requires Callable(r, m) && m.owner != NULL
  {
    var p := r.s.threads[r.s.current].priority;
    if p > r.s.threads[m.owner].priority then Reprice(r, m.owner, p) else r
  }

  /** `vibe_mutex_lock` up to the point where the caller has the mutex, gives up, or is switched away from */
  function LockCall(r: Raw, m: Mutex, wait: bool, timeout: nat): (Raw, Mutex, Outcome)
    requires Callable(r, m)
  {
    var self := r.s.current;
    if m.owner == self then (r, m.(count := m.count + 1), Locked)
    else if m.owner == NULL then (r, m.(owner := self, count := 1, orig := r.s.threads[self].priority), Locked)
    else if !wait then (r, m, Busy)
    else
      var r1 := RawDequeue(Boosted(r, m), self);
      var i := WaitPlace(r1.s, r1.s.waits[m.list], r1.s.threads[self].priority);
      if i == 0 && r1.s.waits[m.list] != [] then (r1, m, Fault)
      else (RawResched(RawWaitAt(r1, self, m.list, i, timeout)), m, Queued)
  }

  /** `vibe_mutex_unlock` */
  function UnlockCall(r: Raw, m: Mutex): (Raw, Mutex, Outcome)
    requires Callable(r, m) && m.orig < |r.s.queues|
  {
    var self := r.s.current;
    if m.owner != self then (r, m, Refused)
    else if m.count > 1 then (r, m.(count := m.count - 1), Unlocked)
    else
      var r1 := Reprice(r, self, m.orig);
      if r.s.waits[m.list] == [] then (RawResched(r1), m.(owner := NULL, count := 0), Unlocked)
      else
        var next := r.s.waits[m.list][0];
        (RawGive(r1, m.list), m.(owner := next, count := 1, orig := r.s.threads[next].base), Unlocked)
  }

  // ---------- a new priority ----------

  /** Damage that later steps do not mend: a wrong counter, or a thread in the queue of another priority */
  ghost predicate Broken(r: Raw, t: int, o: nat)
  {
    r.tangled
    || (&& o < |r.s.queues| == |r.counts|
        && (r.counts[o] != |r.s.queues[o]|
            || (t in r.s.queues[o] && t in r.s.threads && r.s.threads[t].priority != o)))
  }

  lemma BrokenShows(r: Raw, t: int, o: nat)
    requires Broken(r, t, o)
    ensures !Consistent(r)
  {
    if !r.tangled && r.counts[o] == |r.s.queues[o]| {
      assert !QueueOk(r.s, o);
    }
  }

  lemma BrokenStays(r: Raw, u: int, t: int, o: nat)
    requires Broken(r, t, o) && Placed(r, u)
    ensures Broken(RawEnqueue(r, u), t, o)
    ensures r.s.threads[u].priority != o ==> Broken(RawDequeue(r, u), t, o)
    ensures Broken(RawResched(r), t, o)
  {
    ReschedFrame(r.s);
  }

  /** A READY or RUNNING thread that gets another priority breaks the queue it was in. */
  lemma RepriceBreaks(s: Sched, t: int, priority: nat)
    requires Inv(s) && t in s.threads && Runnable(s.threads[t]) && priority < PRIORITIES
    requires priority != s.threads[t].priority
    ensures Placed(Of(s), t) && Broken(Reprice(Of(s), t, priority), t, s.threads[t].priority)
  {
    OfConsistent(s);
    assert ThreadOk(s, t);
    var o := s.threads[t].priority;
    assert QueueOk(s, o);
    if s.threads[t].mode.Ready? {
      var r1 := Of(s).(s := Priced(s, t, priority));
      var r2 := RemoveElsewhere(r1, t, o);
      if s.queues[o] != [t] && s.queues[o][0] != t && s.queues[o][|s.queues[o]| - 1] != t {
        WithoutLength(s.queues[o], t);
      }
    }
  }

  /** A thread in no run queue can be given any priority. */
  lemma RepriceParked(s: Sched, t: int, priority: nat)
    requires Inv(s) && t in s.threads && !Runnable(s.threads[t]) && priority < PRIORITIES
    ensures Placed(Of(s), t) && Inv(Priced(s, t, priority)) && Reprice(Of(s), t, priority) == Of(Priced(s, t, priority))
  {
    OfConsistent(s);
    var s' := Priced(s, t, priority);
    forall q | 0 <= q < PRIORITIES
      ensures QueueOk(s', q)
    {
      assert QueueOk(s, q);
    }
    forall u | u in s'.threads
      ensures ThreadOk(s', u)
    {
      assert ThreadOk(s, u);
    }
    SleepKept(s, s');
    WaitsUnchanged(s, s');
  }

  // ---------- locking ----------

  ghost predicate Ahead(s: Sched, waiters: seq<int>, j: nat, k: nat)
    requires j < k < |waiters|
  {
    && waiters[j] in s.threads && waiters[k] in s.threads
    && s.threads[waiters[k]].priority <= s.threads[waiters[j]].priority
  }

  /** Those who wait are in the order of falling priority. */
  ghost predicate Line(s: Sched, waiters: seq<int>)
  {
    forall j, k {:trigger Ahead(s, waiters, j, k)} :: 0 <= j < k < |waiters| ==> Ahead(s, waiters, j, k)
  }

  ghost predicate MutexOk(s: Sched, m: Mutex)
  {
    && m.list < |s.waits| && m.orig < PRIORITIES
    && (if m.owner == NULL then s.waits[m.list] == [] && m.count == 0 else m.owner in s.threads && m.count >= 1)
    && m.owner !in s.waits[m.list] && Line(s, s.waits[m.list])
  }

  /** Nobody has to be boosted out of a run queue, and nobody goes ahead of the first waiter. */
  predicate Smooth(s: Sched, m: Mutex)
    requires s.current in s.threads && m.owner in s.threads && m.list < |s.waits|
    requires s.waits[m.list] != [] ==> s.waits[m.list][0] in s.threads
  {
    var p := s.threads[s.current].priority;
    && (s.threads[m.owner].mode.Ready? ==> p <= s.threads[m.owner].priority)
    && (s.waits[m.list] != [] ==> p <= s.threads[s.waits[m.list][0]].priority)
  }

  /** A waiter has a control block, whose mode says so. */
  lemma WaiterAt(s: Sched, k: nat, i: nat)
    requires Inv(s) && k < |s.waits| && i < |s.waits[k]|
    ensures s.waits[k][i] in s.threads && s.threads[s.waits[k][i]].mode == Waiting(k) && Placed(Of(s), s.waits[k][i])
  {
    OfConsistent(s);
    var t := s.waits[k][i];
    assert WaitOk(s, k) && t in s.waits[k];
  }

  lemma CallableNow(s: Sched, m: Mutex)
    requires Inv(s) && s.current in s.threads && MutexOk(s, m)
    ensures Callable(Of(s), m) && (s.waits[m.list] != [] ==> s.waits[m.list][0] in s.threads)
    ensures Runnable(s.threads[s.current]) ==> s.current !in s.waits[m.list]
  {
    OfConsistent(s);
    forall i | 0 <= i < |s.waits[m.list]|
      ensures Placed(Of(s), s.waits[m.list][i]) && s.threads[s.waits[m.list][i]].mode == Waiting(m.list)
    {
      WaiterAt(s, m.list, i);
    }
  }

  lemma PriorityInRange(s: Sched, t: int)
    requires Inv(s) && t in s.threads
    ensures s.threads[t].priority < PRIORITIES && s.threads[t].base < PRIORITIES && |s.queues| == PRIORITIES
    ensures t != NULL
  {
    assert ThreadOk(s, t);
  }

  lemma RepriceFrame(r: Raw, t: int, priority: nat)
    requires Placed(r, t) && priority < |r.s.queues|
    ensures var r' := Reprice(r, t, priority);
            && r'.s.current == r.s.current && |r'.s.queues| == |r.s.queues| && |r'.counts| == |r.counts|
            && r'.s.waits == r.s.waits && r'.waitCounts == r.waitCounts
            && t in r'.s.threads && r'.s.threads[t].priority == priority
            && forall u :: u in r.s.threads && u != t ==> u in r'.s.threads && r'.s.threads[u] == r.s.threads[u]
  {
  }

  /** A READY owner of lower priority is what the boost is for, and there it breaks the owner's queue. */
  lemma LockBreaks(s: Sched, m: Mutex, timeout: nat)
    requires Inv(s) && CurrentQueued(s) && MutexOk(s, m) && Contended(s, m, true)
    requires s.threads[m.owner].mode.Ready? && s.threads[m.owner].priority < s.threads[s.current].priority
    ensures Callable(Of(s), m) && !Consistent(LockCall(Of(s), m, true, timeout).0)
  {
    hide Inv, Reschedule, Reprice, Consistent;
    CallableNow(s, m);
    PriorityInRange(s, s.current);
    var self, o := s.current, s.threads[m.owner].priority;
    RepriceBreaks(s, m.owner, s.threads[self].priority);
    var r1 := Boosted(Of(s), m);
    RepriceFrame(Of(s), m.owner, s.threads[self].priority);
    BrokenStays(r1, self, m.owner, o);
    var r2 := RawDequeue(r1, self);
    BrokenShows(r2, m.owner, o);
    var i := WaitPlace(r2.s, r2.s.waits[m.list], r2.s.threads[self].priority);
    var r3 := RawWaitAt(r2, self, m.list, i, timeout);
    assert Broken(r3, m.owner, o);
    BrokenDecision(r3, m.owner, o);
  }

  lemma BrokenDecision(r: Raw, t: int, o: nat)
    requires Broken(r, t, o)
    ensures !Consistent(RawResched(r))
  {
    ReschedFrame(r.s);
    BrokenShows(RawResched(r), t, o);
  }

  /** The queue of waiters with one more in its place */
  lemma Lengthened(s: Sched, s': Sched, waiters: seq<int>, i: nat, t: int)
    requires Line(s, waiters) && i <= |waiters| && t in s'.threads
    requires forall k {:trigger waiters[k]} :: 0 <= k < |waiters| ==>
               && waiters[k] in s.threads && waiters[k] in s'.threads
               && s'.threads[waiters[k]].priority == s.threads[waiters[k]].priority
    requires forall k {:trigger waiters[k]} :: 0 <= k < i ==>
               waiters[k] in s.threads && s'.threads[t].priority <= s.threads[waiters[k]].priority
    requires i < |waiters| ==> waiters[i] in s.threads && s.threads[waiters[i]].priority < s'.threads[t].priority
    ensures Line(s', waiters[..i] + [t] + waiters[i..])
  {
    var more := waiters[..i] + [t] + waiters[i..];
    forall j, k | 0 <= j < k < |more|
      ensures Ahead(s', more, j, k)
    {
      assert j != i ==> more[j] == waiters[if j < i then j else j - 1];
      assert k != i ==> more[k] == waiters[if k < i then k else k - 1];
      if j != i && k != i {
        assert Ahead(s, waiters, if j < i then j else j - 1, if k < i then k else k - 1);
      } else if j == i && k > i + 1 {
        assert Ahead(s, waiters, i, k - 1);
      }
    }
  }

  /** The owner's priority, raised to that of the caller where it is lower */
  function Raised(s: Sched, owner: int): Sched
    requires s.current in s.threads && owner in s.threads
  {
    var p := s.threads[s.current].priority;
    if s.threads[owner].priority < p then Priced(s, owner, p) else s
  }

  lemma BoostParked(s: Sched, m: Mutex)
    requires Inv(s) && CurrentQueued(s) && MutexOk(s, m) && Contended(s, m, true) && Callable(Of(s), m)
    requires s.threads[m.owner].mode.Ready? ==> s.threads[s.current].priority <= s.threads[m.owner].priority
    ensures Inv(Raised(s, m.owner)) && Boosted(Of(s), m) == Of(Raised(s, m.owner))
  {
    hide Reprice;
    PriorityInRange(s, s.current);
    assert ThreadOk(s, m.owner);
    if s.threads[m.owner].priority < s.threads[s.current].priority {
      RepriceParked(s, m.owner, s.threads[s.current].priority);
    }
  }

  /** The current thread out of its queue and into a wait list, anywhere in it */
  lemma BlockAt(s: Sched, k: nat, i: nat, timeout: nat)
    requires Inv(s) && CurrentQueued(s) && s.current != s.idle && k < |s.waits| && i <= |s.waits[k]|
    ensures Placed(Of(s), s.current) && |s.waits| == |Of(s).waitCounts|
    ensures var r := RawResched(RawWaitAt(RawDequeue(Of(s), s.current), s.current, k, i, timeout));
            && Consistent(r) && Inv(r.s)
            && r.s == Reschedule(WaitAt(Dequeue(s, s.current), s.current, k, i, timeout))
            && (s.lock == 0 ==> TopRuns(r.s))
  {
    hide Reschedule;
    OfConsistent(s);
    var t := s.current;
    assert ThreadOk(s, t);
    DequeueCounted(Of(s), t);
    DetachRunnable(s, t);
    AttachWaiter(Dequeue(s, t), t, k, i, timeout);
    var r := RawWaitAt(RawDequeue(Of(s), t), t, k, i, timeout);
    WaitAtCounted(RawDequeue(Of(s), t), t, k, i, timeout);
    ReschedCounted(r);
    RescheduleInv(r.s);
    if s.lock == 0 {
      TopRunsAfterReschedule(r.s);
    }
  }

  /** The scheduler with the caller in line at `i` */
  function InLine(s: Sched, m: Mutex, i: nat, timeout: nat): Sched
    requires s.current in s.threads && s.threads[s.current].priority < |s.queues|
    requires m.list < |s.waits| && i <= |s.waits[m.list]|
  {
    Reschedule(WaitAt(Dequeue(s, s.current), s.current, m.list, i, timeout))
  }

  lemma InLineOk(s: Sched, m: Mutex, i: nat, timeout: nat)
    requires Inv(s) && CurrentQueued(s) && MutexOk(s, m) && m.owner != NULL && m.owner != s.current
    requires s.threads[s.current].priority < |s.queues| && i <= |s.waits[m.list]| && s.current !in s.waits[m.list]
    requires forall k {:trigger s.waits[m.list][k]} :: 0 <= k < |s.waits[m.list]| ==>
               && s.waits[m.list][k] in s.threads
               && (k < i ==> s.threads[s.current].priority <= s.threads[s.waits[m.list][k]].priority)
               && (k == i ==> s.threads[s.waits[m.list][k]].priority < s.threads[s.current].priority)
    ensures var s' := InLine(s, m, i, timeout);
            MutexOk(s', m) && WaitsAdd(s, s', m) && PricesAre(s, s')
  {
    hide Inv, Reschedule, Line;
    var s3 := WaitAt(Dequeue(s, s.current), s.current, m.list, i, timeout);
    ReschedFrame(s3);
    var s', waiters := Reschedule(s3), s.waits[m.list];
    forall k | 0 <= k < |waiters|
      ensures waiters[k] in s'.threads && s'.threads[waiters[k]].priority == s.threads[waiters[k]].priority
    {
      var w := waiters[k];
      assert w in s.threads && w in s3.threads && s3.threads[w].priority == s.threads[w].priority;
    }
    Lengthened(s, s', waiters, i, s.current);
    TurnFound(s, waiters, i);
  }

  lemma RaisedOk(s: Sched, m: Mutex)
    requires Inv(s) && CurrentQueued(s) && MutexOk(s, m) && m.owner in s.threads
    ensures MutexOk(Raised(s, m.owner), m)
  {
    var s1, waiters := Raised(s, m.owner), s.waits[m.list];
    forall j, k | 0 <= j < k < |waiters|
      ensures Ahead(s1, waiters, j, k)
    {
      assert Ahead(s, waiters, j, k) && waiters[j] in waiters && waiters[k] in waiters;
    }
  }

  /** Otherwise the caller blocks, and takes its place among the waiters. */
  lemma LockWaits(s: Sched, m: Mutex, timeout: nat)
    requires Inv(s) && CurrentQueued(s) && s.current != s.idle && MutexOk(s, m) && Contended(s, m, true)
    requires (s.waits[m.list] != [] ==> s.waits[m.list][0] in s.threads) && Smooth(s, m)
    ensures Callable(Of(s), m)
    ensures var (r', m', out) := LockCall(Of(s), m, true, timeout);
            && out == Queued && m' == m && Consistent(r') && Inv(r'.s) && MutexOk(r'.s, m)
            && WaitsAdd(s, r'.s, m) && PricesAre(Raised(s, m.owner), r'.s)
            && (s.lock == 0 ==> TopRuns(r'.s))
  {
    hide Inv, Reschedule, Reprice, Consistent, Line, Boosted, WaitsOk, WaitsAdd, PricesAre, TopRuns;
    CallableNow(s, m);
    PriorityInRange(s, s.current);
    BoostParked(s, m);
    RaisedOk(s, m);
    var s1, self, waiters := Raised(s, m.owner), s.current, s.waits[m.list];
    forall k | 0 <= k < |waiters|
      ensures waiters[k] in s1.threads && waiters[k] != m.owner && waiters[k] != self
    {
      WaiterAt(s, m.list, k);
      assert waiters[k] in waiters;
    }
    var i := WaitPlace(Dequeue(s1, self), waiters, s1.threads[self].priority);
    BlockAt(s1, m.list, i, timeout);
    InLineOk(s1, m, i, timeout);
    SameLine(s, s1, InLine(s1, m, i, timeout), m);
  }

  lemma SameLine(s: Sched, s1: Sched, s': Sched, m: Mutex)
    requires s1.waits == s.waits && s1.current == s.current && WaitsAdd(s1, s', m)
    requires s.current in s.threads && s1.current in s1.threads
    requires s1.threads[s1.current].priority == s.threads[s.current].priority
    requires forall k {:trigger s.waits[m.list][k]} :: 0 <= k < |s.waits[m.list]| ==>
               && s.waits[m.list][k] in s.threads && s.waits[m.list][k] in s1.threads
               && s1.threads[s.waits[m.list][k]].priority == s.threads[s.waits[m.list][k]].priority
    ensures WaitsAdd(s, s', m)
  {
    var i :| 0 <= i <= |s1.waits[m.list]| && TurnAt(s1, s1.waits[m.list], i)
             && s'.waits[m.list] == s1.waits[m.list][..i] + [s1.current] + s1.waits[m.list][i..];
    assert TurnAt(s, s.waits[m.list], i);
  }

  /** The caller's turn comes after those who are not below it, and before the rest. */
  ghost predicate TurnAt(s: Sched, waiters: seq<int>, i: nat)
  {
    && s.current in s.threads
    && forall k {:trigger waiters[k]} :: 0 <= k < |waiters| ==>
         && waiters[k] in s.threads
         && (k < i <==> s.threads[s.current].priority <= s.threads[waiters[k]].priority)
  }

  lemma TurnFound(s: Sched, waiters: seq<int>, i: nat)
    requires Line(s, waiters) && s.current in s.threads && i <= |waiters|
    requires forall k {:trigger waiters[k]} :: 0 <= k < |waiters| ==>
               && waiters[k] in s.threads
               && (k < i ==> s.threads[s.current].priority <= s.threads[waiters[k]].priority)
               && (k == i ==> s.threads[waiters[k]].priority < s.threads[s.current].priority)
    ensures TurnAt(s, waiters, i)
  {
    forall k | i < k < |waiters|
      ensures s.threads[waiters[k]].priority < s.threads[s.current].priority
    {
      assert Ahead(s, waiters, i, k);
    }
  }

  /** One wait list has got the caller, in its turn, no other changed. */
  ghost predicate WaitsAdd(s: Sched, s': Sched, m: Mutex)
  {
    && m.list < |s.waits| == |s'.waits|
    && (forall k {:trigger s'.waits[k]} :: 0 <= k < |s.waits| && k != m.list ==> s'.waits[k] == s.waits[k])
    && exists i :: 0 <= i <= |s.waits[m.list]| && TurnAt(s, s.waits[m.list], i)
         && s'.waits[m.list] == s.waits[m.list][..i] + [s.current] + s.waits[m.list][i..]
  }

  ghost predicate PricesAre(s: Sched, s': Sched)
  {
    forall t {:trigger t in s.threads} {:trigger s'.threads[t]} :: t in s.threads ==>
      t in s'.threads && s'.threads[t].priority == s.threads[t].priority
  }

  /** A caller that outranks the first waiter is inserted behind no node at all. */
  lemma LockFaults(s: Sched, m: Mutex, timeout: nat)
    requires Inv(s) && CurrentQueued(s) && MutexOk(s, m) && Contended(s, m, true) && s.waits[m.list] != []
    requires s.threads[m.owner].mode.Ready? ==> s.threads[s.current].priority <= s.threads[m.owner].priority
    requires s.waits[m.list][0] in s.threads
    requires s.threads[s.waits[m.list][0]].priority < s.threads[s.current].priority
    ensures Callable(Of(s), m) && LockCall(Of(s), m, true, timeout).2 == Fault
  {
    hide Inv, Reprice, Boosted, Line;
    CallableNow(s, m);
    BoostParked(s, m);
    assert s.waits[m.list][0] in s.waits[m.list];
  }

  /**
   Locking keeps the scheduler's lists consistent and does not fault, if and only if the caller need
   not wait, or neither outranks an owner that is READY nor the first of those who wait.  Then the
   waiters stay in the order of their priorities.
   */
  lemma LockExact(s: Sched, m: Mutex, wait: bool, timeout: nat)
    requires Inv(s) && CurrentQueued(s) && s.current != s.idle && MutexOk(s, m)
    ensures Callable(Of(s), m) && (s.waits[m.list] != [] ==> s.waits[m.list][0] in s.threads)
    ensures var (r', m', out) := LockCall(Of(s), m, wait, timeout);
            && (Consistent(r') && out != Fault <==> (Contended(s, m, wait) ==> Smooth(s, m)))
            && (Consistent(r') && out != Fault ==> Inv(r'.s) && MutexOk(r'.s, m'))
            && (out == Locked <==> m.owner == s.current || m.owner == NULL)
  {
    CallableNow(s, m);
    PriorityInRange(s, s.current);
    if Contended(s, m, wait) {
      hide Inv, LockCall, Consistent, Line;
      LockOutcome(s, m, timeout);
      if Smooth(s, m) {
        LockWaits(s, m, timeout);
      } else if s.threads[m.owner].mode.Ready? && s.threads[m.owner].priority < s.threads[s.current].priority {
        LockBreaks(s, m, timeout);
      } else {
        LockFaults(s, m, timeout);
      }
    } else {
      hide Inv, Consistent, Line;
      ConsistentNow(s);
    }
  }

  /**
   What a lock does that need not wait: the owner's next lock counts up and nothing else; a free mutex is
   taken once, with the caller's priority kept for later; and a lock that may not wait changes nothing.
   */
  lemma LockEffect(s: Sched, m: Mutex, wait: bool, timeout: nat)
    requires Inv(s) && CurrentQueued(s) && MutexOk(s, m) && !Contended(s, m, wait)
    ensures Callable(Of(s), m)
    ensures var (r', m', out) := LockCall(Of(s), m, wait, timeout);
            && r' == Of(s) && m'.list == m.list
            && (m.owner == s.current ==>
                  out == Locked && m'.owner == s.current && m'.count == m.count + 1 && m'.orig == m.orig)
            && (m.owner == NULL ==>
                  out == Locked && m'.owner == s.current && m'.count == 1 && m'.orig == s.threads[s.current].priority)
            && (m.owner != s.current && m.owner != NULL ==> out == Busy && m' == m)
  {
    CallableNow(s, m);
    PriorityInRange(s, s.current);
    hide Inv, Consistent, Line;
  }

  /**
   A lock that waits, where that does no damage: the caller is in line and waiting, its priority goes to an
   owner of lower priority, and to nobody else, and the top thread runs.
   */
  lemma LockInherits(s: Sched, m: Mutex, timeout: nat)
    requires Inv(s) && CurrentQueued(s) && s.current != s.idle && MutexOk(s, m) && Contended(s, m, true)
    requires (s.waits[m.list] != [] ==> s.waits[m.list][0] in s.threads) && Smooth(s, m)
    ensures Callable(Of(s), m)
    ensures var (r', m', out) := LockCall(Of(s), m, true, timeout);
            && out == Queued && m' == m && WaitsAdd(s, r'.s, m) && Inherits(s, r'.s, m.owner)
            && (s.lock == 0 ==> TopRuns(r'.s))
  {
    hide Inv, LockCall, Consistent, Callable, Line, WaitsAdd, TopRuns, PricesAre, Inherits, Raised, Smooth;
    LockWaits(s, m, timeout);
    RaisedInherits(s, LockCall(Of(s), m, true, timeout).0.s, m.owner);
  }

  lemma RaisedInherits(s: Sched, s': Sched, owner: int)
    requires s.current in s.threads && owner in s.threads && PricesAre(Raised(s, owner), s')
    ensures Inherits(s, s', owner)
  {
    forall t | t in s.threads
      ensures t in s'.threads && s'.threads[t].priority == Raised(s, owner).threads[t].priority
    {
      assert t in Raised(s, owner).threads;
    }
  }

  /** The owner has the higher of its own and the caller's priority, everybody else the same as before. */
  ghost predicate Inherits(s: Sched, s': Sched, owner: int)
    requires s.current in s.threads
  {
    forall t {:trigger s'.threads[t]} :: t in s.threads ==>
      && t in s'.threads
      && s'.threads[t].priority ==
         if t == owner && s.threads[t].priority < s.threads[s.current].priority then s.threads[s.current].priority
         else s.threads[t].priority
  }

  lemma ConsistentNow(s: Sched)
    requires Inv(s)
    ensures Consistent(Of(s))
  {
    OfConsistent(s);
  }

  lemma LockOutcome(s: Sched, m: Mutex, timeout: nat)
    requires Callable(Of(s), m) && Contended(s, m, true)
    ensures LockCall(Of(s), m, true, timeout).2 != Locked
  {
    hide Boosted, RawDequeue, RawWaitAt;
  }

  // ---------- a second mutex ----------

  /** Raising the owner's priority leaves it where it is in the list it waits in itself. */
  predicate InPlace(s: Sched, owner: int, waiters: seq<int>)
    requires s.current in s.threads
  {
    forall j, k :: 0 <= j < k < |waiters| && waiters[k] == owner && waiters[j] in s.threads ==>
      s.threads[s.current].priority <= s.threads[waiters[j]].priority
  }

  /**
   Another mutex stays in order through a lock that waits, if and only if the owner does not wait for
   that one too, behind somebody whom the caller outranks.
   */
  lemma OtherMutexExact(s: Sched, m: Mutex, other: Mutex, timeout: nat)
    requires Inv(s) && CurrentQueued(s) && s.current != s.idle && MutexOk(s, m) && Contended(s, m, true)
    requires (s.waits[m.list] != [] ==> s.waits[m.list][0] in s.threads) && Smooth(s, m)
    requires MutexOk(s, other) && other.list != m.list
    ensures Callable(Of(s), m)
    ensures MutexOk(LockCall(Of(s), m, true, timeout).0.s, other) <==>
              s.threads[m.owner].priority >= s.threads[s.current].priority || InPlace(s, m.owner, s.waits[other.list])
  {
    LockWaits(s, m, timeout);
    hide Inv, LockCall, Consistent;
    OtherLine(s, m.owner, other, LockCall(Of(s), m, true, timeout).0.s);
  }

  lemma OtherLine(s: Sched, owner: int, other: Mutex, s': Sched)
    requires Inv(s) && s.current in s.threads && owner in s.threads && MutexOk(s, other)
    requires PricesAre(Raised(s, owner), s') && |s'.waits| == |s.waits| && s'.waits[other.list] == s.waits[other.list]
    ensures MutexOk(s', other) <==>
              s.threads[owner].priority >= s.threads[s.current].priority || InPlace(s, owner, s.waits[other.list])
  {
    var waiters, p := s.waits[other.list], s.threads[s.current].priority;
    assert other.owner != NULL ==> other.owner in Raised(s, owner).threads;
    forall k | 0 <= k < |waiters|
      ensures waiters[k] in s.threads && waiters[k] in s'.threads
      ensures s'.threads[waiters[k]].priority == Raised(s, owner).threads[waiters[k]].priority
    {
      WaiterAt(s, other.list, k);
      assert waiters[k] in Raised(s, owner).threads;
    }
    hide Inv, PricesAre;
    if s.threads[owner].priority >= p || InPlace(s, owner, waiters) {
      forall j, k | 0 <= j < k < |waiters|
        ensures Ahead(s', waiters, j, k)
      {
        assert Ahead(s, waiters, j, k) && waiters[j] in s.threads;
      }
    } else {
      var j, k :| 0 <= j < k < |waiters| && waiters[k] == owner && waiters[j] in s.threads
                  && s.threads[waiters[j]].priority < p;
      Once(s, other.list, j, k);
      assert !Ahead(s', waiters, j, k);
    }
  }

  lemma Once(s: Sched, k: nat, i: nat, j: nat)
    requires Inv(s) && k < |s.waits| && i < j < |s.waits[k]|
    ensures s.waits[k][i] != s.waits[k][j]
  {
    assert WaitOk(s, k);
  }

  // ---------- unlocking ----------

  /** The last unlock restores the priority; where that changes it, the caller is left in the wrong queue. */
  lemma UnlockBreaks(s: Sched, m: Mutex)
    requires Inv(s) && CurrentQueued(s) && MutexOk(s, m) && m.owner == s.current && m.count == 1
    requires m.orig != s.threads[s.current].priority
    ensures Callable(Of(s), m) && |s.queues| == PRIORITIES && !Consistent(UnlockCall(Of(s), m).0)
  {
    hide Inv, Reschedule, Reprice, Consistent, Line;
    CallableNow(s, m);
    PriorityInRange(s, s.current);
    var self, o := s.current, s.threads[s.current].priority;
    RepriceBreaks(s, self, m.orig);
    var r1 := Reprice(Of(s), self, m.orig);
    RepriceFrame(Of(s), self, m.orig);
    if s.waits[m.list] == [] {
      BrokenDecision(r1, self, o);
    } else {
      var next := s.waits[m.list][0];
      WaiterAt(s, m.list, 0);
      assert next in s.waits[m.list];
      var r2 := r1.(s := TakeWaiter(r1.s, m.list), waitCounts := r1.waitCounts[m.list := r1.waitCounts[m.list] - 1]);
      BrokenStays(r2, next, self, o);
      BrokenDecision(RawEnqueue(r2, next), self, o);
    }
  }

  /** The caller at the tail of its queue, if it is READY */
  function Requeued(s: Sched): Sched
    requires s.current in s.threads && s.threads[s.current].priority < |s.queues|
  {
    if s.threads[s.current].mode.Ready? then Enqueue(Dequeue(s, s.current), s.current) else s
  }

  lemma RepriceSame(s: Sched)
    requires Inv(s) && CurrentQueued(s)
    ensures Placed(Of(s), s.current) && Inv(Requeued(s))
    ensures Reprice(Of(s), s.current, s.threads[s.current].priority) == Of(Requeued(s))
    ensures Requeued(s).threads.Keys == s.threads.Keys && Requeued(s).waits == s.waits && Requeued(s).lock == s.lock
    ensures forall u :: u in s.threads && u != s.current ==> Requeued(s).threads[u] == s.threads[u]
  {
    OfConsistent(s);
    var t := s.current;
    assert ThreadOk(s, t);
    assert Priced(s, t, s.threads[t].priority).threads == s.threads;
    if s.threads[t].mode.Ready? {
      DetachRunnable(s, t);
      AttachRunnable(Dequeue(s, t), t);
      DequeueCounted(Of(s), t);
      EnqueueCounted(RawDequeue(Of(s), t), t);
      CountedIsOf(RawEnqueue(RawDequeue(Of(s), t), t));
    }
  }

  lemma CountedIsOf(r: Raw)
    requires Counted(r)
    ensures r == Of(r.s)
  {
    assert r.counts == Of(r.s).counts && r.waitCounts == Of(r.s).waitCounts;
  }

  lemma UnlockHandsOver(s: Sched, m: Mutex)
    requires Inv(s) && CurrentQueued(s) && MutexOk(s, m) && m.owner == s.current && m.count == 1
    requires m.orig == s.threads[s.current].priority
    ensures Callable(Of(s), m) && |s.queues| == PRIORITIES
    ensures var (r', m', _) := UnlockCall(Of(s), m);
            && Consistent(r') && Inv(r'.s) && MutexOk(r'.s, m')
            && (s.waits[m.list] != [] ==> m'.owner in r'.s.threads && Runnable(r'.s.threads[m'.owner]))
            && (s.lock == 0 ==> TopRuns(r'.s))
  {
    hide Inv, Reschedule, Reprice, Step, Consistent, Requeued, Line, TopRuns;
    CallableNow(s, m);
    PriorityInRange(s, s.current);
    RepriceSame(s);
    var s1, waiters := Requeued(s), s.waits[m.list];
    if waiters == [] {
      Decided(s1);
      NullIsNoThread(s);
      NobodyInLine(Reschedule(s1));
    } else {
      WaiterAt(s, m.list, 0);
      assert waiters[0] in waiters;
      GiveExact(s1, m.list);
      StepInv(s1, Give(m.list));
      GivePicksTop(s1, m.list);
      ThreadGetsWhatWasAsked(s1, Give(m.list));
      var s' := Step(s1, Give(m.list));
      WaitsStep(s1, Give(m.list), m.list);
      forall k | 0 < k < |waiters|
        ensures waiters[k] in s'.threads && waiters[k] in s.threads && waiters[k] != waiters[0]
        ensures s'.threads[waiters[k]].priority == s.threads[waiters[k]].priority
      {
        WaiterAt(s, m.list, k);
        Once(s, m.list, 0, k);
        assert waiters[k] in waiters;
        OthersUndisturbed(s1, Give(m.list), waiters[k]);
      }
      Shortened(s, s', waiters);
      PriorityInRange(s, waiters[0]);
    }
  }

  lemma GivePicksTop(s: Sched, k: nat)
    requires Inv(s) && Allowed(s, Give(k)) && s.waits[k] != []
    ensures s.lock == 0 ==> TopRuns(Step(s, Give(k)))
  {
    hide Reschedule;
    DecisionKeepsLock(Prepared(s, Give(k)));
    if s.lock == 0 {
      DecisionPicksTop(s, Give(k));
    }
  }

  lemma Decided(s: Sched)
    requires Inv(s)
    ensures Consistent(RawResched(Of(s))) && Inv(Reschedule(s)) && Reschedule(s).waits == s.waits
    ensures s.lock == 0 ==> TopRuns(Reschedule(s))
  {
    if s.lock == 0 {
      TopRunsAfterReschedule(s);
    }
    OfConsistent(s);
    ReschedCounted(Of(s));
    RescheduleInv(s);
  }

  lemma NobodyInLine(s: Sched)
    ensures Line(s, [])
  {
  }

  lemma NullIsNoThread(s: Sched)
    requires Inv(s)
    ensures NULL !in s.threads
  {
    assert NULL in s.threads ==> ThreadOk(s, NULL);
  }

  lemma Shortened(s: Sched, s': Sched, waiters: seq<int>)
    requires Line(s, waiters) && waiters != []
    requires forall k {:trigger waiters[k]} :: 0 < k < |waiters| ==>
               && waiters[k] in s.threads && waiters[k] in s'.threads && waiters[k] != waiters[0]
               && s'.threads[waiters[k]].priority == s.threads[waiters[k]].priority
    ensures Line(s', waiters[1..]) && waiters[0] !in waiters[1..]
  {
    var rest := waiters[1..];
    forall j, k | 0 <= j < k < |rest|
      ensures Ahead(s', rest, j, k)
    {
      assert Ahead(s, waiters, j + 1, k + 1);
      assert rest[j] == waiters[j + 1] && rest[k] == waiters[k + 1];
    }
  }

  /**
   Unlocking keeps the scheduler's lists consistent if and only if it is refused, or not the last
   unlock, or the caller has the priority it had when it took the mutex.  Then the first of those who
   wait gets the mutex and can run, nobody who waits has a higher priority, and the top thread runs.
   */
  lemma UnlockExact(s: Sched, m: Mutex)
    requires Inv(s) && CurrentQueued(s) && MutexOk(s, m)
    ensures Callable(Of(s), m) && |s.queues| == PRIORITIES
    ensures var (r', m', out) := UnlockCall(Of(s), m);
            && (Consistent(r') <==>
                  m.owner != s.current || m.count > 1 || m.orig == s.threads[s.current].priority)
            && (Consistent(r') ==> Inv(r'.s) && MutexOk(r'.s, m'))
            && (Consistent(r') && out == Unlocked && m.count == 1 ==>
                  && (s.lock == 0 ==> TopRuns(r'.s))
                  && (s.waits[m.list] != [] ==> m'.owner in r'.s.threads && Runnable(r'.s.threads[m'.owner])))
            && (out == Refused <==> m.owner != s.current)
            && (out == Unlocked && m.count == 1 && s.waits[m.list] != [] ==>
                  && m'.owner == s.waits[m.list][0]
                  && forall i :: 0 <= i < |s.waits[m.list]| ==>
                       && s.waits[m.list][i] in s.threads && s.waits[m.list][0] in s.threads
                       && s.threads[s.waits[m.list][i]].priority <= s.threads[s.waits[m.list][0]].priority)
  {
    CallableNow(s, m);
    PriorityInRange(s, s.current);
    FirstRanksHighest(s, m.list);
    if m.owner == s.current && m.count == 1 {
      hide Inv, Consistent, Line, Reprice, RawResched, RawGive, TopRuns;
      if m.orig == s.threads[s.current].priority {
        UnlockHandsOver(s, m);
      } else {
        UnlockBreaks(s, m);
      }
    } else {
      hide Inv, Consistent, Line;
      ConsistentNow(s);
    }
  }

  /**
   What an unlock does to the mutex: nothing for a caller that is not the owner; one of several locks
   counts down; the last gives it to the first of those who wait, locked once and with that thread's base
   priority kept for later, or to nobody.
   */
  lemma UnlockEffect(s: Sched, m: Mutex)
    requires Inv(s) && CurrentQueued(s) && MutexOk(s, m)
    ensures Callable(Of(s), m) && |s.queues| == PRIORITIES
    ensures var (r', m', out) := UnlockCall(Of(s), m);
            && m'.list == m.list
            && (m.owner != s.current ==> out == Refused && r' == Of(s) && m' == m)
            && (m.owner == s.current ==> out == Unlocked)
            && (m.owner == s.current && m.count > 1 ==>
                  r' == Of(s) && m'.owner == s.current && m'.count == m.count - 1 && m'.orig == m.orig)
            && (m.owner == s.current && m.count == 1 ==>
                  if s.waits[m.list] == [] then m'.owner == NULL && m'.count == 0
                  else
                    && s.waits[m.list][0] in s.threads && m'.owner == s.waits[m.list][0] && m'.count == 1
                    && m'.orig == s.threads[s.waits[m.list][0]].base)
  {
    CallableNow(s, m);
    PriorityInRange(s, s.current);
    hide Inv, Line, Consistent, Reprice, RawResched, RawGive;
  }

  /** The last unlock gives the caller the priority it had as it took the mutex, and takes the first waiter off. */
  lemma UnlockRestores(s: Sched, m: Mutex)
    requires Inv(s) && CurrentQueued(s) && MutexOk(s, m) && m.owner == s.current && m.count == 1
    ensures Callable(Of(s), m) && |s.queues| == PRIORITIES
    ensures var s' := UnlockCall(Of(s), m).0.s;
            && s.current in s'.threads && s'.threads[s.current].priority == m.orig
            && s'.waits == if s.waits[m.list] == [] then s.waits else s.waits[m.list := s.waits[m.list][1..]]
  {
    CallableNow(s, m);
    PriorityInRange(s, s.current);
    hide Inv, Line, Reprice, Reschedule;
    RepriceFrame(Of(s), s.current, m.orig);
    var r1 := Reprice(Of(s), s.current, m.orig);
    if s.waits[m.list] == [] {
      ReschedFrame(r1.s);
    } else {
      var next := s.waits[m.list][0];
      WaiterAt(s, m.list, 0);
      assert next in s.waits[m.list] && next != s.current;
      var r2 := r1.(s := TakeWaiter(r1.s, m.list), waitCounts := r1.waitCounts[m.list := r1.waitCounts[m.list] - 1]);
      ReschedFrame(RawEnqueue(r2, next).s);
    }
  }

  lemma FirstRanksHighest(s: Sched, k: nat)
    requires Inv(s) && k < |s.waits| && Line(s, s.waits[k])
    ensures forall i :: 0 <= i < |s.waits[k]| ==>
              && s.waits[k][i] in s.threads && s.waits[k][0] in s.threads
              && s.threads[s.waits[k][i]].priority <= s.threads[s.waits[k][0]].priority
  {
    forall i | 0 <= i < |s.waits[k]|
      ensures s.waits[k][i] in s.threads && s.waits[k][0] in s.threads
      ensures s.threads[s.waits[k][i]].priority <= s.threads[s.waits[k][0]].priority
    {
      WaiterAt(s, k, i);
      WaiterAt(s, k, 0);
      if i > 0 {
        assert Ahead(s, s.waits[k], 0, i);
      }
    }
  }

  // ---------- inputs that fail ----------

  /**
   Idle thread 1, thread 2 of priority 3 in the given mode, thread 3 of priority 5 on the processor,
   and thread 4 of priority 4, waiting in list 0; thread 2, if it waits, is behind it in that list.
   */
  function Four(m: Mode): Sched
  {
    Sched(map[1 := Tcb(Ready, 0, 0, 0), 2 := Tcb(m, 3, 3, 0), 3 := Tcb(Running, 5, 5, 0),
              4 := Tcb(Waiting(0), 4, 4, 0)],
          seq(PRIORITIES, p => if p == 0 then [1] else if p == 3 && m.Ready? then [2] else if p == 5 then [3] else []),
          [], [if m.Waiting? then [4, 2] else [4], []], 3, 1, 0, 0, 3, 3)
  }

  lemma FourInv(m: Mode)
    requires m.Ready? || m.Suspended? || m == Waiting(0)
    ensures Inv(Four(m))
  {
    var s := Four(m);
    forall p | 0 <= p < PRIORITIES
      ensures QueueOk(s, p)
    {
    }
    assert s.waits[0][0] == 4 && (m.Waiting? ==> s.waits[0][1] == 2);
    forall t | t in s.threads
      ensures ThreadOk(s, t)
    {
      assert t == 1 || t == 2 || t == 3 || t == 4;
    }
    assert WaitOk(s, 0) && WaitOk(s, 1);
  }

  /** The case that inheritance is for damages the queues: a preempted owner and a caller of higher priority. */
  lemma BoostDamages()
    ensures var s, m := Four(Ready), Mutex(2, 1, 3, 1);
            && Inv(s) && CurrentQueued(s) && MutexOk(s, m) && Callable(Of(s), m)
            && !Consistent(LockCall(Of(s), m, true, 0).0)
  {
    FourInv(Ready);
    LockBreaks(Four(Ready), Mutex(2, 1, 3, 1), 0);
  }

  /** So does the unlock of an owner that was boosted while it was in no queue. */
  lemma UnlockDamages()
    ensures var s, m := Four(Suspended), Mutex(3, 1, 3, 1);
            && Inv(s) && CurrentQueued(s) && MutexOk(s, m) && Callable(Of(s), m) && |s.queues| == PRIORITIES
            && !Consistent(UnlockCall(Of(s), m).0)
  {
    FourInv(Suspended);
    UnlockBreaks(Four(Suspended), Mutex(3, 1, 3, 1));
  }

  /** A second waiter of higher priority than the first faults. */
  lemma SecondWaiterFaults()
    ensures var s, m := Four(Suspended), Mutex(2, 1, 3, 0);
            && Inv(s) && CurrentQueued(s) && MutexOk(s, m) && Callable(Of(s), m)
            && LockCall(Of(s), m, true, 0).2 == Fault
  {
    FourInv(Suspended);
    LockFaults(Four(Suspended), Mutex(2, 1, 3, 0), 0);
  }

  /** Thread 2 owns a mutex and waits for another, behind thread 4. */
  lemma TwoMutexes()
    ensures var s, m, other := Four(Waiting(0)), Mutex(2, 1, 3, 1), Mutex(1, 1, 0, 0);
            && Inv(s) && CurrentQueued(s) && s.current != s.idle && MutexOk(s, m) && MutexOk(s, other)
            && Contended(s, m, true) && s.waits[m.list] == [] && Smooth(s, m)
            && s.threads[m.owner].priority < s.threads[s.current].priority
            && !InPlace(s, m.owner, s.waits[other.list])
  {
    var s := Four(Waiting(0));
    FourInv(Waiting(0));
    hide Inv;
    assert s.waits[0] == [4, 2] && s.waits[1] == [];
    assert Ahead(s, s.waits[0], 0, 1);
  }

  /** An owner that waits for a second mutex itself is boosted past the one in front of it, who stays there. */
  lemma BoostUnsortsOther()
    ensures var s, m, other := Four(Waiting(0)), Mutex(2, 1, 3, 1), Mutex(1, 1, 0, 0);
            && Inv(s) && CurrentQueued(s) && MutexOk(s, m) && MutexOk(s, other) && Callable(Of(s), m)
            && Consistent(LockCall(Of(s), m, true, 0).0) && !MutexOk(LockCall(Of(s), m, true, 0).0.s, other)
  {
    hide Inv, LockCall, Consistent, Callable, Four, MutexOk, InPlace;
    TwoMutexes();
    LockExact(Four(Waiting(0)), Mutex(2, 1, 3, 1), true, 0);
    OtherMutexExact(Four(Waiting(0)), Mutex(2, 1, 3, 1), Mutex(1, 1, 0, 0), 0);
  }
}
