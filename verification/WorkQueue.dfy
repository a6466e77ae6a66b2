/**
 The work queue (kernel/workq.c) over its counting semaphore (kernel/sem.c), as a protocol: any
 number of submitters, in threads or interrupts, interleave with one worker.  A submission is two
 separate steps, appending the item and giving the semaphore.
 */
module WorkQueue {
  import opened Seqs
  import opened IntrusiveList

  // ---------- kernel/sem.c ----------

  datatype Semaphore = Semaphore(count: nat, max: nat, waiters: seq<int>)

  datatype Taken = Granted | Refused | Blocked

  /** `vibe_sem_take` up to the point where the caller has the token, gives up, or is queued to wait */
  function Take(s: Semaphore, self: int, wait: bool): (Semaphore, Taken)
  {
    if s.count > 0 then (s.(count := s.count - 1), Granted)
    else if !wait then (s, Refused)
    else (s.(waiters := s.waiters + [self]), Blocked)
  }

  datatype Given = HandedTo(waiter: int) | Counted | Overflow

  /** `vibe_sem_give`: to the first waiter if there is one */
  function Give(s: Semaphore): (Semaphore, Given)
  {
    if s.waiters != [] then (s.(waiters := s.waiters[1..]), HandedTo(s.waiters[0]))
    else if s.max > 0 && s.count >= s.max then (s, Overflow)
    else (s.(count := s.count + 1), Counted)
  }

  /** `vibe_sem_reset` */
  function Emptied(s: Semaphore): Semaphore { s.(count := 0) }

  /** Nobody waits while there are tokens. */
  ghost predicate SemOk(s: Semaphore)
  {
    (s.count > 0 ==> s.waiters == []) && (s.max > 0 ==> s.count <= s.max)
  }

  lemma SemKept(s: Semaphore, self: int, wait: bool)
    requires SemOk(s)
    ensures SemOk(Take(s, self, wait).0) && SemOk(Give(s).0)
    ensures Emptied(s) == Semaphore(0, s.max, s.waiters) && SemOk(Emptied(s))
    ensures Take(s, self, wait).1.Blocked? <==> s.count == 0 && wait
    ensures Give(s).1.HandedTo? <==> s.waiters != []
    ensures Take(s, self, wait).1.Granted? <==> s.count > 0
    ensures Give(s).1.Overflow? <==> s.waiters == [] && s.max > 0 && s.count == s.max
  {
  }

  datatype SemOp = TakeOp(self: int, wait: bool) | GiveOp

  /** Tokens that an operation grants, at once or by hand-off */
  function Grants(s: Semaphore, op: SemOp): nat
  {
    match op
    case TakeOp(self, wait) => if Take(s, self, wait).1.Granted? then 1 else 0
    case GiveOp => if Give(s).1.HandedTo? then 1 else 0
  }

  function Gifts(s: Semaphore, op: SemOp): nat
  {
    if op.GiveOp? && !Give(s).1.Overflow? then 1 else 0
  }

  function SemStep(s: Semaphore, op: SemOp): Semaphore
  {
    match op
    case TakeOp(self, wait) => Take(s, self, wait).0
    case GiveOp => Give(s).0
  }

  function SemRun(s: Semaphore, ops: seq<SemOp>): Semaphore
    decreases |ops|
  {
    if ops == [] then s else SemRun(SemStep(s, ops[0]), ops[1..])
  }

  function AllGrants(s: Semaphore, ops: seq<SemOp>): nat
    decreases |ops|
  {
    if ops == [] then 0 else Grants(s, ops[0]) + AllGrants(SemStep(s, ops[0]), ops[1..])
  }

  function AllGifts(s: Semaphore, ops: seq<SemOp>): nat
    decreases |ops|
  {
    if ops == [] then 0 else Gifts(s, ops[0]) + AllGifts(SemStep(s, ops[0]), ops[1..])
  }

  /** Tokens are conserved over every run: what was there and what was given is what was granted and what is left. */
  lemma {:induction false} TokensConserved(s: Semaphore, ops: seq<SemOp>)
    requires SemOk(s)
    ensures SemOk(SemRun(s, ops))
    ensures s.count + AllGifts(s, ops) == AllGrants(s, ops) + SemRun(s, ops).count
    decreases |ops|
  {
    if ops != [] {
      if ops[0].TakeOp? {
        SemKept(s, ops[0].self, ops[0].wait);
      } else {
        SemKept(s, 0, false);
      }
      TokensConserved(SemStep(s, ops[0]), ops[1..]);
    }
  }

  /** Who begins to wait */
  function Joins(s: Semaphore, op: SemOp): seq<int>
  {
    if op.TakeOp? && Take(s, op.self, op.wait).1.Blocked? then [op.self] else []
  }

  /** Who is handed a token */
  function Handed(s: Semaphore, op: SemOp): seq<int>
  {
    if op.GiveOp? && Give(s).1.HandedTo? then [Give(s).1.waiter] else []
  }

  function AllJoins(s: Semaphore, ops: seq<SemOp>): seq<int>
    decreases |ops|
  {
    if ops == [] then [] else Joins(s, ops[0]) + AllJoins(SemStep(s, ops[0]), ops[1..])
  }

  function AllHanded(s: Semaphore, ops: seq<SemOp>): seq<int>
    decreases |ops|
  {
    if ops == [] then [] else Handed(s, ops[0]) + AllHanded(SemStep(s, ops[0]), ops[1..])
  }

  lemma HandsToFirst(s: Semaphore, op: SemOp)
    ensures s.waiters + Joins(s, op) == Handed(s, op) + SemStep(s, op).waiters && SemStep(s, op).max == s.max
  {
  }

  /** Tokens go to those who wait in the order in which they came, over every run; nobody is passed over. */
  lemma {:induction false} HandedInOrder(s: Semaphore, ops: seq<SemOp>)
    ensures s.waiters + AllJoins(s, ops) == AllHanded(s, ops) + SemRun(s, ops).waiters
    ensures SemRun(s, ops).max == s.max
    decreases |ops|
  {
    hide SemStep, Joins, Handed;
    if ops != [] {
      var s', j, h := SemStep(s, ops[0]), Joins(s, ops[0]), Handed(s, ops[0]);
      HandsToFirst(s, ops[0]);
      HandedInOrder(s', ops[1..]);
      assert s.waiters + (j + AllJoins(s', ops[1..])) == (h + s'.waiters) + AllJoins(s', ops[1..]);
      assert h + (s'.waiters + AllJoins(s', ops[1..])) == AllHanded(s, ops) + SemRun(s, ops).waiters;
    }
  }

  // ---------- kernel/workq.c ----------

  const WORKER := 1

  datatype Worker<W> = AtTake | Asleep | HasToken | Executing(work: W)

  /** Work items are of some type `W`. */
  datatype State<W> = State(
    queue: seq<W>,           // head ... tail
    pending: set<W>,         // items whose pending flag is set
    sem: Semaphore,
    giving: nat,             // submitters between their append and their give
    worker: Worker<W>)

  datatype Step<W> =
    | Submit(work: W)        // the locked part of vibe_work_submit
    | Signal                 // its vibe_sem_give
    | Await                  // the worker calls vibe_sem_take
    | Pop                    // the worker's locked dequeue
    | Finish                 // the handler returns

  predicate Enabled<W(==)>(s: State<W>, step: Step<W>)
  {
    match step
    case Submit(_) => true
    case Signal => s.giving > 0
    case Await => s.worker.AtTake?
    case Pop => s.worker.HasToken?
    case Finish => s.worker.Executing?
  }

  function Next<W(==)>(s: State<W>, step: Step<W>): State<W>
    requires Enabled(s, step)
  {
    match step
    case Submit(work) =>
      if work in s.pending then s
      else s.(queue := s.queue + [work], pending := s.pending + {work}, giving := s.giving + 1)
    case Signal =>
      var (sem, given) := Give(s.sem);
      s.(sem := sem, giving := s.giving - 1, worker := if given == HandedTo(WORKER) then HasToken else s.worker)
    case Await =>
      var (sem, taken) := Take(s.sem, WORKER, true);
      s.(sem := sem, worker := if taken.Granted? then HasToken else Asleep)
    case Pop =>
      if s.queue == [] then s.(worker := AtTake)
      else s.(queue := s.queue[1..], pending := s.pending - {s.queue[0]}, worker := Executing(s.queue[0]))
    case Finish => s.(worker := AtTake)
  }

  /** Items accepted by a step */
  function Accepted<W(==)>(s: State<W>, step: Step<W>): seq<W>
  {
    if step.Submit? && step.work !in s.pending then [step.work] else []
  }

  /** Items whose handler a step sets off */
  function Executed<W(==)>(s: State<W>, step: Step<W>): seq<W>
  {
    if step.Pop? && s.queue != [] then [s.queue[0]] else []
  }

  /** `vibe_workq_init`, with the worker about to take */
  function Initial<W>(): State<W> { State([], {}, Semaphore(0, 0, []), 0, AtTake) }

  ghost predicate Inv<W>(s: State<W>)
  {
    && NoDup(s.queue)
    && (forall w :: w in s.pending ==> w in s.queue)
    && (forall w :: w in s.queue ==> w in s.pending)
    && s.sem.max == 0
    && s.sem.waiters == (if s.worker.Asleep? then [WORKER] else [])
    && (s.worker.Asleep? ==> s.sem.count == 0)
    && |s.queue| == s.sem.count + s.giving + (if s.worker.HasToken? then 1 else 0)
  }

  /** Every step keeps the balance: queue length = semaphore count + gives in flight + token held. */
  lemma StepInv<W>(s: State<W>, step: Step<W>)
    requires Inv(s) && Enabled(s, step)
    ensures Inv(Next(s, step))
    ensures s.queue + Accepted(s, step) == Executed(s, step) + Next(s, step).queue
  {
    if step.Pop? && s.queue != [] {
      var rest := s.queue[1..];
      assert s.queue == [s.queue[0]] + rest;
      forall w
        ensures w in rest <==> w in s.queue && w != s.queue[0]
      {
      }
    }
  }

  /** A worker with a token always finds an item. */
  lemma PopFindsWork<W>(s: State<W>)
    requires Inv(s) && Enabled(s, Pop)
    ensures s.queue != [] && Next(s, Pop).worker == Executing(s.queue[0]) && s.queue[0] !in Next(s, Pop).pending
  {
  }

  lemma NextInv<W>(s: State<W>, step: Step<W>)
    requires Inv(s) && Enabled(s, step)
    ensures Inv(Next(s, step))
  {
    StepInv(s, step);
  }

  lemma PendingIsQueued<W>(s: State<W>, work: W)
    requires Inv(s)
    ensures work in s.pending <==> work in s.queue
  {
  }

  // ---------- runs ----------

  predicate ValidRun<W(==)>(s: State<W>, steps: seq<Step<W>>)
    decreases |steps|
  {
    steps != [] ==> Enabled(s, steps[0]) && ValidRun(Next(s, steps[0]), steps[1..])
  }

  function Run<W(==)>(s: State<W>, steps: seq<Step<W>>): State<W>
    requires ValidRun(s, steps)
    decreases |steps|
  {
    if steps == [] then s else Run(Next(s, steps[0]), steps[1..])
  }

  function AllAccepted<W(==)>(s: State<W>, steps: seq<Step<W>>): seq<W>
    requires ValidRun(s, steps)
    decreases |steps|
  {
    if steps == [] then [] else Accepted(s, steps[0]) + AllAccepted(Next(s, steps[0]), steps[1..])
  }

  function AllExecuted<W(==)>(s: State<W>, steps: seq<Step<W>>): seq<W>
    requires ValidRun(s, steps)
    decreases |steps|
  {
    if steps == [] then [] else Executed(s, steps[0]) + AllExecuted(Next(s, steps[0]), steps[1..])
  }

  lemma {:induction false} RunKeepsOrder<W>(s: State<W>, steps: seq<Step<W>>)
    requires Inv(s) && ValidRun(s, steps)
    ensures Inv(Run(s, steps))
    ensures s.queue + AllAccepted(s, steps) == AllExecuted(s, steps) + Run(s, steps).queue
    decreases |steps|
  {
    hide Next, Accepted, Executed, Inv;
    if steps != [] {
      var s' := Next(s, steps[0]);
      StepInv(s, steps[0]);
      RunKeepsOrder(s', steps[1..]);
      var a, b := AllAccepted(s', steps[1..]), AllExecuted(s', steps[1..]);
      calc {
        s.queue + AllAccepted(s, steps);
        (s.queue + Accepted(s, steps[0])) + a;
        (Executed(s, steps[0]) + s'.queue) + a;
        Executed(s, steps[0]) + (s'.queue + a);
        Executed(s, steps[0]) + (b + Run(s, steps).queue);
        AllExecuted(s, steps) + Run(s, steps).queue;
      }
    }
  }

  /**
   Over every run from the start: accepted items are executed once each, in order, except those still
   in the queue.
   */
  lemma ExactlyOnceInOrder<W>(steps: seq<Step<W>>)
    requires ValidRun(Initial(), steps)
    ensures Inv(Run(Initial(), steps))
    ensures AllAccepted(Initial(), steps) == AllExecuted(Initial(), steps) + Run(Initial(), steps).queue
  {
    RunKeepsOrder(Initial(), steps);
    assert [] + AllAccepted(Initial(), steps) == AllAccepted(Initial(), steps);
  }

  // ---------- nothing is forgotten ----------

  /** When neither a submitter nor the worker can move, everything accepted has been executed. */
  lemma QuietMeansDone<W>(s: State<W>)
    requires Inv(s)
    requires !Enabled(s, Signal) && !Enabled(s, Await) && !Enabled(s, Pop) && !Enabled(s, Finish)
    ensures s.queue == []
  {
  }

  /** Steps left until that is so, if nothing more is submitted */
  function Outstanding<W>(s: State<W>): nat
  {
    4 * |s.queue| + 2 * s.giving +
    match s.worker { case Executing(_) => 3 case AtTake => 2 case HasToken => 1 case Asleep => 0 }
  }

  lemma StepsRunOut<W>(s: State<W>, step: Step<W>)
    requires Inv(s) && Enabled(s, step) && !step.Submit?
    ensures Outstanding(Next(s, step)) < Outstanding(s)
  {
  }

  /** Once submissions stop, the protocol comes to rest within a bounded number of steps. */
  lemma {:induction false} Drains<W>(s: State<W>, steps: seq<Step<W>>)
    requires Inv(s) && ValidRun(s, steps) && forall i :: 0 <= i < |steps| ==> !steps[i].Submit?
    ensures |steps| <= Outstanding(s)
    decreases |steps|
  {
    if steps != [] {
      StepInv(s, steps[0]);
      StepsRunOut(s, steps[0]);
      Drains(Next(s, steps[0]), steps[1..]);
    }
  }

  // ---------- the objects themselves ----------

  /** `vibe_sem_t`; those who wait are linked through nodes of their own. */
  class Sem {
    var count: nat
    var max: nat
    const list: List

    /** `vibe_sem_init` */
    constructor (initial: nat, max: nat)
      requires max > 0 ==> initial <= max
      ensures list.Valid() && fresh(list) && list.nodes == []
      ensures View() == Semaphore(initial, max, []) && SemOk(View())
    {
      count, this.max := initial, max;
      list := new List();
    }

    ghost function View(): Semaphore
      reads this, list
    {
      Semaphore(count, max, Ids(list.nodes))
    }

    /** `vibe_sem_take` by the thread whose `wait_node` is `self` */
    method TakeToken(self: Node, wait: bool) returns (taken: Taken)
      requires list.Valid() && self !in list.nodes
      modifies this, list, self, list.nodes
      ensures list.Valid() && (View(), taken) == Take(old(View()), self.id, wait)
      ensures list.nodes == if taken.Blocked? then old(list.nodes) + [self] else old(list.nodes)
    {
      if count > 0 {
        count := count - 1;
        return Granted;
      }
      if !wait {
        return Refused;
      }
      list.Append(self);
      assert View().waiters == old(View()).waiters + [self.id];
      taken := Blocked;
    }

    method GiveToken() returns (given: Given)
      requires list.Valid()
      modifies this, list, list.nodes
      ensures list.Valid() && (View(), given) == Give(old(View()))
      ensures list.nodes == if given.HandedTo? then old(list.nodes)[1..] else old(list.nodes)
    {
      var first := list.GetHead();
      if first != null {
        given := HandedTo(first.id);
        assert View().waiters == old(View()).waiters[1..];
        return;
      }
      if max > 0 && count >= max {
        return Overflow;
      }
      count := count + 1;
      given := Counted;
    }
  }

  class Work {
    var next: Work?
    var pending: bool

    /** `vibe_work_init` */
    constructor ()
      ensures next == null && !pending
    {
      next, pending := null, false;
    }
  }

  /** The items whose pending flag is set */
  ghost function Flagged(known: set<Work>): set<Work>
    reads known
  {
    set w | w in known && w.pending
  }

  lemma FlaggedIsPending(known: set<Work>, w: Work)
    requires w in known
    ensures w in Flagged(known) <==> w.pending
  {
  }

  ghost predicate Owned(items: seq<Work>, known: set<Work>)
  {
    forall i {:trigger items[i]} :: 0 <= i < |items| ==> items[i] in known
  }

  /** A work queue with the place its worker has reached; each method is one atomic section of the code. */
  class Queue {
    var head: Work?
    var tail: Work?
    const sem: Sem
    const self: Node                 // the worker thread's wait_node
    ghost var items: seq<Work>
    ghost var known: set<Work>
    ghost var giving: nat
    ghost var worker: Worker<Work>

    constructor ()
      ensures Valid() && View() == Initial() && fresh(sem) && fresh(sem.list) && fresh(self)
    {
      head, tail, items, known, giving, worker := null, null, [], {}, 0, AtTake;
      sem := new Sem(0, 0);
      self := new Node(WORKER);
    }

    ghost function View(): State<Work>
      reads this, sem, sem.list, known
    {
      State(items, Flagged(known), sem.View(), giving, worker)
    }

    ghost predicate Chained(i: nat)
      requires i < |items|
      reads this`items, items
    {
      items[i].next == if i + 1 < |items| then items[i + 1] else null
    }

    ghost predicate Linked()
      reads this`head, this`tail, this`items, items
    {
      && NoDup(items)
      && (items == [] ==> head == null && tail == null)
      && (items != [] ==> head == items[0] && tail == items[|items| - 1])
      && forall i {:trigger Chained(i)} :: 0 <= i < |items| ==> Chained(i)
    }

    /** The semaphore's list is in order, and the worker is the only one to wait there. */
    ghost predicate Waiting()
      reads sem, sem.list, sem.list.nodes
    {
      sem.list.Valid() && self.id == WORKER && forall i :: 0 <= i < |sem.list.nodes| ==> sem.list.nodes[i] == self
    }

    ghost predicate Valid()
      reads this, sem, sem.list, sem.list.nodes, known, items
    {
      Linked() && Owned(items, known) && Waiting() && Inv(View())
    }

    /** An item that has been initialised */
    method Register(work: Work)
      requires Valid() && work !in known && !work.pending
      modifies this`known
      ensures Valid() && known == old(known) + {work} && View() == old(View())
    {
      known := known + {work};
      assert View().pending == old(View()).pending;
    }

    /** The item goes to the tail, and its submitter still has to signal. */
    method LinkLast(work: Work)
      requires Linked() && Owned(items, known) && work in known && work !in items
      modifies this`head, this`tail, this`items, this`giving, known
      ensures Linked() && items == old(items) + [work] && Owned(items, known)
      ensures Flagged(known) == old(Flagged(known)) + {work}
      ensures sem.View() == old(sem.View()) && giving == old(giving) + 1 && known == old(known) && worker == old(worker)
      ensures old(Waiting()) ==> Waiting()
    {
      assert items != [] ==> Chained(|items| - 1);
      work.pending := true;
      work.next := null;
      if tail != null {
        tail.next := work;
      } else {
        head := work;
      }
      tail := work;
      items, giving := items + [work], giving + 1;
      forall i | 0 <= i < |items|
        ensures Chained(i)
      {
        assert i < |items| - 1 ==> old(Chained(i));
      }
    }

    method Accept(work: Work)
      requires Valid() && work in known && !work.pending
      modifies this`head, this`tail, this`items, this`giving, known
      ensures Valid() && known == old(known)
      ensures work !in old(items) && View() == Next(old(View()), Submit(work))
    {
      hide Linked, Inv, Flagged, Owned, NoDup, Waiting;
      ghost var v := View();
      NextInv(v, Submit(work));
      FlaggedIsPending(known, work);
      PendingIsQueued(v, work);
      LinkLast(work);
      assert View() == Next(v, Submit(work));
    }

    /** The locked part of `vibe_work_submit`: refused exactly when the item is pending */
    method Append(work: Work) returns (accepted: bool)
      requires Valid() && work in known
      modifies this`head, this`tail, this`items, this`giving, known
      ensures Valid() && known == old(known)
      ensures accepted <==> work !in old(items)
      ensures View() == Next(old(View()), Submit(work))
    {
      hide Linked;
      PendingIsQueued(View(), work);
      accepted := !work.pending;
      if accepted {
        Accept(work);
      }
    }

    /** Its `vibe_sem_give` */
    method GiveSignal()
      requires Valid() && giving > 0
      modifies this`giving, this`worker, sem, sem.list, sem.list.nodes
      ensures Valid() && known == old(known) && View() == Next(old(View()), Signal)
    {
      hide Linked, List.Valid;
      ghost var v := View();
      NextInv(v, Signal);
      var given := sem.GiveToken();
      giving := giving - 1;
      worker := if given == HandedTo(WORKER) then HasToken else worker;
      assert View().pending == v.pending;
    }

    /** The worker's `vibe_sem_take` */
    method AwaitWork()
      requires Valid() && worker.AtTake?
      modifies this`worker, sem, sem.list, self, sem.list.nodes
      ensures Valid() && known == old(known) && View() == Next(old(View()), Await)
    {
      hide Linked, List.Valid;
      ghost var v := View();
      NextInv(v, Await);
      assert v.sem.waiters == [];
      var taken := sem.TakeToken(self, true);
      worker := if taken.Granted? then HasToken else Asleep;
      assert View().pending == v.pending;
    }

    method UnlinkFirst() returns (work: Work?)
      requires Linked()
      modifies this`head, this`tail, this`items, items
      ensures Linked() && sem.View() == old(sem.View()) && (old(Waiting()) ==> Waiting())
      ensures old(items) == [] ==> work == null && items == []
      ensures old(items) != [] ==> work == old(items)[0] && items == old(items)[1..]
      ensures work != null ==> !work.pending && work.next == null
      ensures forall w :: w in old(items) && w != work ==> w.pending == old(w.pending)
    {
      work := head;
      if work != null {
        assert Chained(0);
        assert |items| > 1 ==> Chained(1);
        head := work.next;
        if head == null {
          tail := null;
        }
        work.next := null;
        work.pending := false;
        items := items[1..];
        forall i | 0 <= i < |items|
          ensures Chained(i)
        {
          assert old(Chained(i + 1));
        }
      }
    }

    /** The locked part of the worker's loop, which always has an item to hand to its handler */
    method PopHead() returns (work: Work?)
      requires Valid() && worker.HasToken?
      modifies this`head, this`tail, this`items, this`worker, known
      ensures Valid() && known == old(known)
      ensures old(items) != [] && work == old(items)[0] && !work.pending
      ensures View() == Next(old(View()), Pop)
    {
      hide Linked;
      ghost var v := View();
      NextInv(v, Pop);
      PopFindsWork(v);
      work := UnlinkFirst();
      worker := Executing(work);
      assert View().pending == v.pending - {work};
    }

    /** The handler has returned. */
    ghost method Return()
      requires Valid() && worker.Executing?
      modifies this`worker
      ensures Valid() && known == old(known) && View() == Next(old(View()), Finish)
    {
      NextInv(View(), Finish);
      worker := AtTake;
      assert View().pending == old(View()).pending;
    }
  }
}
