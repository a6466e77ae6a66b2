/**
 The cooperative job scheduler (lib/job_scheduler/job_scheduler.c) as a value.  What a job does when
 it is invoked is open: a script says, for each invocation, which jobs it submits and cancels and
 what it returns.
 */
module JobModel {
  import opened Seqs

  datatype Phase = Idle | Ready | Blocked

  datatype Job = Job(phase: Phase, prio: nat)

  datatype Status = Done | Waiting | Running

  datatype Action = Submitting(prio: nat) | Cancelling(slot: nat)

  datatype Outcome = Outcome(actions: seq<Action>, status: Status)

  /** Invocation number and slot to what the job does */
  type Script = (nat, nat) -> Outcome

  /** The job slots and the statistics.  `cancelled` is an observer's count; the code keeps the other three. */
  datatype Pool = Pool(jobs: seq<Job>, submitted: int, completed: int, cancelled: int, active: int)

  // ---------- operations ----------

  /** First idle slot from `i` on, or the number of slots */
  function FreeSlot(jobs: seq<Job>, i: nat): (j: nat)
    requires i <= |jobs|
    ensures i <= j <= |jobs|
    ensures j < |jobs| ==> jobs[j].phase.Idle?
    ensures forall k :: i <= k < j ==> !jobs[k].phase.Idle?
    decreases |jobs| - i
  {
    if i == |jobs| || jobs[i].phase.Idle? then i else FreeSlot(jobs, i + 1)
  }

  /** `vibe_sched_submit` */
  function Submit(p: Pool, prio: nat): Pool
  {
    var j := FreeSlot(p.jobs, 0);
    if j == |p.jobs| then p
    else p.(jobs := p.jobs[j := Job(Ready, prio)], submitted := p.submitted + 1, active := p.active + 1)
  }

  /** `vibe_sched_cancel` */
  function Cancel(p: Pool, slot: nat): Pool
  {
    if slot >= |p.jobs| || p.jobs[slot].phase.Idle? then p
    else p.(jobs := p.jobs[slot := p.jobs[slot].(phase := Idle)], cancelled := p.cancelled + 1, active := p.active - 1)
  }

  function Act(p: Pool, actions: seq<Action>): (r: Pool)
    ensures |r.jobs| == |p.jobs|
    decreases |actions|
  {
    if actions == [] then p
    else
      var q := match actions[0] case Submitting(prio) => Submit(p, prio) case Cancelling(slot) => Cancel(p, slot);
      Act(q, actions[1..])
  }

  /** `_exec` */
  function Exec(p: Pool, i: nat, outcome: Outcome): (r: Pool)
    requires i < |p.jobs|
    ensures |r.jobs| == |p.jobs|
  {
    var q := Act(p, outcome.actions);
    match outcome.status
    case Done =>
      q.(jobs := q.jobs[i := q.jobs[i].(phase := Idle)], completed := q.completed + 1, active := q.active - 1)
    case Waiting => q.(jobs := q.jobs[i := q.jobs[i].(phase := Blocked)])
    case Running => q.(jobs := q.jobs[i := q.jobs[i].(phase := Ready)])
  }

  // ---------- one round ----------

  predicate Candidate(jobs: seq<Job>, done: set<nat>, i: nat)
  {
    i < |jobs| && i !in done && jobs[i].phase.Ready?
  }

  /** Slot `i` goes before slot `j`: higher priority, and among equals the lower slot. */
  predicate Before(jobs: seq<Job>, i: nat, j: nat)
    requires i < |jobs| && j < |jobs|
  {
    jobs[i].prio > jobs[j].prio || (jobs[i].prio == jobs[j].prio && i < j)
  }

  /** The candidate among the first `n` slots that goes before the others, or -1 */
  function Best(jobs: seq<Job>, done: set<nat>, n: nat): (b: int)
    requires n <= |jobs|
    ensures -1 <= b < n
    ensures b >= 0 ==> Candidate(jobs, done, b)
    ensures forall i :: 0 <= i < n && Candidate(jobs, done, i) ==> b >= 0 && (i == b || Before(jobs, b, i))
  {
    if n == 0 then -1
    else
      var b := Best(jobs, done, n - 1);
      if Candidate(jobs, done, n - 1) && (b < 0 || jobs[n - 1].prio > jobs[b].prio) then n - 1 else b
  }

  /** What a phase of a round does: the slots invoked, in order, and the pool afterwards */
  datatype Trace = Trace(order: seq<nat>, pool: Pool)

  /** Slots below `n` that have not had their turn */
  function Left(n: nat, done: set<nat>): (l: nat)
    ensures l <= n
  {
    if n == 0 then 0 else Left(n - 1, done) + (if n - 1 in done then 0 else 1)
  }

  lemma {:induction false} FewerLeft(n: nat, done: set<nat>, b: nat)
    requires b !in done
    ensures Left(n, done + {b}) == Left(n, done) - (if b < n then 1 else 0)
  {
    if n > 0 {
      FewerLeft(n - 1, done, b);
    }
  }

  /**
   The first phase of `vibe_sched_run`, invocation `k` onwards: it ends whatever the jobs do, for
   each slot has one turn.
   */
  function ReadyPhase(p: Pool, done: set<nat>, script: Script, k: nat): (t: Trace)
    ensures |t.pool.jobs| == |p.jobs|
    decreases Left(|p.jobs|, done)
  {
    var b := Best(p.jobs, done, |p.jobs|);
    if b < 0 then Trace([], p)
    else
      FewerLeft(|p.jobs|, done, b);
      var rest := ReadyPhase(Exec(p, b, script(k, b)), done + {b}, script, k + 1);
      Trace([b] + rest.order, rest.pool)
  }

  /** The second phase, slot `i` onwards */
  function BlockedPhase(p: Pool, i: nat, script: Script, k: nat): (t: Trace)
    requires i <= |p.jobs|
    ensures |t.pool.jobs| == |p.jobs|
    decreases |p.jobs| - i
  {
    if i == |p.jobs| then Trace([], p)
    else if !p.jobs[i].phase.Blocked? then BlockedPhase(p, i + 1, script, k)
    else
      var rest := BlockedPhase(Exec(p, i, script(k, i)), i + 1, script, k + 1);
      Trace([i] + rest.order, rest.pool)
  }

  /** `vibe_sched_run` */
  function Round(p: Pool, script: Script, k: nat): (Trace, Trace)
  {
    var first := ReadyPhase(p, {}, script, k);
    (first, BlockedPhase(first.pool, 0, script, k + |first.order|))
  }

  // ---------- each slot at most once per phase ----------

  lemma {:induction false} ReadyPhaseOnce(p: Pool, done: set<nat>, script: Script, k: nat)
    ensures var o := ReadyPhase(p, done, script, k).order;
            && |o| <= Left(|p.jobs|, done)
            && (forall i :: i in o ==> i < |p.jobs| && i !in done)
            && NoDup(o)
    decreases Left(|p.jobs|, done)
  {
    hide Exec;
    var b := Best(p.jobs, done, |p.jobs|);
    if b >= 0 {
      FewerLeft(|p.jobs|, done, b);
      var q := Exec(p, b, script(k, b));
      ReadyPhaseOnce(q, done + {b}, script, k + 1);
      assert ReadyPhase(p, done, script, k).order == [b] + ReadyPhase(q, done + {b}, script, k + 1).order;
    }
  }

  lemma {:induction false} BlockedPhaseOnce(p: Pool, i: nat, script: Script, k: nat)
    requires i <= |p.jobs|
    ensures var o := BlockedPhase(p, i, script, k).order;
            && |o| <= |p.jobs| - i
            && (forall j :: j in o ==> i <= j < |p.jobs|)
            && NoDup(o)
    decreases |p.jobs| - i
  {
    hide Exec;
    if i < |p.jobs| {
      if p.jobs[i].phase.Blocked? {
        var q := Exec(p, i, script(k, i));
        BlockedPhaseOnce(q, i + 1, script, k + 1);
        var o, rest := BlockedPhase(p, i, script, k).order, BlockedPhase(q, i + 1, script, k + 1).order;
        assert o == [i] + rest;
        NoDupInsert(rest, 0, i);
        assert rest[..0] + [i] + rest[0..] == o;
      } else {
        BlockedPhaseOnce(p, i + 1, script, k);
      }
    }
  }

  /** A round ends, with at most one invocation of each slot per phase, whatever the jobs do. */
  lemma RoundEnds(p: Pool, script: Script, k: nat)
    ensures var (first, second) := Round(p, script, k);
            |first.order| <= |p.jobs| && NoDup(first.order) && |second.order| <= |p.jobs| && NoDup(second.order)
  {
    var (first, second) := Round(p, script, k);
    ReadyPhaseOnce(p, {}, script, k);
    BlockedPhaseOnce(first.pool, 0, script, k + |first.order|);
  }

  // ---------- jobs that neither submit nor cancel ----------

  ghost predicate Quiet(script: Script)
  {
    forall k: nat, i: nat :: script(k, i).actions == []
  }

  /** The order of the stable sort by falling priority */
  ghost predicate Sorted(jobs: seq<Job>, o: seq<nat>)
  {
    && (forall a :: 0 <= a < |o| ==> o[a] < |jobs|)
    && forall a, b :: 0 <= a < b < |o| ==> Before(jobs, o[a], o[b])
  }

  lemma ExecQuiet(p: Pool, i: nat, outcome: Outcome)
    requires i < |p.jobs| && outcome.actions == []
    ensures forall j :: 0 <= j < |p.jobs| ==> Exec(p, i, outcome).jobs[j].prio == p.jobs[j].prio
    ensures forall j :: 0 <= j < |p.jobs| && j != i ==> Exec(p, i, outcome).jobs[j] == p.jobs[j]
  {
  }

  /** The first phase invokes exactly the ready slots, in the order of the stable sort by falling priority. */
  lemma {:induction false} ReadyPhaseSorts(p: Pool, done: set<nat>, script: Script, k: nat)
    requires Quiet(script)
    ensures var t := ReadyPhase(p, done, script, k);
            && Sorted(p.jobs, t.order)
            && (forall i :: i in t.order <==> Candidate(p.jobs, done, i))
            && (forall i :: 0 <= i < |p.jobs| ==> t.pool.jobs[i].prio == p.jobs[i].prio)
            && (forall i :: 0 <= i < |p.jobs| && i !in t.order ==> t.pool.jobs[i] == p.jobs[i])
    decreases Left(|p.jobs|, done)
  {
    hide Exec;
    var b := Best(p.jobs, done, |p.jobs|);
    if b >= 0 {
      FewerLeft(|p.jobs|, done, b);
      var q := Exec(p, b, script(k, b));
      ExecQuiet(p, b, script(k, b));
      ReadyPhaseSorts(q, done + {b}, script, k + 1);
      var rest := ReadyPhase(q, done + {b}, script, k + 1);
      var t := ReadyPhase(p, done, script, k);
      assert t.order == [b] + rest.order;
      FirstThenSorted(p.jobs, q.jobs, done, b, rest.order);
    }
  }

  lemma FirstThenSorted(jobs: seq<Job>, jobs': seq<Job>, done: set<nat>, b: nat, rest: seq<nat>)
    requires b == Best(jobs, done, |jobs|) && |jobs'| == |jobs|
    requires forall j :: 0 <= j < |jobs| ==> jobs'[j].prio == jobs[j].prio
    requires forall j :: 0 <= j < |jobs| && j != b ==> jobs'[j] == jobs[j]
    requires Sorted(jobs', rest) && forall i :: i in rest <==> Candidate(jobs', done + {b}, i)
    ensures Sorted(jobs, [b] + rest)
    ensures forall i :: i in [b] + rest <==> Candidate(jobs, done, i)
  {
    var o := [b] + rest;
    forall x, y | 0 <= x < y < |o|
      ensures o[x] < |jobs| && o[y] < |jobs| && Before(jobs, o[x], o[y])
    {
      var j := rest[y - 1];
      assert j in rest;
      if x > 0 {
        assert Before(jobs', rest[x - 1], j);
      }
    }
  }

  /** The second phase invokes exactly the slots that are blocked by then, in slot order. */
  lemma {:induction false} BlockedPhaseComplete(p: Pool, i: nat, script: Script, k: nat)
    requires Quiet(script) && i <= |p.jobs|
    ensures forall j :: j in BlockedPhase(p, i, script, k).order <==> i <= j < |p.jobs| && p.jobs[j].phase.Blocked?
    decreases |p.jobs| - i
  {
    hide Exec;
    if i < |p.jobs| {
      if p.jobs[i].phase.Blocked? {
        ExecQuiet(p, i, script(k, i));
        BlockedPhaseComplete(Exec(p, i, script(k, i)), i + 1, script, k + 1);
      } else {
        BlockedPhaseComplete(p, i + 1, script, k);
      }
    }
  }

  // ---------- what a round leaves ----------

  /** The phase that goes with what a job returned */
  predicate Settles(phase: Phase, status: Status)
  {
    (phase.Idle? <==> status.Done?) && (phase.Blocked? <==> status.Waiting?) && (phase.Ready? <==> status.Running?)
  }

  lemma ExecSettles(p: Pool, i: nat, outcome: Outcome)
    requires i < |p.jobs|
    ensures var q, r := Act(p, outcome.actions), Exec(p, i, outcome);
            && Settles(r.jobs[i].phase, outcome.status)
            && (forall j :: 0 <= j < |p.jobs| && j != i ==> r.jobs[j] == q.jobs[j])
            && r.completed == q.completed + (if outcome.status.Done? then 1 else 0)
  {
  }

  /** Every slot invoked in `order`, from invocation `k` on, is in the phase its job's answer calls for. */
  ghost predicate Answered(jobs: seq<Job>, order: seq<nat>, script: Script, k: nat)
  {
    forall a :: 0 <= a < |order| ==>
      order[a] < |jobs| && Settles(jobs[order[a]].phase, script(k + a, order[a]).status)
  }

  lemma AnsweredFirst(jobs: seq<Job>, i: nat, rest: seq<nat>, script: Script, k: nat)
    requires i < |jobs| && Settles(jobs[i].phase, script(k, i).status) && Answered(jobs, rest, script, k + 1)
    ensures Answered(jobs, [i] + rest, script, k)
  {
    hide Settles;
    var o := [i] + rest;
    forall a | 0 <= a < |o|
      ensures o[a] < |jobs| && Settles(jobs[o[a]].phase, script(k + a, o[a]).status)
    {
      if a > 0 {
        assert o[a] == rest[a - 1] && k + a == (k + 1) + (a - 1);
      }
    }
  }

  lemma {:induction false} ReadyPhaseSettles(p: Pool, done: set<nat>, script: Script, k: nat)
    requires Quiet(script)
    ensures var t := ReadyPhase(p, done, script, k);
            Answered(t.pool.jobs, t.order, script, k)
    decreases Left(|p.jobs|, done)
  {
    hide Exec, Settles;
    var b := Best(p.jobs, done, |p.jobs|);
    if b >= 0 {
      FewerLeft(|p.jobs|, done, b);
      var q := Exec(p, b, script(k, b));
      ExecSettles(p, b, script(k, b));
      ReadyPhaseSettles(q, done + {b}, script, k + 1);
      var rest := ReadyPhase(q, done + {b}, script, k + 1);
      assert b !in rest.order && rest.pool.jobs[b] == q.jobs[b] by {
        ReadyPhaseSorts(q, done + {b}, script, k + 1);
      }
      AnsweredFirst(rest.pool.jobs, b, rest.order, script, k);
    }
  }

  /** The second phase; slots without a turn in it are as before. */
  lemma {:induction false} BlockedPhaseSettles(p: Pool, i: nat, script: Script, k: nat)
    requires Quiet(script) && i <= |p.jobs|
    ensures var t := BlockedPhase(p, i, script, k);
            && Answered(t.pool.jobs, t.order, script, k)
            && (forall j :: 0 <= j < |p.jobs| && j !in t.order ==> t.pool.jobs[j] == p.jobs[j])
            && (forall j :: 0 <= j < |p.jobs| ==> t.pool.jobs[j].prio == p.jobs[j].prio)
    decreases |p.jobs| - i
  {
    hide Exec, Settles, Answered;
    if i == |p.jobs| {
      assert Answered(p.jobs, [], script, k) by {
        NoneAnswered(p.jobs, script, k);
      }
    } else if p.jobs[i].phase.Blocked? {
      var q := Exec(p, i, script(k, i));
      ExecQuiet(p, i, script(k, i));
      ExecSettles(p, i, script(k, i));
      BlockedPhaseSettles(q, i + 1, script, k + 1);
      var rest := BlockedPhase(q, i + 1, script, k + 1);
      assert i !in rest.order by {
        BlockedPhaseOnce(q, i + 1, script, k + 1);
      }
      AnsweredFirst(rest.pool.jobs, i, rest.order, script, k);
    } else {
      BlockedPhaseSettles(p, i + 1, script, k);
    }
  }

  lemma NoneAnswered(jobs: seq<Job>, script: Script, k: nat)
    ensures Answered(jobs, [], script, k)
  {
  }

  /** Slot `i` had a turn in `order`, from invocation `k` on, and its job answered that it is blocked. */
  ghost predicate AnsweredWaiting(order: seq<nat>, script: Script, k: nat, i: nat)
  {
    exists a :: 0 <= a < |order| && order[a] == i && script(k + a, i).status.Waiting?
  }

  lemma WaitingIsBlocked(jobs: seq<Job>, order: seq<nat>, script: Script, k: nat, i: nat)
    requires Answered(jobs, order, script, k) && NoDup(order) && i in order && i < |jobs|
    ensures jobs[i].phase.Blocked? <==> AnsweredWaiting(order, script, k, i)
  {
    var a :| 0 <= a < |order| && order[a] == i;
    assert Settles(jobs[order[a]].phase, script(k + a, order[a]).status);
  }

  /**
   What a round does, by what the jobs answer.  The first phase invokes the ready slots; the second
   exactly those that were blocked before the round and those whose job has just answered that it is
   blocked, so that a job that answers "running" or "done" is not invoked again.  In the end a slot is
   idle, blocked or ready by its job's last answer in the round, and as before if it was not invoked.
   */
  lemma RoundByAnswers(p: Pool, script: Script, k: nat)
    requires Quiet(script)
    ensures var (first, second) := Round(p, script, k);
            && |second.pool.jobs| == |p.jobs|
            && (forall i: nat :: i in first.order <==> i < |p.jobs| && p.jobs[i].phase.Ready?)
            && (forall i: nat {:trigger i in second.order} :: i in second.order <==>
                  i < |p.jobs| && (p.jobs[i].phase.Blocked? || AnsweredWaiting(first.order, script, k, i)))
            && Answered(second.pool.jobs, second.order, script, k + |first.order|)
            && (forall a: nat {:trigger first.order[a]} :: a < |first.order| && first.order[a] !in second.order ==>
                  && first.order[a] < |p.jobs|
                  && Settles(second.pool.jobs[first.order[a]].phase, script(k + a, first.order[a]).status))
            && (forall i :: 0 <= i < |p.jobs| && i !in first.order && i !in second.order ==>
                  second.pool.jobs[i] == p.jobs[i])
            && (forall i :: 0 <= i < |p.jobs| ==> second.pool.jobs[i].prio == p.jobs[i].prio)
  {
    hide ReadyPhase, BlockedPhase, Settles;
    var (first, second) := Round(p, script, k);
    ReadyPhaseSorts(p, {}, script, k);
    ReadyPhaseSettles(p, {}, script, k);
    ReadyPhaseOnce(p, {}, script, k);
    BlockedPhaseComplete(first.pool, 0, script, k + |first.order|);
    BlockedPhaseSettles(first.pool, 0, script, k + |first.order|);
    forall i: nat
      ensures i in second.order <==>
                i < |p.jobs| && (p.jobs[i].phase.Blocked? || AnsweredWaiting(first.order, script, k, i))
    {
      if i in first.order {
        WaitingIsBlocked(first.pool.jobs, first.order, script, k, i);
      }
    }
  }

  // ---------- the books ----------

  /** `vibe_sched_active_count` */
  function ActiveCount(jobs: seq<Job>): nat
  {
    if jobs == [] then 0 else (if jobs[|jobs| - 1].phase.Idle? then 0 else 1) + ActiveCount(jobs[..|jobs| - 1])
  }

  /** The statistics balance, and `active` is the number of occupied slots. */
  predicate Balanced(p: Pool)
  {
    p.submitted == p.completed + p.cancelled + p.active && p.active == ActiveCount(p.jobs)
  }

  lemma {:induction false} ActiveUpdate(jobs: seq<Job>, i: nat, j: Job)
    requires i < |jobs|
    ensures ActiveCount(jobs[i := j]) ==
              ActiveCount(jobs) - (if jobs[i].phase.Idle? then 0 else 1) + (if j.phase.Idle? then 0 else 1)
    decreases |jobs|
  {
    var n := |jobs| - 1;
    if i < n {
      ActiveUpdate(jobs[..n], i, j);
      assert jobs[i := j][..n] == jobs[..n][i := j];
    } else {
      assert jobs[i := j][..n] == jobs[..n];
    }
  }

  /**
   Submitting takes one idle slot, if there is one, for a ready job of the priority asked for, and leaves
   every other slot alone; cancelling empties one slot.
   */
  lemma SubmitTakesSlot(p: Pool, prio: nat)
    ensures var q, j := Submit(p, prio), FreeSlot(p.jobs, 0);
            && |q.jobs| == |p.jobs|
            && (j < |p.jobs| ==>
                  && p.jobs[j].phase.Idle? && q.jobs[j] == Job(Ready, prio)
                  && q.submitted == p.submitted + 1 && ActiveCount(q.jobs) == ActiveCount(p.jobs) + 1)
            && (forall i :: 0 <= i < |p.jobs| && i != j ==> q.jobs[i] == p.jobs[i])
            && (j == |p.jobs| ==> q == p && forall i :: 0 <= i < |p.jobs| ==> !p.jobs[i].phase.Idle?)
            && q.completed == p.completed && q.cancelled == p.cancelled
  {
    var j := FreeSlot(p.jobs, 0);
    if j < |p.jobs| {
      ActiveUpdate(p.jobs, j, Job(Ready, prio));
    }
  }

  lemma CancelEmptiesSlot(p: Pool, slot: nat)
    ensures var q := Cancel(p, slot);
            && |q.jobs| == |p.jobs| && (slot < |p.jobs| ==> q.jobs[slot].phase.Idle?)
            && (forall i :: 0 <= i < |p.jobs| && i != slot ==> q.jobs[i] == p.jobs[i])
            && q.submitted == p.submitted && q.completed == p.completed
  {
  }

  lemma SubmitBalanced(p: Pool, prio: nat)
    requires Balanced(p)
    ensures Balanced(Submit(p, prio))
  {
    var j := FreeSlot(p.jobs, 0);
    if j < |p.jobs| {
      ActiveUpdate(p.jobs, j, Job(Ready, prio));
    }
  }

  lemma CancelBalanced(p: Pool, slot: nat)
    requires Balanced(p)
    ensures Balanced(Cancel(p, slot))
  {
    if slot < |p.jobs| {
      ActiveUpdate(p.jobs, slot, p.jobs[slot].(phase := Idle));
    }
  }

  lemma {:induction false} ActBalanced(p: Pool, actions: seq<Action>)
    requires Balanced(p)
    ensures Balanced(Act(p, actions))
    decreases |actions|
  {
    if actions != [] {
      match actions[0]
      case Submitting(prio) =>
        SubmitBalanced(p, prio);
        ActBalanced(Submit(p, prio), actions[1..]);
      case Cancelling(slot) =>
        CancelBalanced(p, slot);
        ActBalanced(Cancel(p, slot), actions[1..]);
    }
  }

  /** An invocation keeps the books exactly when the job's own slot is still occupied as it returns. */
  lemma ExecBalanced(p: Pool, i: nat, outcome: Outcome)
    requires Balanced(p) && i < |p.jobs|
    ensures Balanced(Exec(p, i, outcome)) <==> !Act(p, outcome.actions).jobs[i].phase.Idle?
  {
    hide Act;
    var q := Act(p, outcome.actions);
    ActBalanced(p, outcome.actions);
    ActiveUpdate(q.jobs, i, Exec(p, i, outcome).jobs[i]);
  }

  /** A job that does not cancel itself keeps its slot. */
  lemma {:induction false} ActKeepsSlot(p: Pool, i: nat, actions: seq<Action>)
    requires i < |p.jobs| && !p.jobs[i].phase.Idle? && Cancelling(i) !in actions
    ensures !Act(p, actions).jobs[i].phase.Idle?
    decreases |actions|
  {
    if actions != [] {
      match actions[0]
      case Submitting(prio) => ActKeepsSlot(Submit(p, prio), i, actions[1..]);
      case Cancelling(slot) => ActKeepsSlot(Cancel(p, slot), i, actions[1..]);
    }
  }

  /** No job cancels itself. */
  ghost predicate Polite(script: Script)
  {
    forall k: nat, i: nat :: Cancelling(i) !in script(k, i).actions
  }

  lemma {:induction false} ReadyPhaseBalanced(p: Pool, done: set<nat>, script: Script, k: nat)
    requires Balanced(p) && Polite(script)
    ensures Balanced(ReadyPhase(p, done, script, k).pool)
    decreases Left(|p.jobs|, done)
  {
    hide Exec, Act, Balanced;
    var b := Best(p.jobs, done, |p.jobs|);
    if b >= 0 {
      FewerLeft(|p.jobs|, done, b);
      ActKeepsSlot(p, b, script(k, b).actions);
      ExecBalanced(p, b, script(k, b));
      ReadyPhaseBalanced(Exec(p, b, script(k, b)), done + {b}, script, k + 1);
    }
  }

  lemma {:induction false} BlockedPhaseBalanced(p: Pool, i: nat, script: Script, k: nat)
    requires Balanced(p) && Polite(script) && i <= |p.jobs|
    ensures Balanced(BlockedPhase(p, i, script, k).pool)
    decreases |p.jobs| - i
  {
    hide Exec, Act, Balanced;
    if i < |p.jobs| {
      if p.jobs[i].phase.Blocked? {
        ActKeepsSlot(p, i, script(k, i).actions);
        ExecBalanced(p, i, script(k, i));
        BlockedPhaseBalanced(Exec(p, i, script(k, i)), i + 1, script, k + 1);
      } else {
        BlockedPhaseBalanced(p, i + 1, script, k);
      }
    }
  }

  datatype Call = SubmitCall(prio: nat) | CancelCall(slot: nat) | RunCall(script: Script)

  function Perform(p: Pool, c: Call): Pool
  {
    match c
    case SubmitCall(prio) => Submit(p, prio)
    case CancelCall(slot) => Cancel(p, slot)
    case RunCall(script) => Round(p, script, 0).1.pool
  }

  function PerformAll(p: Pool, calls: seq<Call>): Pool
    decreases |calls|
  {
    if calls == [] then p else PerformAll(Perform(p, calls[0]), calls[1..])
  }

  /** Over every sequence of calls in which no job cancels itself: submitted = completed + cancelled + active. */
  lemma {:induction false} BooksBalance(p: Pool, calls: seq<Call>)
    requires Balanced(p)
    requires forall i :: 0 <= i < |calls| && calls[i].RunCall? ==> Polite(calls[i].script)
    ensures Balanced(PerformAll(p, calls))
    decreases |calls|
  {
    if calls != [] {
      match calls[0] {
        case SubmitCall(prio) => SubmitBalanced(p, prio);
        case CancelCall(slot) => CancelBalanced(p, slot);
        case RunCall(script) =>
          ReadyPhaseBalanced(p, {}, script, 0);
          var first := ReadyPhase(p, {}, script, 0);
          BlockedPhaseBalanced(first.pool, 0, script, |first.order|);
      }
      BooksBalance(Perform(p, calls[0]), calls[1..]);
    }
  }

  /** A job that cancels itself and then says it is done is taken off the books twice. */
  lemma SelfCancelMiscounts()
    ensures var p := Pool([Job(Ready, 0)], 1, 0, 0, 1);
            && Balanced(p)
            && Exec(p, 0, Outcome([Cancelling(0)], Done)).active == -1
  {
    assert Act(Pool([Job(Idle, 0)], 1, 0, 1, 0), [Cancelling(0)][1..]) == Pool([Job(Idle, 0)], 1, 0, 1, 0);
  }
}
