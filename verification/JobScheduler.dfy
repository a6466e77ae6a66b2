/**
 The job scheduler's own routines on its slot array and `done` bit mask
 (lib/job_scheduler/job_scheduler.c), proved against the model.
 */
module JobScheduler {
  import opened Bits32
  import opened JobModel

  /** The bit mask holds the set of slots. */
  ghost predicate Marks(mask: nat, done: set<nat>)
  {
    forall i: nat {:trigger Bit(mask, i)} :: Bit(mask, i) <==> i in done
  }

  class Scheduler {
    const jobs: array<Job>
    var submitted: int
    var completed: int
    var active: int
    ghost var cancelled: int

    /** `vibe_sched_init` */
    constructor (capacity: nat)
      requires capacity <= 64
      ensures fresh(jobs) && View() == Pool(seq(capacity, _ => Job(Idle, 0)), 0, 0, 0, 0)
    {
      jobs := new Job[capacity](_ => Job(Idle, 0));
      submitted, completed, active, cancelled := 0, 0, 0, 0;
    }

    ghost function View(): Pool
      reads this, jobs
    {
      Pool(jobs[..], submitted, completed, cancelled, active)
    }

    /** `vibe_sched_submit`: the slot taken, or -1 when the pool is full */
    method SubmitJob(prio: nat) returns (slot: int)
      modifies this, jobs
      ensures View() == Submit(old(View()), prio)
      ensures slot == -1 <==> forall i :: 0 <= i < jobs.Length ==> !old(jobs[i]).phase.Idle?
      ensures slot != -1 ==> slot == FreeSlot(old(jobs[..]), 0)
    {
      for i := 0 to jobs.Length
        invariant View() == old(View()) && FreeSlot(jobs[..], 0) == FreeSlot(jobs[..], i)
        invariant forall j :: 0 <= j < i ==> !jobs[j].phase.Idle?
      {
        if jobs[i].phase.Idle? {
          jobs[i] := Job(Ready, prio);
          submitted := submitted + 1;
          active := active + 1;
          assert jobs[..] == old(jobs[..])[i := Job(Ready, prio)];
          return i;
        }
      }
      slot := -1;
    }

    /** `vibe_sched_cancel` */
    method CancelJob(slot: nat)
      modifies this, jobs
      ensures View() == Cancel(old(View()), slot)
    {
      if slot >= jobs.Length || jobs[slot].phase.Idle? {
        return;
      }
      active := active - 1;
      cancelled := cancelled + 1;
      jobs[slot] := jobs[slot].(phase := Idle);
      assert jobs[..] == old(jobs[..])[slot := old(jobs[slot]).(phase := Idle)];
    }

    /** The job function runs: it may call back into the scheduler. */
    method Call(actions: seq<Action>)
      modifies this, jobs
      ensures View() == Act(old(View()), actions)
    {
      hide Submit, Cancel;
      for k := 0 to |actions|
        invariant Act(View(), actions[k..]) == Act(old(View()), actions)
      {
        assert actions[k..][1..] == actions[k + 1..];
        match actions[k]
        case Submitting(prio) => var _ := SubmitJob(prio);
        case Cancelling(slot) => CancelJob(slot);
      }
    }

    /** `_exec` */
    method Invoke(i: nat, outcome: Outcome)
      requires i < jobs.Length
      modifies this, jobs
      ensures View() == Exec(old(View()), i, outcome)
    {
      hide Act;
      Call(outcome.actions);
      ghost var q := View();
      match outcome.status
      case Done =>
        jobs[i] := jobs[i].(phase := Idle);
        completed := completed + 1;
        active := active - 1;
      case Waiting => jobs[i] := jobs[i].(phase := Blocked);
      case Running => jobs[i] := jobs[i].(phase := Ready);
      assert jobs[..] == q.jobs[i := jobs[i]];
    }

    /** The selection scan */
    method FindBest(mask: nat, ghost done: set<nat>) returns (best: int)
      requires Marks(mask, done)
      ensures best == Best(jobs[..], done, jobs.Length)
    {
      best := -1;
      var highest := 0;
      for i := 0 to jobs.Length
        invariant -1 <= best < i && best == Best(jobs[..], done, i)
        invariant best >= 0 ==> highest == jobs[best].prio
      {
        if !Bit(mask, i) && jobs[i].phase.Ready? && (best < 0 || jobs[i].prio > highest) {
          best := i;
          highest := jobs[i].prio;
        }
      }
    }

    /** The first phase of `vibe_sched_run` */
    method RunReady(script: Script) returns (ran: nat)
      modifies this, jobs
      ensures View() == ReadyPhase(old(View()), {}, script, 0).pool
      ensures ran == |ReadyPhase(old(View()), {}, script, 0).order|
    {
      hide Exec, Best;
      var mask := 0;
      ran := 0;
      ghost var done: set<nat> := {};
      ghost var all := ReadyPhase(View(), {}, script, 0);
      forall i: nat
        ensures !Bit(0, i)
      {
        ZeroHasNoBits(i);
      }
      while true
        invariant Marks(mask, done)
        invariant ReadyPhase(View(), done, script, ran).pool == all.pool
        invariant ran + |ReadyPhase(View(), done, script, ran).order| == |all.order|
        decreases Left(jobs.Length, done)
      {
        var best := FindBest(mask, done);
        if best < 0 {
          break;
        }
        FewerLeft(jobs.Length, done, best);
        Marked(mask, done, best);
        mask := SetBit(mask, best);
        done := done + {best};
        Invoke(best, script(ran, best));
        ran := ran + 1;
      }
    }

    /** `vibe_sched_run` */
    method Run(script: Script) returns (ran: nat)
      modifies this, jobs
      ensures var (first, second) := Round(old(View()), script, 0);
              View() == second.pool && ran == |first.order| + |second.order|
    {
      hide Exec;
      ran := RunReady(script);
      ghost var p, base := View(), ran;
      for i := 0 to jobs.Length
        invariant BlockedPhase(View(), i, script, ran).pool == BlockedPhase(p, 0, script, base).pool
        invariant ran + |BlockedPhase(View(), i, script, ran).order| == base + |BlockedPhase(p, 0, script, base).order|
      {
        if jobs[i].phase.Blocked? {
          Invoke(i, script(ran, i));
          ran := ran + 1;
        }
      }
    }

    /** `vibe_sched_active_count`, which the statistics agree with as long as no job cancels itself */
    method CountActive() returns (n: nat)
      ensures n == ActiveCount(jobs[..])
      ensures Balanced(View()) ==> n == active
    {
      n := 0;
      for i := 0 to jobs.Length
        invariant n == ActiveCount(jobs[..i])
      {
        assert jobs[..i + 1][..i] == jobs[..i];
        if !jobs[i].phase.Idle? {
          n := n + 1;
        }
      }
      assert jobs[..jobs.Length] == jobs[..];
    }
  }

  lemma Marked(mask: nat, done: set<nat>, b: nat)
    requires Marks(mask, done)
    ensures Marks(SetBit(mask, b), done + {b})
  {
    forall i: nat
      ensures Bit(SetBit(mask, b), i) <==> i in done + {b}
    {
      BitOfSet(mask, b, i);
    }
  }
}
