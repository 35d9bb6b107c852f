/** Bounded waiting: a queued thread gets the processor after a bounded number of timer ticks. */
module SchedulerFairness {
  import opened Wrappers
  import opened Scheduler

  const TICKS_PER_SLICE := 100

  /** Ticks the current thread can still hold the processor. */
  function Credit(s: Sched): nat
  {
    if s.curr in s.tcbs && s.tcbs[s.curr].state == Running then s.tcbs[s.curr].slice / TIME_BETWEEN_TICKS else 1
  }

  ghost predicate WaitsAt(s: Sched, t: ThreadId, k: nat) { k < |s.queue| && s.queue[k] == t }

  ghost predicate Runs(s: Sched, t: ThreadId)
  {
    s.curr == t && t in s.tcbs && s.tcbs[t].state == Running
  }

  lemma CreditBounds(s: Sched)
    requires QueueOk(s)
    ensures 1 <= Credit(s) <= TICKS_PER_SLICE
  {
    hide Distinct;
    if s.curr in s.tcbs { assert SliceOk(s.tcbs[s.curr]); }
  }

  /** A switch that happens moves every waiting thread one place up. */
  lemma SwitchMovesUp(s: Sched, t: ThreadId, k: nat)
    requires QueueOk(s) && s.needsReschedule && WaitsAt(s, t, k)
    ensures SwitchIfNeeded(s).Returned?
    ensures var s' := SwitchIfNeeded(s).value;
      && QueueOk(s')
      && if k == 0 then Runs(s', t) else WaitsAt(s', t, k - 1)
  {
    hide QueueOk;
    SwitchInv(s);
  }

  /** What one step does to a waiting thread: it runs, or what is left of its wait has not grown and
      has shrunk by a tick if the step was one. */
  lemma StepWaits(s: Sched, step: Step, t: ThreadId, k: nat) returns (k': nat)
    requires Inv(s) && Enabled(s, step) && Next(s, step).Returned? && WaitsAt(s, t, k)
    ensures var s' := Next(s, step).value;
      || Runs(s', t)
      || (WaitsAt(s', t, k')
          && TICKS_PER_SLICE * k' + Credit(s') + (if step.TimerStep? then 1 else 0) <= TICKS_PER_SLICE * k + Credit(s))
  {
    hide QueueOk;
    k' := k;
    CreditBounds(s);
    var s' := Next(s, step).value;
    match step
    case SpawnStep(id) =>
    case UnblockStep(id) => UnblockCredit(s, id);
    case BlockStep(reason) =>
    case YieldStep =>
    case SwitchStep =>
      var s1 := s.(atSwitch := s.atSwitch - {s.curr});
      LeaveSwitchOk(s);
      if s.needsReschedule {
        SwitchMovesUp(s1, t, k);
        CreditBounds(s');
        k' := if k == 0 then 0 else k - 1;
      }
    case TimerStep =>
      k' := TimerWaits(s, t, k);
  }

  lemma UnblockCredit(s: Sched, id: ThreadId)
    ensures Credit(Unblock(s, id)) == Credit(s)
  {
  }

  lemma {:induction false} UnblockAllCredit(s: Sched, ids: seq<ThreadId>)
    ensures Credit(UnblockAll(s, ids)) == Credit(s)
  {
    if ids != [] {
      UnblockAllCredit(s, ids[..|ids| - 1]);
      UnblockCredit(UnblockAll(s, ids[..|ids| - 1]), ids[|ids| - 1]);
    }
  }

  lemma TimerWaits(s: Sched, t: ThreadId, k: nat) returns (k': nat)
    requires Inv(s) && TimerInterrupt(s).Returned? && WaitsAt(s, t, k)
    ensures var s' := TimerInterrupt(s).value;
      || Runs(s', t)
      || (WaitsAt(s', t, k') && TICKS_PER_SLICE * k' + Credit(s') + 1 <= TICKS_PER_SLICE * k + Credit(s))
  {
    hide QueueOk, UnblockAll;
    var s0 := s.(elapsed := s.elapsed + 1);
    var due := ExpiredIds(s0.tcbs, s0.order, s0.elapsed * 1_000_000);
    var s1 := UnblockAll(s0, due);
    ElapsedOk(s);
    UnblockAllOk(s0, due);
    UnblockAllCredit(s0, due);
    assert s1.queue[k] == s0.queue[k];
    TickOk(s);
    var s2 := Tick(s).value;
    CreditBounds(s1);
    ChargeWaits(s1, t, k);
    if s2.needsReschedule {
      SwitchMovesUp(s2, t, k);
      CreditBounds(TimerInterrupt(s).value);
      k' := if k == 0 then 0 else k - 1;
    } else {
      k' := k;
    }
  }

  /** Charging a slice leaves the waiting thread in place and, unless a switch follows, costs the
      current thread one tick of credit. */
  lemma ChargeWaits(s: Sched, t: ThreadId, k: nat)
    requires QueueOk(s) && WaitsAt(s, t, k)
    requires s.curr in s.tcbs && s.tcbs[s.curr].state != Running ==> s.needsReschedule
    ensures var s' := ChargeSlice(s); WaitsAt(s', t, k) && (s'.needsReschedule || Credit(s') + 1 == Credit(s))
  {
    hide Distinct;
    if s.curr in s.tcbs { assert SliceOk(s.tcbs[s.curr]); }
  }

  function TimerSteps(steps: seq<Step>): nat
  {
    if steps == [] then 0 else (if steps[0].TimerStep? then 1 else 0) + TimerSteps(steps[1..])
  }

  /** Some state along the run has `t` on the processor. */
  ghost predicate EventuallyRuns(s: Sched, steps: seq<Step>, t: ThreadId)
    decreases |steps|
  {
    || Runs(s, t)
    || (steps != [] && Enabled(s, steps[0]) && Next(s, steps[0]).Returned?
        && EventuallyRuns(Next(s, steps[0]).value, steps[1..], t))
  }

  lemma {:induction false} WaitShrinks(s: Sched, steps: seq<Step>, s': Sched, t: ThreadId, k: nat)
    requires Inv(s) && Run(s, steps, s') && WaitsAt(s, t, k)
    requires TimerSteps(steps) >= TICKS_PER_SLICE * k + Credit(s)
    ensures EventuallyRuns(s, steps, t)
    decreases |steps|
  {
    hide Inv, Next, Enabled, Credit;
    CreditPositive(s);
    if steps != [] {
      var next := Next(s, steps[0]).value;
      StepInv(s, steps[0]);
      var k' := StepWaits(s, steps[0], t, k);
      if !Runs(next, t) {
        WaitShrinks(next, steps[1..], s', t, k');
      }
    }
  }

  lemma CreditPositive(s: Sched)
    requires Inv(s)
    ensures Credit(s) >= 1
  {
    hide QueueOk;
    CreditBounds(s);
  }

  /** A thread at index `k` of the ready queue runs within `(k + 1) * 100` timer ticks, whatever the
      other threads do. */
  lemma BoundedWaiting(s: Sched, steps: seq<Step>, s': Sched, t: ThreadId, k: nat)
    requires Inv(s) && Run(s, steps, s') && WaitsAt(s, t, k)
    requires TimerSteps(steps) >= (k + 1) * TICKS_PER_SLICE
    ensures EventuallyRuns(s, steps, t)
  {
    hide QueueOk, Run;
    CreditBounds(s);
    WaitShrinks(s, steps, s', t, k);
  }
}
