/** Who the timer wakes: over each tick and over every run, sleepers wake when their time has come and
    not before. */
module SchedulerSleep {
  import opened Wrappers
  import opened Scheduler

  /** Thread `id` sleeps until `u`. */
  predicate Asleep(s: Sched, id: ThreadId, u: nat) { id in s.tcbs && s.tcbs[id].state == Blocked(Sleep(u)) }

  /** The time of the last tick, in nanoseconds. */
  function Now(s: Sched): nat { s.elapsed * 1_000_000 }

  ghost predicate DueBy(s: Sched, id: ThreadId, now: nat) { exists u: nat :: Asleep(s, id, u) && u <= now }

  lemma {:induction false} ExpiredExact(s: Sched, order: seq<ThreadId>, now: nat, id: ThreadId)
    ensures id in ExpiredIds(s.tcbs, order, now) <==> id in order && DueBy(s, id, now)
  {
    if order != [] {
      var n := |order| - 1;
      ExpiredExact(s, order[..n], now, id);
      assert order == order[..n] + [order[n]];
      if order[n] in s.tcbs && Expired(s.tcbs[order[n]], now) {
        assert Asleep(s, order[n], s.tcbs[order[n]].state.reason.until);
      }
    }
  }

  lemma {:induction false} ExpiredDistinct(tcbs: map<ThreadId, Tcb>, order: seq<ThreadId>, now: nat)
    requires Distinct(order)
    ensures Distinct(ExpiredIds(tcbs, order, now)) && forall id :: id in ExpiredIds(tcbs, order, now) ==> id in order
  {
    if order != [] {
      var n := |order| - 1;
      ExpiredDistinct(tcbs, order[..n], now);
      assert order[n] !in order[..n];
    }
  }

  lemma {:induction false} DistinctSize(ids: seq<ThreadId>, all: set<ThreadId>)
    requires Distinct(ids) && forall id :: id in all <==> id in ids
    ensures |all| == |ids|
  {
    if ids == [] {
      assert all == {};
    } else {
      var n := |ids| - 1;
      assert ids == ids[..n] + [ids[n]] && ids[n] !in ids[..n];
      DistinctSize(ids[..n], all - {ids[n]});
    }
  }

  /** The timer panics exactly when more than 15 threads sleep until the tick or earlier. */
  lemma TimerPanicExact(s: Sched, due: set<ThreadId>)
    requires Inv(s) && forall id :: id in due <==> DueBy(s, id, Now(s) + 1_000_000)
    ensures TimerInterrupt(s).Panicked? <==> |due| > 15
  {
    hide QueueOk, DueBy, TimerInterrupt, Tick, ExpiredIds;
    StepInv(s, TimerStep);
    ThreadsListed(s);
    forall id ensures id in due <==> id in DueNext(s) {
      ExpiredExact(s, s.order, Now(s) + 1_000_000, id);
      IsThread(s, id, Now(s) + 1_000_000);
    }
    ExpiredDistinct(s.tcbs, s.order, Now(s) + 1_000_000);
    DistinctSize(DueNext(s), due);
  }

  lemma ThreadsListed(s: Sched)
    requires QueueOk(s)
    ensures Distinct(s.order) && forall id :: id in s.tcbs <==> id in s.order
  {
  }

  lemma IsThread(s: Sched, id: ThreadId, now: nat)
    ensures DueBy(s, id, now) ==> id in s.tcbs
  {
  }

  // ---------------------------------------------------------------- one tick

  lemma {:induction false} UnblockAllExact(s: Sched, ids: seq<ThreadId>)
    ensures UnblockAll(s, ids).tcbs.Keys == s.tcbs.Keys
    ensures forall id :: id in s.tcbs ==>
      UnblockAll(s, ids).tcbs[id].state == if id in ids && s.tcbs[id].state.Blocked? then Ready else s.tcbs[id].state
  {
    if ids != [] {
      var n := |ids| - 1;
      UnblockAllExact(s, ids[..n]);
      assert ids == ids[..n] + [ids[n]];
    }
  }

  /** `s'` has the same threads, the same ones blocked, and for the same reasons. */
  ghost predicate SameBlocked(s: Sched, s': Sched)
  {
    && s'.tcbs.Keys == s.tcbs.Keys
    && forall id :: id in s.tcbs && (s.tcbs[id].state.Blocked? || s'.tcbs[id].state.Blocked?) ==> s'.tcbs[id].state == s.tcbs[id].state
  }

  lemma ChargeBlocked(s: Sched)
    requires s.curr in s.tcbs && s.tcbs[s.curr].state != Running ==> s.tcbs[s.curr].slice == TIME_SLICE
    ensures SameBlocked(s, ChargeSlice(s))
  {
  }

  lemma SwitchKeepsBlocked(s: Sched)
    requires QueueOk(s) && SwitchIfNeeded(s).Returned?
    ensures SameBlocked(s, SwitchIfNeeded(s).value) && SwitchIfNeeded(s).value.elapsed == s.elapsed
  {
    hide SliceOk;
    if s.needsReschedule {
      var s1 := Requeue(s.(needsReschedule := false));
      assert forall id :: id in s1.queue ==> id in s1.tcbs && !s1.tcbs[id].state.Blocked?;
      assert s1.queue != [] ==> s1.queue[0] in s1.queue;
    }
  }

  /** A tick wakes every thread that sleeps until then or earlier, leaves every other blocked thread as it
      is, and blocks nobody. */
  lemma TimerWakes(s: Sched)
    requires Inv(s) && TimerInterrupt(s).Returned?
    ensures var s' := TimerInterrupt(s).value;
      && Now(s') == Now(s) + 1_000_000 && s'.tcbs.Keys == s.tcbs.Keys
      && (forall id, u: nat :: Asleep(s, id, u) && u <= Now(s') ==> !s'.tcbs[id].state.Blocked?)
      && (forall id, u: nat :: Asleep(s, id, u) && u > Now(s') ==> Asleep(s', id, u))
      && (forall id :: id in s.tcbs && s.tcbs[id].state.Blocked? && !s.tcbs[id].state.reason.Sleep? ==>
            s'.tcbs[id].state == s.tcbs[id].state)
      && (forall id :: id in s.tcbs && !s.tcbs[id].state.Blocked? ==> !s'.tcbs[id].state.Blocked?)
  {
    hide QueueOk, UnblockAll, ChargeSlice, SwitchIfNeeded, ExpiredIds;
    var s1 := s.(elapsed := s.elapsed + 1);
    var due := ExpiredIds(s1.tcbs, s1.order, s1.elapsed * 1_000_000);
    var s2 := UnblockAll(s1, due);
    var s3 := ChargeSlice(s2);
    ElapsedOk(s);
    UnblockAllOk(s1, due);
    UnblockAllExact(s1, due);
    ThreadsListed(s);
    forall id | id in s.tcbs ensures id in due <==> DueBy(s, id, Now(s) + 1_000_000) {
      ExpiredExact(s, s.order, Now(s) + 1_000_000, id);
    }
    ChargeBlocked(s2);
    ChargeElapsed(s2);
    TickOk(s);
    SwitchKeepsBlocked(s3);
  }

  /** So right after a tick whoever sleeps, sleeps until later. */
  lemma SleepsOn(s: Sched, id: ThreadId, u: nat)
    requires Inv(s) && TimerInterrupt(s).Returned? && Asleep(TimerInterrupt(s).value, id, u)
    ensures u > Now(TimerInterrupt(s).value)
  {
    hide Inv, TimerInterrupt;
    TimerWakes(s);
    assert id in s.tcbs;
    if s.tcbs[id].state.Blocked? && s.tcbs[id].state.reason.Sleep? {
      assert Asleep(s, id, s.tcbs[id].state.reason.until);
    }
  }

  lemma ChargeElapsed(s: Sched)
    ensures ChargeSlice(s).elapsed == s.elapsed
  {
  }

  // ---------------------------------------------------------------- runs

  /** Between ticks a thread falls asleep only in its own blocking section. */
  lemma StepSleeps(s: Sched, step: Step)
    requires Enabled(s, step) && Next(s, step).Returned? && !step.TimerStep?
    ensures var s' := Next(s, step).value;
      && s'.elapsed == s.elapsed
      && forall id, u: nat :: Asleep(s', id, u) ==> Asleep(s, id, u) || (step == BlockStep(Sleep(u)) && id == s.curr)
  {
  }

  lemma {:induction false} RunLast(s: Sched, steps: seq<Step>, s': Sched) returns (mid: Sched)
    requires steps != [] && Run(s, steps, s')
    ensures var n := |steps| - 1;
      Run(s, steps[..n], mid) && Enabled(mid, steps[n]) && Next(mid, steps[n]) == Returned(s')
    decreases |steps|
  {
    hide Next, Enabled;
    var n := |steps| - 1;
    if n == 0 {
      mid := s;
    } else {
      var s1 := Next(s, steps[0]).value;
      mid := RunLast(s1, steps[1..], s');
      assert steps[1..][..n - 1] == steps[..n][1..];
      assert Run(s, steps[..n], mid);
    }
  }

  /** In the run `steps` from `s`, thread `id` went to sleep until `u` at step `k`, and no tick followed. */
  ghost predicate SleptAt(s: Sched, steps: seq<Step>, id: ThreadId, u: nat, k: nat)
  {
    && k < |steps| && steps[k] == BlockStep(Sleep(u)) && (forall j :: k <= j < |steps| ==> !steps[j].TimerStep?)
    && exists mid :: Run(s, steps[..k], mid) && mid.curr == id
  }

  ghost predicate SleptSinceTick(s: Sched, steps: seq<Step>, id: ThreadId, u: nat)
  {
    exists k: nat :: SleptAt(s, steps, id, u, k)
  }

  lemma SleptLonger(s: Sched, steps: seq<Step>, id: ThreadId, u: nat)
    requires steps != [] && SleptSinceTick(s, steps[..|steps| - 1], id, u) && !steps[|steps| - 1].TimerStep?
    ensures SleptSinceTick(s, steps, id, u)
  {
    hide Run;
    var front := steps[..|steps| - 1];
    var k: nat :| SleptAt(s, front, id, u, k);
    assert front[..k] == steps[..k];
    assert SleptAt(s, steps, id, u, k);
  }

  lemma SleptNow(s: Sched, steps: seq<Step>, mid: Sched, u: nat)
    requires steps != [] && steps[|steps| - 1] == BlockStep(Sleep(u)) && Run(s, steps[..|steps| - 1], mid)
    ensures SleptSinceTick(s, steps, mid.curr, u)
  {
    hide Run;
    assert SleptAt(s, steps, mid.curr, u, |steps| - 1);
  }

  /** In every state reached from boot, whoever sleeps until the last tick or earlier went to sleep after
      that tick. */
  lemma {:induction false} NobodyOversleeps(steps: seq<Step>, s: Sched, id: ThreadId, u: nat)
    requires Run(Boot(), steps, s) && Asleep(s, id, u) && u <= Now(s)
    ensures SleptSinceTick(Boot(), steps, id, u)
    decreases |steps|
  {
    hide Next, Run, Inv, SleptSinceTick;
    if steps == [] {
      EmptyRun(s);
    } else {
      var n := |steps| - 1;
      var mid := RunLast(Boot(), steps, s);
      if steps[n].TimerStep? {
        BootInv();
        RunInv(Boot(), steps[..n], mid);
        TimerStepIs(mid);
        SleepsOn(mid, id, u);
      } else {
        StepSleeps(mid, steps[n]);
        if Asleep(mid, id, u) {
          NobodyOversleeps(steps[..n], mid, id, u);
          SleptLonger(Boot(), steps, id, u);
        } else {
          SleptNow(Boot(), steps, mid, u);
        }
      }
    }
  }

  lemma EmptyRun(s: Sched)
    requires Run(Boot(), [], s)
    ensures s.tcbs == map[]
  {
  }

  lemma TimerStepIs(s: Sched)
    ensures Next(s, TimerStep) == TimerInterrupt(s)
  {
  }
}
