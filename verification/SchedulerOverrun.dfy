/** The timer's wake-up array does overrun: a run from boot that ends with as many sleepers due at the
    next tick as one likes. */
module SchedulerOverrun {
  import opened Wrappers
  import opened Scheduler

  const WAKE_AT := 2_000_000

  function Ids(n: nat): seq<ThreadId> { seq(n, i => i + 3) }

  lemma {:induction false} RunStep(s: Sched, steps: seq<Step>, s1: Sched, step: Step, s2: Sched)
    requires Run(s, steps, s1) && Enabled(s1, step) && Next(s1, step) == Returned(s2)
    ensures Run(s, steps + [step], s2)
    decreases |steps|
  {
    var all := steps + [step];
    if steps == [] {
      assert all[0] == step && all[1..] == [];
    } else {
      assert all[0] == steps[0] && all[1..] == steps[1..] + [step];
      RunStep(Next(s, steps[0]).value, steps[1..], s1, step, s2);
    }
  }

  /** Threads 3 to n + 2, all ready and none run yet. */
  ghost predicate Spawned(s: Sched, n: nat)
  {
    && s.order == Ids(n) && s.queue == Ids(n) && s.curr == MAIN && !s.needsReschedule && s.elapsed == 0 && s.atSwitch == {}
    && (forall id :: id in s.tcbs <==> id in s.order)
    && (forall id :: id in s.tcbs ==> s.tcbs[id] == Tcb(Ready, TIME_SLICE))
  }

  lemma SpawnAll(n: nat) returns (steps: seq<Step>, s: Sched)
    ensures Run(Boot(), steps, s) && Spawned(s, n)
  {
    hide Run;
    steps, s := [], Boot();
    assert Run(Boot(), [], Boot()) by { RunNothing(Boot()); }
    for i := 0 to n
      invariant Run(Boot(), steps, s) && Spawned(s, i)
    {
      var s' := Spawn(s, i + 3);
      assert Ids(i + 1) == Ids(i) + [i + 3];
      assert i + 3 !in s.tcbs;
      RunStep(Boot(), steps, s, SpawnStep(i + 3), s');
      steps, s := steps + [SpawnStep(i + 3)], s';
    }
  }

  lemma RunNothing(s: Sched)
    ensures Run(s, [], s)
  {
  }

  /** The first `j` threads sleep; thread j + 3 runs, or the main thread when all sleep. */
  ghost predicate Asleep(s: Sched, n: nat, j: nat)
  {
    && j <= n && s.order == Ids(n) && s.elapsed == 1 && s.atSwitch == {} && !s.needsReschedule
    && (if j == n then s.curr == MAIN && s.queue == [] else s.curr == j + 3 && s.queue == Ids(n)[j + 1..])
    && (forall id :: id in s.tcbs <==> id in s.order)
    && (forall id :: id in s.tcbs ==> s.tcbs[id].state == StateOf(id, j))
  }

  function StateOf(id: ThreadId, j: nat): ThreadState
  {
    if id < j + 3 then Blocked(Sleep(WAKE_AT)) else if id == j + 3 then Running else Ready
  }

  lemma {:induction false} NoneDue(tcbs: map<ThreadId, Tcb>, order: seq<ThreadId>, now: nat)
    requires forall id :: id in tcbs ==> tcbs[id].state == Ready
    ensures ExpiredIds(tcbs, order, now) == []
  {
    if order != [] { NoneDue(tcbs, order[..|order| - 1], now); }
  }

  lemma {:induction false} AllDue(tcbs: map<ThreadId, Tcb>, order: seq<ThreadId>, now: nat)
    requires forall id :: id in order ==> id in tcbs && Expired(tcbs[id], now)
    ensures ExpiredIds(tcbs, order, now) == order
  {
    if order != [] {
      AllDue(tcbs, order[..|order| - 1], now);
      assert order[|order| - 1] in order;
    }
  }

  /** The first tick takes the processor from the main thread. */
  lemma FirstTick(s: Sched, n: nat) returns (s': Sched)
    requires Spawned(s, n) && n > 0
    ensures Next(s, TimerStep) == Returned(s') && Asleep(s', n, 0)
  {
    var s1 := s.(elapsed := 1);
    NoneDue(s1.tcbs, s1.order, 1_000_000);
    assert Tick(s) == Returned(s1.(needsReschedule := true));
    s' := TimerInterrupt(s).value;
    assert Ids(n)[0] == 3;
  }

  /** The current thread goes to sleep and the next one runs. */
  lemma OneSleeps(s: Sched, n: nat, j: nat) returns (s1: Sched, s2: Sched)
    requires Asleep(s, n, j) && j < n
    ensures Enabled(s, BlockStep(Sleep(WAKE_AT))) && Next(s, BlockStep(Sleep(WAKE_AT))) == Returned(s1)
    ensures Enabled(s1, SwitchStep) && Next(s1, SwitchStep) == Returned(s2) && Asleep(s2, n, j + 1)
  {
    assert Ids(n)[j] == j + 3;
    s1 := Block(s, Sleep(WAKE_AT));
    var idle := s1.(atSwitch := {}, needsReschedule := false);
    assert s1.atSwitch - {s1.curr} == {};
    assert SwitchIfNeeded(s1.(atSwitch := {})) == PickNext(idle);
    if j + 1 < n {
      assert s1.queue[0] == Ids(n)[j + 1] == j + 4;
      assert s1.queue[1..] == Ids(n)[j + 2..];
    } else {
      assert s1.queue == [];
    }
    s2 := PickNext(idle).value;
  }

  /** From boot, `n` sleepers can fall due at one tick; with more than 15 of them the handler panics. */
  lemma SleepersDue(n: nat) returns (steps: seq<Step>, s: Sched)
    requires n > 0
    ensures Run(Boot(), steps, s) && |DueNext(s)| == n
    ensures n > MAX_WAKE ==> Next(s, TimerStep).Panicked?
  {
    hide Run, Next;
    steps, s := SpawnAll(n);
    var s' := FirstTick(s, n);
    RunStep(Boot(), steps, s, TimerStep, s');
    steps, s := steps + [TimerStep], s';
    for j := 0 to n
      invariant Run(Boot(), steps, s) && Asleep(s, n, j)
    {
      var s1, s2 := OneSleeps(s, n, j);
      RunStep(Boot(), steps, s, BlockStep(Sleep(WAKE_AT)), s1);
      RunStep(Boot(), steps + [BlockStep(Sleep(WAKE_AT))], s1, SwitchStep, s2);
      steps, s := steps + [BlockStep(Sleep(WAKE_AT))] + [SwitchStep], s2;
    }
    AllDue(s.tcbs, s.order, 2_000_000);
    TooManyDue(s);
  }

  lemma TooManyDue(s: Sched)
    ensures |DueNext(s)| > MAX_WAKE ==> Next(s, TimerStep).Panicked?
  {
  }
}
