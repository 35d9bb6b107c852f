/** The thread scheduler as a step system: what each critical section does to the threads, the
    ready queue, and the thread that owns the processor. */
module Scheduler {
  import opened Wrappers

  type ThreadId = nat

  datatype BlockReason =
    | Paused
    | Sleep(until: nat)
    | Terminated(status: nat)
    | CompositorWait
    | WaitPipeRead(pipe: nat)
    | WaitPipeWrite(pipe: nat)
    | WaitThread(thread: nat)
    | WaitStdin(tty: nat)
    | TtyRenderWait
    | AsyncExecutorWait
    | WaitMouse(mouse: nat)

  datatype ThreadState = Ready | Running | Blocked(reason: BlockReason)

  /** A thread control block; `slice` is the rest of its time slice in nanoseconds. */
  datatype Tcb = Tcb(state: ThreadState, slice: nat)

  const MAIN: ThreadId := 1
  const CLEANER: ThreadId := 2
  const TIME_SLICE := 100_000_000
  const TIME_BETWEEN_TICKS := 1_000_000
  const MAX_WAKE := 15

  /** `order` lists the spawned threads, `tcbs` holds their control blocks. The main thread is not
      among them and always counts as running. `atSwitch` are the threads that have left a blocking
      or yielding section and have yet to make the call of `switch_if_needed` that follows it. */
  datatype Sched = Sched(
    order: seq<ThreadId>,
    tcbs: map<ThreadId, Tcb>,
    queue: seq<ThreadId>,
    curr: ThreadId,
    needsReschedule: bool,
    elapsed: nat,
    atSwitch: set<ThreadId>)

  // ---------------------------------------------------------------- critical sections

  /** `spawn`: the cleaner, thread 2, is not queued. */
  function Spawn(s: Sched, id: ThreadId): Sched
  {
    s.(order := s.order + [id],
       tcbs := s.tcbs[id := Tcb(Ready, TIME_SLICE)],
       queue := if id > 2 then s.queue + [id] else s.queue)
  }

  /** `unblock_task` */
  function Unblock(s: Sched, id: ThreadId): Sched
  {
    if id in s.tcbs && s.tcbs[id].state.Blocked?
    then s.(tcbs := s.tcbs[id := s.tcbs[id].(state := Ready)], queue := s.queue + [id], needsReschedule := true)
    else s
  }

  function UnblockAll(s: Sched, ids: seq<ThreadId>): Sched
  {
    if ids == [] then s else Unblock(UnblockAll(s, ids[..|ids| - 1]), ids[|ids| - 1])
  }

  /** The locked section of `block_task` and `block_task_drop_lock`. */
  function Block(s: Sched, reason: BlockReason): Sched
    requires s.curr in s.tcbs
  {
    s.(tcbs := s.tcbs[s.curr := Tcb(Blocked(reason), TIME_SLICE)],
       needsReschedule := true,
       atSwitch := s.atSwitch + {s.curr})
  }

  /** The locked section of `yield_sched`. */
  function Yield(s: Sched): Sched
    requires s.curr in s.tcbs
  {
    s.(tcbs := s.tcbs[s.curr := Tcb(Ready, TIME_SLICE)],
       queue := s.queue + [s.curr],
       needsReschedule := true,
       atSwitch := s.atSwitch + {s.curr})
  }

  /** `pick_next_thread` followed by the switch to it: the front of the queue, or the main thread. */
  function PickNext(s: Sched): Outcome<Sched>
  {
    if s.queue == [] then Returned(s.(curr := MAIN))
    else
      var id := s.queue[0];
      if id !in s.tcbs then Panicked
      else Returned(s.(queue := s.queue[1..], tcbs := s.tcbs[id := s.tcbs[id].(state := Running)], curr := id))
  }

  /** A current thread that still runs goes to the back of the queue. */
  function Requeue(s: Sched): Sched
  {
    if s.curr in s.tcbs && s.tcbs[s.curr].state == Running
    then s.(tcbs := s.tcbs[s.curr := Tcb(Ready, TIME_SLICE)], queue := s.queue + [s.curr])
    else s
  }

  /** `switch_if_needed`, as one step. */
  function SwitchIfNeeded(s: Sched): Outcome<Sched>
  {
    if !s.needsReschedule then Returned(s) else PickNext(Requeue(s.(needsReschedule := false)))
  }

  // ---------------------------------------------------------------- the timer

  predicate Expired(t: Tcb, now: nat)
  {
    t.state.Blocked? && t.state.reason.Sleep? && t.state.reason.until <= now
  }

  /** The sleepers of `order` whose time has come. */
  function ExpiredIds(tcbs: map<ThreadId, Tcb>, order: seq<ThreadId>, now: nat): seq<ThreadId>
  {
    if order == [] then []
    else
      var n := |order| - 1;
      var before := ExpiredIds(tcbs, order[..n], now);
      if order[n] in tcbs && Expired(tcbs[order[n]], now) then before + [order[n]] else before
  }

  /** The time-slice part of the handler. */
  function ChargeSlice(s: Sched): Sched
  {
    if s.curr in s.tcbs then
      var t := s.tcbs[s.curr];
      if t.slice <= TIME_BETWEEN_TICKS
      then s.(tcbs := s.tcbs[s.curr := Tcb(Ready, TIME_SLICE)], queue := s.queue + [s.curr], needsReschedule := true)
      else s.(tcbs := s.tcbs[s.curr := t.(slice := t.slice - TIME_BETWEEN_TICKS)])
    else if s.queue != [] then s.(needsReschedule := true)
    else s
  }

  /** The locked section of the timer interrupt; more than 15 sleepers due at once overrun the
      array that collects them. */
  function Tick(s: Sched): Outcome<Sched>
  {
    var s1 := s.(elapsed := s.elapsed + 1);
    var due := ExpiredIds(s1.tcbs, s1.order, s1.elapsed * 1_000_000);
    if |due| > MAX_WAKE then Panicked else Returned(ChargeSlice(UnblockAll(s1, due)))
  }

  /** The whole interrupt: the locked section and, interrupts still off, the switch. */
  function TimerInterrupt(s: Sched): Outcome<Sched>
  {
    match Tick(s)
    case Panicked => Panicked
    case Returned(s1) => SwitchIfNeeded(s1)
  }

  // ---------------------------------------------------------------- steps

  datatype Step =
    | SpawnStep(id: ThreadId)
    | UnblockStep(id: ThreadId)
    | BlockStep(reason: BlockReason)
    | YieldStep
    | SwitchStep
    | TimerStep

  /** Which steps can come next. Unblocking also happens in interrupt handlers, so like the timer it
      is always possible; after a blocking or yielding section a thread only calls
      `switch_if_needed`. The main thread idles and neither blocks nor yields. */
  predicate Enabled(s: Sched, step: Step)
  {
    match step
    case SpawnStep(id) => s.curr !in s.atSwitch && id >= 2 && id !in s.tcbs
    case UnblockStep(_) => true
    case BlockStep(_) => s.curr != MAIN && s.curr in s.tcbs && s.curr !in s.atSwitch
    case YieldStep => s.curr != MAIN && s.curr in s.tcbs && s.curr !in s.atSwitch
    case SwitchStep => s.curr in s.atSwitch
    case TimerStep => true
  }

  function Next(s: Sched, step: Step): Outcome<Sched>
    requires Enabled(s, step)
  {
    match step
    case SpawnStep(id) => Returned(Spawn(s, id))
    case UnblockStep(id) => Returned(Unblock(s, id))
    case BlockStep(reason) => Returned(Block(s, reason))
    case YieldStep => Returned(Yield(s))
    case SwitchStep => SwitchIfNeeded(s.(atSwitch := s.atSwitch - {s.curr}))
    case TimerStep => TimerInterrupt(s)
  }

  /** The boot state: only the main thread. */
  function Boot(): Sched { Sched([], map[], [], MAIN, false, 0, {}) }

  // ---------------------------------------------------------------- the invariant

  ghost predicate SliceOk(t: Tcb)
  {
    TIME_BETWEEN_TICKS <= t.slice <= TIME_SLICE && t.slice % TIME_BETWEEN_TICKS == 0
  }

  /** Holds between steps, and inside them whenever the lock is free. */
  ghost predicate QueueOk(s: Sched)
  {
    // the threads, each with one control block
    && Distinct(s.order) && (forall id :: id in s.tcbs <==> id in s.order)
    && MAIN !in s.tcbs
    // the queue holds every ready thread but the cleaner, and nothing else, once
    && Distinct(s.queue)
    && (forall id :: id in s.queue <==> id in s.tcbs && id != CLEANER && s.tcbs[id].state == Ready)
    // only the current thread runs
    && (forall id :: id in s.tcbs && s.tcbs[id].state == Running ==> id == s.curr)
    && (forall id :: id in s.tcbs ==> SliceOk(s.tcbs[id]))
    // the cleaner never gets to run
    && (CLEANER in s.tcbs ==> s.tcbs[CLEANER].state == Ready) && s.curr != CLEANER
    && (s.curr == MAIN || s.curr in s.tcbs)
    && MAIN !in s.atSwitch
  }

  /** A current thread that no longer runs has its switch pending, and a full slice. */
  ghost predicate CurrentOk(s: Sched)
  {
    s.curr in s.tcbs && s.tcbs[s.curr].state != Running ==>
      s.needsReschedule && s.curr in s.atSwitch && s.tcbs[s.curr].slice == TIME_SLICE
  }

  ghost predicate Inv(s: Sched) { QueueOk(s) && CurrentOk(s) }

  /** Slices do not depend on the state. */
  lemma SliceOfState(t: Tcb)
    ensures forall state :: SliceOk(Tcb(state, t.slice)) == SliceOk(t)
  {
  }

  lemma BootInv()
    ensures Inv(Boot())
  {
  }

  lemma SpawnInv(s: Sched, id: ThreadId)
    requires Inv(s) && id >= 2 && id !in s.tcbs
    ensures Inv(Spawn(s, id))
  {
    hide SliceOk;
    FullSliceOk(Ready);
  }

  lemma UnblockQueueOk(s: Sched, id: ThreadId)
    requires QueueOk(s)
    ensures QueueOk(Unblock(s, id))
  {
    hide SliceOk;
    if id in s.tcbs { SliceOfState(s.tcbs[id]); }
  }

  lemma BlockInv(s: Sched, reason: BlockReason)
    requires Inv(s) && Enabled(s, BlockStep(reason))
    ensures Inv(Block(s, reason))
  {
    hide SliceOk;
    FullSliceOk(Blocked(reason));
  }

  lemma YieldInv(s: Sched)
    requires Inv(s) && Enabled(s, YieldStep)
    ensures Inv(Yield(s))
  {
    hide SliceOk;
    FullSliceOk(Ready);
  }

  lemma RequeueOk(s: Sched)
    requires QueueOk(s)
    ensures QueueOk(Requeue(s)) && forall id :: id in Requeue(s).tcbs ==> Requeue(s).tcbs[id].state != Running
  {
    hide SliceOk;
    FullSliceOk(Ready);
  }

  lemma PickNextInv(s: Sched)
    requires QueueOk(s) && forall id :: id in s.tcbs ==> s.tcbs[id].state != Running
    ensures PickNext(s).Returned? && Inv(PickNext(s).value)
  {
    hide SliceOk;
    if s.queue != [] {
      assert s.queue[0] in s.queue;
      SliceOfState(s.tcbs[s.queue[0]]);
      var q := s.queue[1..];
      assert forall id :: id in s.queue <==> id == s.queue[0] || id in q;
      assert s.queue[0] !in q;
    }
  }

  /** The switch never fails to find the thread it picked. */
  lemma SwitchInv(s: Sched)
    requires QueueOk(s) && (s.needsReschedule || CurrentOk(s))
    ensures SwitchIfNeeded(s).Returned? && Inv(SwitchIfNeeded(s).value)
  {
    hide QueueOk, PickNext, Requeue;
    if s.needsReschedule {
      FlagOk(s);
      RequeueOk(s.(needsReschedule := false));
      PickNextInv(Requeue(s.(needsReschedule := false)));
    }
  }

  lemma FlagOk(s: Sched)
    requires QueueOk(s)
    ensures QueueOk(s.(needsReschedule := false))
  {
  }

  lemma {:induction false} UnblockAllOk(s: Sched, ids: seq<ThreadId>)
    requires QueueOk(s)
    ensures QueueOk(UnblockAll(s, ids))
    ensures var s' := UnblockAll(s, ids);
      && s'.curr == s.curr && s'.atSwitch == s.atSwitch && s'.order == s.order && s'.elapsed == s.elapsed
      && s'.tcbs.Keys == s.tcbs.Keys
      && (forall id :: id in s.tcbs ==> s'.tcbs[id].slice == s.tcbs[id].slice)
      && (forall id :: id in s.tcbs ==>
            s'.tcbs[id].state == s.tcbs[id].state || (s.tcbs[id].state.Blocked? && s'.tcbs[id].state == Ready))
      && s.queue <= s'.queue
      && (s.needsReschedule ==> s'.needsReschedule)
  {
    hide QueueOk;
    if ids != [] {
      var mid := UnblockAll(s, ids[..|ids| - 1]);
      UnblockAllOk(s, ids[..|ids| - 1]);
      UnblockQueueOk(mid, ids[|ids| - 1]);
    }
  }

  /** The slice charge keeps the queue in order: a thread is requeued at most once. */
  lemma ChargeSliceOk(s: Sched)
    requires QueueOk(s)
    requires s.curr in s.tcbs && s.tcbs[s.curr].state != Running ==> s.needsReschedule && s.tcbs[s.curr].slice == TIME_SLICE
    ensures var s' := ChargeSlice(s); QueueOk(s') && (s'.needsReschedule || CurrentOk(s'))
  {
    if s.curr in s.tcbs {
      if s.tcbs[s.curr].slice <= TIME_BETWEEN_TICKS {
        ExpiryOk(s);
      } else {
        ChargeOk(s);
      }
    }
  }

  lemma ExpiryOk(s: Sched)
    requires QueueOk(s) && s.curr in s.tcbs && s.tcbs[s.curr].state == Running
    ensures QueueOk(s.(tcbs := s.tcbs[s.curr := Tcb(Ready, TIME_SLICE)], queue := s.queue + [s.curr], needsReschedule := true))
  {
    hide SliceOk;
    FullSliceOk(Ready);
  }

  lemma ChargeOk(s: Sched)
    requires QueueOk(s) && s.curr in s.tcbs && s.tcbs[s.curr].slice > TIME_BETWEEN_TICKS
    ensures var t := s.tcbs[s.curr];
      QueueOk(s.(tcbs := s.tcbs[s.curr := t.(slice := t.slice - TIME_BETWEEN_TICKS)]))
  {
    hide SliceOk;
    SliceLess(s.tcbs[s.curr]);
  }

  lemma FullSliceOk(state: ThreadState)
    ensures SliceOk(Tcb(state, TIME_SLICE))
  {
  }

  lemma SliceLess(t: Tcb)
    requires SliceOk(t) && t.slice > TIME_BETWEEN_TICKS
    ensures SliceOk(t.(slice := t.slice - TIME_BETWEEN_TICKS))
  {
  }

  lemma TickOk(s: Sched)
    requires Inv(s) && Tick(s).Returned?
    ensures var s' := Tick(s).value; QueueOk(s') && (s'.needsReschedule || CurrentOk(s'))
  {
    hide QueueOk, ChargeSlice, UnblockAll;
    var s1 := s.(elapsed := s.elapsed + 1);
    ElapsedOk(s);
    var due := ExpiredIds(s1.tcbs, s1.order, s1.elapsed * 1_000_000);
    UnblockAllOk(s1, due);
    ChargeSliceOk(UnblockAll(s1, due));
  }

  lemma ElapsedOk(s: Sched)
    requires QueueOk(s)
    ensures QueueOk(s.(elapsed := s.elapsed + 1))
  {
  }

  /** Sleepers due at the next tick. */
  function DueNext(s: Sched): seq<ThreadId>
  {
    ExpiredIds(s.tcbs, s.order, (s.elapsed + 1) * 1_000_000)
  }

  /** Every step keeps the invariant, and the only panic left is the timer's wake-up array. */
  lemma StepInv(s: Sched, step: Step)
    requires Inv(s) && Enabled(s, step)
    ensures Next(s, step).Panicked? <==> step.TimerStep? && |DueNext(s)| > MAX_WAKE
    ensures Next(s, step).Returned? ==> Inv(Next(s, step).value)
  {
    hide QueueOk, SwitchIfNeeded, UnblockAll, ChargeSlice;
    match step
    case SpawnStep(id) => SpawnInv(s, id);
    case UnblockStep(id) => UnblockInv(s, id);
    case BlockStep(reason) => BlockInv(s, reason);
    case YieldStep => YieldInv(s);
    case SwitchStep =>
      LeaveSwitchOk(s);
      SwitchInv(s.(atSwitch := s.atSwitch - {s.curr}));
    case TimerStep =>
      if |DueNext(s)| <= MAX_WAKE {
        TickOk(s);
        SwitchInv(Tick(s).value);
      }
  }

  lemma UnblockInv(s: Sched, id: ThreadId)
    requires Inv(s)
    ensures Inv(Unblock(s, id))
  {
    hide QueueOk;
    UnblockQueueOk(s, id);
  }

  lemma LeaveSwitchOk(s: Sched)
    requires Inv(s) && s.curr in s.atSwitch
    ensures var s' := s.(atSwitch := s.atSwitch - {s.curr});
      QueueOk(s') && (s'.needsReschedule || CurrentOk(s'))
  {
  }

  // ---------------------------------------------------------------- runs

  /** `s'` is reached from `s` by `steps`, each enabled in its turn and none panicking. */
  ghost predicate Run(s: Sched, steps: seq<Step>, s': Sched)
    decreases |steps|
  {
    if steps == [] then s' == s
    else Enabled(s, steps[0]) && Next(s, steps[0]).Returned? && Run(Next(s, steps[0]).value, steps[1..], s')
  }

  lemma {:induction false} RunInv(s: Sched, steps: seq<Step>, s': Sched)
    requires Inv(s) && Run(s, steps, s')
    ensures Inv(s')
    decreases |steps|
  {
    hide Inv;
    if steps != [] {
      StepInv(s, steps[0]);
      RunInv(Next(s, steps[0]).value, steps[1..], s');
    }
  }

  /** In every state reached from boot: the ready queue has no duplicates and holds exactly the
      ready threads other than the cleaner; only the current thread runs; the cleaner never does;
      and the next step panics only for more than 15 sleepers due together. */
  lemma ReachableOk(steps: seq<Step>, s: Sched)
    requires Run(Boot(), steps, s)
    ensures Distinct(s.queue)
    ensures forall id :: id in s.queue <==> id in s.tcbs && id != CLEANER && s.tcbs[id].state == Ready
    ensures forall id :: id in s.tcbs && s.tcbs[id].state == Running ==> id == s.curr
    ensures s.curr != CLEANER
    ensures forall step :: Enabled(s, step) ==> (Next(s, step).Panicked? <==> step.TimerStep? && |DueNext(s)| > MAX_WAKE)
  {
    hide Next, Run;
    BootInv();
    RunInv(Boot(), steps, s);
    forall step | Enabled(s, step)
      ensures Next(s, step).Panicked? <==> step.TimerStep? && |DueNext(s)| > MAX_WAKE
    {
      StepInv(s, step);
    }
  }
}
