/** The interrupt-disabling lock: a global count of live guards, the interrupt flag, and the flag's
    value from before the outermost guard, under nesting, interrupts, context switches and the
    programs that lead to a context switch. */
module IrqLock {
  import opened Wrappers

  type ThreadId = nat

  /** The programs that end in `switch_if_needed`. */
  datatype Program = BlockTask | YieldSched | SwitchCall | TimerHandler

  /** How far an activation is in such a program; `Own` is any other code. */
  datatype Pc =
    | Own
    | ToLock(p: Program)     // about to lock the scheduler
    | Locked(p: Program)     // inside the critical section of the program
    | ToCheck(p: Program)    // `switch_if_needed`: about to look at the flag and the counter
    | ToPick(p: Program)     // about to lock the scheduler for picking a thread
    | Picking(p: Program)    // inside that section
    | ToSwitch(p: Program)   // about to call `switch_to_task`
    | Ended(p: Program)      // `switch_if_needed` has returned

  /** One activation on a thread's stack: the guards it holds, the flag value it has read if it is in
      the middle of `lock`, where it is, and the guards it held when it called the program it is in. */
  datatype Context = Context(guards: nat, pending: Option<bool>, pc: Pc, entry: nat)

  /** A thread: its own code at the bottom, interrupt handlers above it; and the interrupt flag saved
      while it is switched out. */
  datatype Thread = Thread(frames: seq<Context>, savedIrq: bool)

  /** `counter`, `wasOn` and `needs` are the globals of the lock and the scheduler, `irqOn` is the
      processor's flag. `outer` remembers the flag's value when the outermost live guard was taken. */
  datatype Sys = Sys(
    irqOn: bool,
    counter: nat,
    wasOn: bool,
    needs: bool,
    outer: bool,
    curr: ThreadId,
    threads: map<ThreadId, Thread>)

  predicate WellFormed(s: Sys)
  {
    s.curr in s.threads && forall t :: t in s.threads ==> |s.threads[t].frames| > 0
  }

  function TopOf(t: Thread): Context
    requires |t.frames| > 0
  {
    t.frames[|t.frames| - 1]
  }

  function Top(s: Sys): Context
    requires WellFormed(s)
  {
    TopOf(s.threads[s.curr])
  }

  function WithTop(s: Sys, c: Context): (s': Sys)
    requires WellFormed(s)
    ensures WellFormed(s') && Top(s') == c
  {
    var t := s.threads[s.curr];
    s.(threads := s.threads[s.curr := t.(frames := t.frames[|t.frames| - 1 := c])])
  }

  /** The steps of a run, from the point of view of the thread on the processor. */
  datatype Step =
    | ReadFlag                    // `lock`: see whether interrupts are on
    | TakeGuard                   // `lock`: turn them off and count the guard
    | DropGuard                   // a guard goes out of scope
    | RequestSwitch               // a wake-up sets the reschedule flag
    | Call(p: Program)            // a call of `block_task`, `yield_sched` or `switch_if_needed`
    | SwitchCheck                 // `switch_if_needed` looks at the flag and the counter
    | SwitchTo(next: ThreadId)    // `switch_to_task`: flags are saved and restored per thread
    | Return                      // the program returns to its caller
    | Interrupt(timer: bool)      // a handler starts, interrupts off
    | ReturnFromInterrupt         // `iretq` brings the flag back

  /** What the code on the processor can do next. A program may be called with any guards held; the
      guards of a handler other than the timer's are scoped to it. */
  predicate Enabled(s: Sys, step: Step)
    requires WellFormed(s)
  {
    var top := Top(s);
    match step
    case ReadFlag => top.pending.None? && (top.pc.Own? || top.pc.ToLock? || top.pc.ToPick?)
    case TakeGuard => top.pending.Some?
    case DropGuard => top.pending.None? && ((top.pc.Own? && top.guards > 0) || top.pc.Locked? || top.pc.Picking?)
    case RequestSwitch => top.pc.Own? || top.pc.Locked?
    case Call(p) => top.pending.None? && top.pc.Own? && p != TimerHandler
    case SwitchCheck => top.pc.ToCheck?
    case SwitchTo(next) => top.pc.ToSwitch? && next in s.threads
    case Return => top.pc.Ended? && top.pc.p != TimerHandler
    case Interrupt(_) => s.irqOn
    case ReturnFromInterrupt =>
      && |s.threads[s.curr].frames| > 1
      && (top.pc == Ended(TimerHandler) || (top.pc.Own? && top.guards == 0 && top.pending.None?))
  }

  /** Where taking a guard leads. */
  function AfterTake(pc: Pc): Pc
  {
    match pc
    case ToLock(p) => Locked(p)
    case ToPick(p) => Picking(p)
    case _ => pc
  }

  /** Where dropping one leads. */
  function AfterDrop(pc: Pc): Pc
  {
    match pc
    case Locked(p) => ToCheck(p)
    case Picking(p) => ToSwitch(p)
    case _ => pc
  }

  /** Blocking and yielding set the reschedule flag inside their section. */
  predicate AsksForSwitch(pc: Pc) { pc.Locked? && (pc.p == BlockTask || pc.p == YieldSched) }

  function Next(s: Sys, step: Step): (r: Outcome<Sys>)
    requires WellFormed(s) && Enabled(s, step)
  {
    var top := Top(s);
    var t := s.threads[s.curr];
    match step
    case ReadFlag => Returned(WithTop(s, top.(pending := Some(s.irqOn))))
    case TakeGuard =>
      var was := top.pending.value;
      var s1 := WithTop(s, top.(guards := top.guards + 1, pending := None, pc := AfterTake(top.pc)))
        .(irqOn := false, counter := s.counter + 1);
      Returned(if s.counter == 0 then s1.(wasOn := was, outer := s.irqOn) else s1)
    case DropGuard =>
      if s.counter == 0 || top.guards == 0 then Panicked
      else
        var s1 := WithTop(s, top.(guards := top.guards - 1, pc := AfterDrop(top.pc)))
          .(counter := s.counter - 1, needs := s.needs || AsksForSwitch(top.pc));
        Returned(if s.counter == 1 && s.wasOn then s1.(irqOn := true) else s1)
    case RequestSwitch => Returned(s.(needs := true))
    case Call(p) =>
      Returned(WithTop(s, top.(pc := if p == SwitchCall then ToCheck(p) else ToLock(p), entry := top.guards)))
    case SwitchCheck =>
      if !s.needs then Returned(WithTop(s, top.(pc := Ended(top.pc.p))))
      else if s.counter > 0 then Panicked
      else Returned(WithTop(s, top.(pc := ToPick(top.pc.p))).(needs := false))
    case SwitchTo(next) =>
      var out := Thread(t.frames[|t.frames| - 1 := top.(pc := Ended(top.pc.p))], s.irqOn);
      var saved := s.threads[s.curr := out];
      Returned(s.(threads := saved, curr := next, irqOn := saved[next].savedIrq))
    case Return => Returned(WithTop(s, top.(pc := Own)))
    case Interrupt(timer) =>
      var handler := Context(0, None, if timer then ToLock(TimerHandler) else Own, 0);
      Returned(s.(irqOn := false, threads := s.threads[s.curr := t.(frames := t.frames + [handler])]))
    case ReturnFromInterrupt =>
      Returned(s.(irqOn := true, threads := s.threads[s.curr := t.(frames := t.frames[..|t.frames| - 1])]))
  }

  // ---------------------------------------------------------------- the invariant

  /** Each program reaches the check and the switch with exactly the guards its caller held. */
  predicate ContextOk(c: Context)
  {
    match c.pc
    case Own => true
    case ToLock(p) => c.guards == c.entry && (p == TimerHandler ==> c.entry == 0)
    case Locked(p) => c.guards == c.entry + 1 && c.pending.None? && (p == TimerHandler ==> c.entry == 0)
    case ToCheck(p) => c.guards == c.entry && c.pending.None? && (p == TimerHandler ==> c.entry == 0)
    case ToPick(_) => c.guards == c.entry == 0
    case Picking(_) => c.guards == 1 && c.entry == 0 && c.pending.None?
    case ToSwitch(_) => c.guards == c.entry == 0 && c.pending.None?
    case Ended(p) => c.guards == c.entry && c.pending.None? && (p == TimerHandler ==> c.entry == 0)
  }

  /** A context that something else runs on top of, or in place of, holds no guard; if it was
      interrupted inside `lock`, interrupts had been on. */
  predicate Quiet(c: Context) { c.guards == 0 && (c.pending.Some? ==> c.pending.value) && ContextOk(c) }

  ghost predicate BelowQuiet(frames: seq<Context>)
  {
    forall i :: 0 <= i < |frames| - 1 ==> Quiet(frames[i])
  }

  /** A thread that is switched out. */
  predicate Waits(t: Thread) { |t.frames| > 0 && Quiet(TopOf(t)) && TopOf(t).pending.None? }

  ghost predicate ThreadsOk(s: Sys)
  {
    && (forall t :: t in s.threads ==> BelowQuiet(s.threads[t].frames))
    && (forall t :: t in s.threads && t != s.curr ==> Waits(s.threads[t]))
  }

  ghost predicate Inv(s: Sys)
  {
    && WellFormed(s) && ThreadsOk(s) && ContextOk(Top(s))
    && s.counter == Top(s).guards
    && (Top(s).pending.Some? ==> Top(s).pending.value == s.irqOn)
    && (s.counter > 0 ==> !s.irqOn && s.wasOn == s.outer)
    && (Blocking(Top(s)) && Top(s).entry > 0 ==> s.needs)
  }

  /** At the check of `block_task` or `yield_sched`. */
  predicate Blocking(c: Context) { c.pc == ToCheck(BlockTask) || c.pc == ToCheck(YieldSched) }

  /** The guards that exist: those of every context of every thread. */
  ghost function Guards(frames: seq<Context>): nat
  {
    if frames == [] then 0 else frames[0].guards + Guards(frames[1..])
  }

  /** Every step keeps the invariant. The one panic is a call of the scheduler, with a switch asked
      for, by code that already held a guard when it made the call. The drop of the outermost guard
      gives the interrupt flag the value it had before. */
  lemma StepInv(s: Sys, step: Step)
    requires Inv(s) && Enabled(s, step)
    ensures Next(s, step).Panicked? <==> step.SwitchCheck? && s.needs && Top(s).entry > 0
    ensures Next(s, step).Returned? ==> Inv(Next(s, step).value)
    ensures step.DropGuard? && s.counter == 1 ==> Next(s, step).value.irqOn == s.outer
    ensures step.TakeGuard? && s.counter == 0 ==> Next(s, step).value.outer == s.irqOn
  {
    hide ThreadsOk, Quiet, Next;
    match step
    case ReadFlag => LockInv(s, step);
    case TakeGuard => LockInv(s, step);
    case DropGuard => DropInv(s);
    case SwitchTo(next) => SwitchInv(s, next);
    case Interrupt(timer) => InterruptInv(s, timer);
    case ReturnFromInterrupt => ReturnInv(s);
    case _ => ProgramInv(s, step);
  }

  lemma LockInv(s: Sys, step: Step)
    requires Inv(s) && Enabled(s, step) && (step.ReadFlag? || step.TakeGuard?)
    ensures Next(s, step).Returned? && Inv(Next(s, step).value)
    ensures step.TakeGuard? && s.counter == 0 ==> Next(s, step).value.outer == s.irqOn
  {
    hide ThreadsOk;
    var s' := Next(s, step).value;
    TopInv(s, Top(s'), s');
  }

  lemma DropInv(s: Sys)
    requires Inv(s) && Enabled(s, DropGuard)
    ensures Next(s, DropGuard).Returned? && Inv(Next(s, DropGuard).value)
    ensures s.counter == 1 ==> Next(s, DropGuard).value.irqOn == s.outer
  {
    hide ThreadsOk;
    var s' := Next(s, DropGuard).value;
    TopInv(s, Top(s'), s');
  }

  lemma ProgramInv(s: Sys, step: Step)
    requires Inv(s) && Enabled(s, step) && (step.RequestSwitch? || step.Call? || step.SwitchCheck? || step.Return?)
    ensures Next(s, step).Panicked? <==> step.SwitchCheck? && s.needs && Top(s).entry > 0
    ensures Next(s, step).Returned? ==> Inv(Next(s, step).value)
  {
    hide ThreadsOk;
    if Next(s, step).Returned? {
      var s' := Next(s, step).value;
      if step.RequestSwitch? { SameTop(s); }
      TopInv(s, Top(s'), s');
    }
  }

  lemma SameTop(s: Sys)
    requires WellFormed(s)
    ensures WithTop(s, Top(s)).threads == s.threads
  {
    var f := s.threads[s.curr].frames;
    assert f[|f| - 1 := Top(s)] == f;
  }

  /** Changing the context on top leaves everything below it and every other thread alone. */
  lemma TopInv(s: Sys, c: Context, s': Sys)
    requires WellFormed(s) && ThreadsOk(s) && s'.threads == WithTop(s, c).threads && s'.curr == s.curr
    ensures ThreadsOk(s')
  {
    hide Quiet, Waits;
    var f := s.threads[s.curr].frames;
    var g := s'.threads[s.curr].frames;
    assert BelowQuiet(f);
    assert forall i :: 0 <= i < |f| - 1 ==> g[i] == f[i];
  }

  lemma SwitchInv(s: Sys, next: ThreadId)
    requires Inv(s) && Enabled(s, SwitchTo(next))
    ensures Next(s, SwitchTo(next)).Returned? && Inv(Next(s, SwitchTo(next)).value)
  {
    hide ThreadsOk;
    var s' := Next(s, SwitchTo(next)).value;
    var c := Top(s).(pc := Ended(Top(s).pc.p));
    var s1 := WithTop(s, c);
    TopInv(s, c, s1);
    SwitchThreads(s1, s');
  }

  lemma SwitchThreads(s1: Sys, s': Sys)
    requires WellFormed(s1) && ThreadsOk(s1) && s'.threads.Keys == s1.threads.Keys && s'.curr in s1.threads
    requires forall t :: t in s1.threads ==> s'.threads[t].frames == s1.threads[t].frames
    requires Quiet(Top(s1)) && Top(s1).pending.None?
    ensures WellFormed(s') && ThreadsOk(s') && Waits(s'.threads[s'.curr])
  {
    hide Quiet, BelowQuiet;
    forall t | t in s'.threads ensures Waits(s'.threads[t]) {
      if t != s1.curr { assert Waits(s1.threads[t]); }
    }
  }

  lemma InterruptInv(s: Sys, timer: bool)
    requires Inv(s) && s.irqOn
    ensures Next(s, Interrupt(timer)).Returned? && Inv(Next(s, Interrupt(timer)).value)
  {
    var f := s.threads[s.curr].frames;
    var handler := Context(0, None, if timer then ToLock(TimerHandler) else Own, 0);
    assert Quiet(Top(s));
    assert BelowQuiet(f);
    assert forall i :: 0 <= i < |f| ==> Quiet(f[i]);
    assert BelowQuiet(f + [handler]);
  }

  lemma ReturnInv(s: Sys)
    requires Inv(s) && Enabled(s, ReturnFromInterrupt)
    ensures Next(s, ReturnFromInterrupt).Returned? && Inv(Next(s, ReturnFromInterrupt).value)
  {
    var f := s.threads[s.curr].frames;
    var g := f[..|f| - 1];
    assert BelowQuiet(f);
    assert forall i :: 0 <= i < |g| ==> Quiet(f[i]) && g[i] == f[i];
    assert BelowQuiet(g);
  }

  // ---------------------------------------------------------------- runs

  /** `s'` is reached from `s` by `steps`, each enabled in its turn and none panicking. */
  ghost predicate Run(s: Sys, steps: seq<Step>, s': Sys)
    decreases |steps|
  {
    if steps == [] then s' == s
    else
      && WellFormed(s) && Enabled(s, steps[0])
      && Next(s, steps[0]).Returned?
      && Run(Next(s, steps[0]).value, steps[1..], s')
  }

  /** One running thread, interrupts in either state, no guards. */
  function Start(irqOn: bool, threads: set<ThreadId>, curr: ThreadId): Sys
    requires curr in threads
  {
    Sys(irqOn, 0, false, false, false, curr, map t | t in threads :: Thread([Context(0, None, Own, 0)], true))
  }

  lemma StartInv(irqOn: bool, threads: set<ThreadId>, curr: ThreadId)
    requires curr in threads
    ensures Inv(Start(irqOn, threads, curr))
  {
  }

  lemma {:induction false} RunInv(s: Sys, steps: seq<Step>, s': Sys)
    requires Inv(s) && Run(s, steps, s')
    ensures Inv(s')
    decreases |steps|
  {
    hide ThreadsOk, Next, Enabled;
    if steps != [] {
      StepInv(s, steps[0]);
      RunInv(Next(s, steps[0]).value, steps[1..], s');
    }
  }

  // ---------------------------------------------------------------- no handler is interrupted

  /** At most one handler on each thread, with interrupts off, and off again after its guards. */
  ghost predicate Unnested(s: Sys)
    requires WellFormed(s)
  {
    && (forall t :: t in s.threads && t != s.curr ==> ThreadUnnested(s.threads[t].frames, s.threads[t].savedIrq))
    && ThreadUnnested(s.threads[s.curr].frames, s.irqOn)
    && (|s.threads[s.curr].frames| > 1 && s.counter > 0 ==> !s.wasOn)
  }

  predicate ThreadUnnested(frames: seq<Context>, irqOn: bool) { |frames| <= 2 && (|frames| == 2 ==> !irqOn) }

  lemma StepUnnested(s: Sys, step: Step)
    requires Inv(s) && Unnested(s) && Enabled(s, step) && Next(s, step).Returned?
    ensures WellFormed(Next(s, step).value) && Unnested(Next(s, step).value)
  {
    hide Next, ThreadsOk, ContextOk, Unnested, Blocking;
    StepInv(s, step);
    if step.SwitchTo? || step.Interrupt? || step.ReturnFromInterrupt? { FramesChange(s, step); } else { FramesStay(s, step); }
  }

  lemma FramesChange(s: Sys, step: Step)
    requires Inv(s) && Unnested(s) && Enabled(s, step) && Next(s, step).Returned? && WellFormed(Next(s, step).value)
    requires step.SwitchTo? || step.Interrupt? || step.ReturnFromInterrupt?
    ensures Unnested(Next(s, step).value)
  {
    hide ThreadsOk, ContextOk, Blocking;
    if step.SwitchTo? { NoGuardAtSwitch(s); }
  }

  lemma FramesStay(s: Sys, step: Step)
    requires Inv(s) && Unnested(s) && Enabled(s, step) && Next(s, step).Returned? && WellFormed(Next(s, step).value)
    requires !step.SwitchTo? && !step.Interrupt? && !step.ReturnFromInterrupt?
    ensures Unnested(Next(s, step).value)
  {
    hide ThreadsOk, ContextOk, Blocking, AfterTake, AfterDrop, AsksForSwitch;
    var s' := Next(s, step).value;
    assert |s'.threads[s.curr].frames| == |s.threads[s.curr].frames|;
  }

  lemma NoGuardAtSwitch(s: Sys)
    requires Inv(s) && Top(s).pc.ToSwitch?
    ensures s.counter == 0
  {
  }

  lemma {:induction false} RunUnnested(s: Sys, steps: seq<Step>, s': Sys)
    requires Inv(s) && Unnested(s) && Run(s, steps, s')
    ensures WellFormed(s') && Unnested(s')
    decreases |steps|
  {
    hide ThreadsOk, ContextOk, Unnested, Next, Enabled;
    if steps != [] {
      StepInv(s, steps[0]);
      StepUnnested(s, steps[0]);
      RunUnnested(Next(s, steps[0]).value, steps[1..], s');
    }
  }

  /** From any start, whatever the programs do: no interrupt comes while a handler runs, on whichever thread
      it was started. */
  lemma HandlersUninterrupted(irqOn: bool, threads: set<ThreadId>, curr: ThreadId, steps: seq<Step>, s: Sys)
    requires curr in threads && Run(Start(irqOn, threads, curr), steps, s)
    ensures WellFormed(s) && (|s.threads[s.curr].frames| > 1 ==> !s.irqOn && forall timer :: !Enabled(s, Interrupt(timer)))
  {
    hide Run, Inv;
    StartInv(irqOn, threads, curr);
    RunUnnested(Start(irqOn, threads, curr), steps, s);
  }

  /** A request to switch stays until a check takes it up, and that check goes on to pick a thread. */
  lemma RequestKept(s: Sys, step: Step)
    requires WellFormed(s) && Enabled(s, step) && Next(s, step).Returned?
    ensures var s' := Next(s, step).value;
      && WellFormed(s') && (step.RequestSwitch? ==> s'.needs)
      && (s.needs && !s'.needs <==> step.SwitchCheck? && s.needs)
      && (step.SwitchCheck? && s.needs ==> Top(s').pc.ToPick?)
      && (step.SwitchCheck? && !s.needs ==> Top(s').pc.Ended?)
  {
  }

  lemma {:induction false} QuietGuards(frames: seq<Context>)
    requires |frames| > 0 && BelowQuiet(frames)
    ensures Guards(frames) == frames[|frames| - 1].guards
  {
    if |frames| > 1 {
      assert Quiet(frames[0]);
      assert forall i :: 0 <= i < |frames| - 2 ==> frames[1..][i] == frames[i + 1];
      QuietGuards(frames[1..]);
    }
  }

  /** In every reachable state the counter is the number of live guards, all of them the current
      thread's, and interrupts are off while it is positive. `block_task` and `yield_sched` panic at
      their check exactly when their caller held a guard; `switch_if_needed` exactly when moreover a
      switch is asked for; the timer handler never. The switch itself is made with no guard held. */
  lemma ReachableOk(irqOn: bool, threads: set<ThreadId>, curr: ThreadId, steps: seq<Step>, s: Sys)
    requires curr in threads && Run(Start(irqOn, threads, curr), steps, s)
    ensures WellFormed(s) && s.counter == Guards(s.threads[s.curr].frames)
    ensures forall t :: t in s.threads && t != s.curr ==> Guards(s.threads[t].frames) == 0
    ensures s.counter > 0 ==> !s.irqOn
    ensures forall step :: Enabled(s, step) && !step.SwitchCheck? ==> Next(s, step).Returned?
    ensures Blocking(Top(s)) ==> (Next(s, SwitchCheck).Panicked? <==> Top(s).entry > 0)
    ensures Top(s).pc == ToCheck(SwitchCall) ==> (Next(s, SwitchCheck).Panicked? <==> s.needs && Top(s).entry > 0)
    ensures Top(s).pc == ToCheck(TimerHandler) ==> Next(s, SwitchCheck).Returned?
    ensures Top(s).pc.ToSwitch? ==> s.counter == 0
  {
    hide Run, Next;
    StartInv(irqOn, threads, curr);
    RunInv(Start(irqOn, threads, curr), steps, s);
    forall t | t in s.threads ensures Guards(s.threads[t].frames) == TopOf(s.threads[t]).guards {
      QuietGuards(s.threads[t].frames);
    }
    forall step | Enabled(s, step) ensures Next(s, step).Panicked? <==> step.SwitchCheck? && s.needs && Top(s).entry > 0 {
      StepInv(s, step);
    }
    if Top(s).pc.ToCheck? { assert Enabled(s, SwitchCheck); }
  }

  /** One thread with one activation. */
  function One(irqOn: bool, counter: nat, wasOn: bool, needs: bool, outer: bool, c: Context): Sys
  {
    Sys(irqOn, counter, wasOn, needs, outer, 3, map[3 := Thread([c], true)])
  }

  lemma OneTop(irqOn: bool, counter: nat, wasOn: bool, needs: bool, outer: bool, c: Context, c': Context)
    ensures var s := One(irqOn, counter, wasOn, needs, outer, c);
      WellFormed(s) && Top(s) == c && WithTop(s, c') == One(irqOn, counter, wasOn, needs, outer, c')
  {
    assert [c][0 := c'] == [c'];
  }

  lemma RunOn(s: Sys, step: Step, s1: Sys, steps: seq<Step>, s': Sys)
    requires WellFormed(s) && Enabled(s, step) && Next(s, step) == Returned(s1) && WellFormed(s1) && Run(s1, steps, s')
    ensures Run(s, [step] + steps, s')
  {
    assert ([step] + steps)[1..] == steps;
  }

  lemma OneLocks(irqOn: bool, counter: nat, wasOn: bool, needs: bool, outer: bool, c: Context)
    requires c.pending.None? && (c.pc.Own? || c.pc.ToLock? || c.pc.ToPick?)
    ensures var s := One(irqOn, counter, wasOn, needs, outer, c);
            var s1 := One(irqOn, counter, wasOn, needs, outer, c.(pending := Some(irqOn)));
            var s2 := One(false, counter + 1, if counter == 0 then irqOn else wasOn, needs,
                          if counter == 0 then irqOn else outer, c.(guards := c.guards + 1, pc := AfterTake(c.pc)));
      && Enabled(s, ReadFlag) && Next(s, ReadFlag) == Returned(s1)
      && Enabled(s1, TakeGuard) && Next(s1, TakeGuard) == Returned(s2)
  {
    var c1 := c.(pending := Some(irqOn));
    OneTop(irqOn, counter, wasOn, needs, outer, c, c1);
    OneTop(irqOn, counter, wasOn, needs, outer, c1, c.(guards := c.guards + 1, pc := AfterTake(c.pc)));
  }

  /** A thread that holds a guard and blocks comes to the check and panics. */
  lemma GuardedBlockPanics(wasOn: bool, needs: bool, outer: bool, guards: nat) returns (steps: seq<Step>, s: Sys)
    requires guards > 0
    ensures Run(One(false, guards, wasOn, needs, outer, Context(guards, None, Own, 0)), [Call(BlockTask)] + steps, s)
    ensures WellFormed(s) && Enabled(s, SwitchCheck) && Next(s, SwitchCheck).Panicked?
  {
    var c0 := Context(guards, None, Own, 0);
    var c1 := Context(guards, None, ToLock(BlockTask), guards);
    var c2 := c1.(pending := Some(false));
    var c3 := Context(guards + 1, None, Locked(BlockTask), guards);
    var c4 := Context(guards, None, ToCheck(BlockTask), guards);
    var s0 := One(false, guards, wasOn, needs, outer, c0);
    var s1 := One(false, guards, wasOn, needs, outer, c1);
    var s2 := One(false, guards, wasOn, needs, outer, c2);
    var s3 := One(false, guards + 1, wasOn, needs, outer, c3);
    s := One(false, guards, wasOn, true, outer, c4);
    OneTop(false, guards, wasOn, needs, outer, c0, c1);
    OneLocks(false, guards, wasOn, needs, outer, c1);
    OneTop(false, guards + 1, wasOn, needs, outer, c3, c4);
    hide Run, Next;
    DropRuns(s3, s);
    RunOn(s2, TakeGuard, s3, [DropGuard], s);
    RunOn(s1, ReadFlag, s2, [TakeGuard] + [DropGuard], s);
    CallRuns(s0, s1);
    steps := [ReadFlag] + ([TakeGuard] + [DropGuard]);
    RunOn(s0, Call(BlockTask), s1, steps, s);
    CheckPanics(s);
  }

  lemma DropRuns(s: Sys, s': Sys)
    requires WellFormed(s) && Enabled(s, DropGuard) && WellFormed(s') && Top(s).pc == Locked(BlockTask)
    requires s.counter > 1 && Top(s).guards > 0
    requires s' == WithTop(s, Top(s).(guards := Top(s).guards - 1, pc := ToCheck(BlockTask))).(counter := s.counter - 1, needs := true)
    ensures Run(s, [DropGuard], s')
  {
    assert [DropGuard][1..] == [];
  }

  lemma CallRuns(s: Sys, s': Sys)
    requires WellFormed(s) && Enabled(s, Call(BlockTask))
    requires s' == WithTop(s, Top(s).(pc := ToLock(BlockTask), entry := Top(s).guards))
    ensures Next(s, Call(BlockTask)) == Returned(s')
  {
  }

  lemma CheckPanics(s: Sys)
    requires WellFormed(s) && Enabled(s, SwitchCheck) && s.needs && s.counter > 0
    ensures Next(s, SwitchCheck).Panicked?
  {
  }

  // ---------------------------------------------------------------- callers that hold no guard

  /** The programs are called without a guard. */
  predicate Careful(s: Sys, step: Step)
    requires WellFormed(s)
  {
    step.Call? ==> Top(s).guards == 0
  }

  ghost predicate CarefulRun(s: Sys, steps: seq<Step>, s': Sys)
    decreases |steps|
  {
    if steps == [] then s' == s
    else
      && WellFormed(s) && Enabled(s, steps[0]) && Careful(s, steps[0])
      && Next(s, steps[0]).Returned?
      && CarefulRun(Next(s, steps[0]).value, steps[1..], s')
  }

  /** Nobody is inside a program that was called with a guard held. */
  ghost predicate NoEntryGuards(s: Sys)
  {
    forall t, i :: t in s.threads && 0 <= i < |s.threads[t].frames| ==> s.threads[t].frames[i].entry == 0
  }

  lemma CarefulStep(s: Sys, step: Step)
    requires WellFormed(s) && NoEntryGuards(s) && Enabled(s, step) && Careful(s, step) && Next(s, step).Returned?
    ensures NoEntryGuards(Next(s, step).value)
  {
    hide NoEntryGuards, Next;
    if step.Interrupt? || step.ReturnFromInterrupt? || step.SwitchTo? { CarefulStack(s, step); } else { CarefulTop(s, step); }
  }

  lemma CarefulTop(s: Sys, step: Step)
    requires WellFormed(s) && NoEntryGuards(s) && Enabled(s, step) && Careful(s, step) && Next(s, step).Returned?
    requires !step.Interrupt? && !step.ReturnFromInterrupt? && !step.SwitchTo?
    ensures NoEntryGuards(Next(s, step).value)
  {
    hide NoEntryGuards;
    TopEntry(s);
    SameTop(s);
    var s' := Next(s, step).value;
    TopEntryKept(s, Top(s'), s');
  }

  lemma CarefulStack(s: Sys, step: Step)
    requires WellFormed(s) && NoEntryGuards(s) && Enabled(s, step) && Next(s, step).Returned?
    requires step.Interrupt? || step.ReturnFromInterrupt? || step.SwitchTo?
    ensures NoEntryGuards(Next(s, step).value)
  {
    hide NoEntryGuards;
    TopEntry(s);
    FrameEntries(s, Next(s, step).value);
  }

  lemma FrameEntries(s: Sys, s': Sys)
    requires WellFormed(s) && NoEntryGuards(s) && s'.threads.Keys == s.threads.Keys
    requires forall t :: t in s.threads && t != s.curr ==> s'.threads[t].frames == s.threads[t].frames
    requires forall c :: c in s'.threads[s.curr].frames ==> c.entry == 0 || c in s.threads[s.curr].frames
    ensures NoEntryGuards(s')
  {
    forall t, i | t in s'.threads && 0 <= i < |s'.threads[t].frames| ensures s'.threads[t].frames[i].entry == 0 {
      if t == s.curr { assert s'.threads[t].frames[i] in s'.threads[t].frames; }
    }
  }

  lemma TopEntryKept(s: Sys, c: Context, s': Sys)
    requires WellFormed(s) && NoEntryGuards(s) && c.entry == 0 && s'.threads == WithTop(s, c).threads
    ensures NoEntryGuards(s')
  {
  }

  /** If the scheduler is only called by code that holds no guard, scheduling while atomic is
      unreachable. */
  lemma {:induction false} NeverAtomic(s: Sys, steps: seq<Step>, s': Sys)
    requires Inv(s) && NoEntryGuards(s) && CarefulRun(s, steps, s')
    ensures Inv(s') && NoEntryGuards(s')
    ensures forall step :: Enabled(s', step) ==> Next(s', step).Returned?
    decreases |steps|
  {
    hide Next, Enabled, ThreadsOk, NoEntryGuards;
    if steps == [] {
      TopEntry(s);
      forall step | Enabled(s, step) ensures Next(s, step).Returned? { StepInv(s, step); }
    } else {
      StepInv(s, steps[0]);
      CarefulStep(s, steps[0]);
      NeverAtomic(Next(s, steps[0]).value, steps[1..], s');
    }
  }

  lemma TopEntry(s: Sys)
    requires WellFormed(s) && NoEntryGuards(s)
    ensures Top(s).entry == 0
  {
  }

  // ---------------------------------------------------------------- the lock itself

  /** The processor flag and the lock's globals, as `lock` and the guard's `drop` update them. */
  class Cpu {
    var irqOn: bool
    var counter: nat
    var wasOn: bool

    method Lock()
      modifies this
      ensures counter == old(counter) + 1 && !irqOn
      ensures wasOn == if old(counter) == 0 then old(irqOn) else old(wasOn)
    {
      var wasInterruptEnabled := irqOn;
      irqOn := false;
      var prev := counter;
      counter := counter + 1;
      if prev == 0 {
        wasOn := wasInterruptEnabled;
      }
    }

    method Drop()
      requires counter > 0
      modifies this
      ensures counter == old(counter) - 1 && wasOn == old(wasOn)
      ensures irqOn == (old(irqOn) || (old(counter) == 1 && wasOn))
    {
      var prev := counter;
      counter := counter - 1;
      if prev == 1 && wasOn {
        irqOn := true;
      }
    }

    /** Any number of nested guards, taken and dropped, leave the flag as it was. */
    method Nested(depth: nat)
      requires counter == 0
      modifies this
      ensures counter == 0 && irqOn == old(irqOn)
    {
      ghost var before := irqOn;
      var i := 0;
      while i < depth
        invariant 0 <= i <= depth && counter == i
        invariant if i == 0 then irqOn == before else !irqOn && wasOn == before
      {
        Lock();
        i := i + 1;
      }
      while i > 0
        invariant 0 <= i <= depth && counter == i
        invariant if i == 0 then irqOn == before else !irqOn && wasOn == before
      {
        Drop();
        i := i - 1;
      }
    }
  }
}
