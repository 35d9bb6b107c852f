/** No lost wake-ups on a pipe: whoever sleeps although it could go on is about to be woken. */
module PipeWakeups {
  import opened Wrappers
  import opened Bytes
  import opened Scheduler
  import opened Pipe

  // ---------------------------------------------------------------- blocking and the scheduler

  /** Threads blocked after are threads blocked before, for the same reason. */
  ghost predicate NoNewBlocked(s: Sched, s': Sched)
  {
    forall t :: t in s'.tcbs && s'.tcbs[t].state.Blocked? ==> t in s.tcbs && s.tcbs[t].state == s'.tcbs[t].state
  }

  lemma {:induction false} UnblockAllBlocked(s: Sched, ids: seq<ThreadId>)
    ensures NoNewBlocked(s, UnblockAll(s, ids))
    ensures forall t :: t in ids && t in UnblockAll(s, ids).tcbs ==> !UnblockAll(s, ids).tcbs[t].state.Blocked?
  {
    if ids != [] {
      var n := |ids| - 1;
      UnblockAllBlocked(s, ids[..n]);
      assert forall t :: t in ids <==> t in ids[..n] || t == ids[n];
    }
  }

  lemma SwitchBlocked(s: Sched)
    requires SwitchIfNeeded(s).Returned?
    ensures NoNewBlocked(s, SwitchIfNeeded(s).value)
  {
  }

  lemma TimerBlocked(s: Sched)
    requires TimerInterrupt(s).Returned?
    ensures NoNewBlocked(s, TimerInterrupt(s).value)
  {
    hide SwitchIfNeeded, UnblockAll;
    var s1 := s.(elapsed := s.elapsed + 1);
    var due := ExpiredIds(s1.tcbs, s1.order, s1.elapsed * 1_000_000);
    UnblockAllBlocked(s1, due);
    SwitchBlocked(Tick(s).value);
  }

  /** Only a blocking section makes a blocked thread. */
  lemma OnlyBlockBlocks(s: Sched, st: Scheduler.Step)
    requires Scheduler.Enabled(s, st) && Scheduler.Next(s, st).Returned?
    ensures var s' := Scheduler.Next(s, st).value;
      forall t :: t in s'.tcbs && s'.tcbs[t].state.Blocked? ==>
        (t in s.tcbs && s.tcbs[t].state == s'.tcbs[t].state) || (st.BlockStep? && s'.tcbs[t].state == Blocked(st.reason))
  {
    hide SwitchIfNeeded, TimerInterrupt;
    match st
    case SwitchStep => SwitchBlocked(s.(atSwitch := s.atSwitch - {s.curr}));
    case TimerStep => TimerBlocked(s);
    case _ =>
  }

  // ---------------------------------------------------------------- the invariant

  predicate BlockedOn(s: Sys, t: ThreadId, reason: BlockReason)
  {
    t in s.sched.tcbs && s.sched.tcbs[t].state == Blocked(reason)
  }

  predicate InScan(scan: Scan, t: ThreadId) { t in scan.todo || t in scan.toWake }

  /** A writer has put bytes and its wake-up has yet to reach `r`. */
  ghost predicate ReaderWakePending(s: Sys, r: ThreadId)
  {
    exists w :: w in s.ops && s.ops[w].WriteWake? && InScan(s.ops[w].scan, r)
  }

  /** A reader has taken bytes and its wake-up has yet to reach `w`. */
  ghost predicate WriterWakePending(s: Sys, w: ThreadId)
  {
    exists r :: r in s.ops && s.ops[r].ReadWake? && InScan(s.ops[r].scan, w)
  }

  ghost predicate OpsOk(s: Sys)
  {
    && (forall t :: t in s.ops && !s.ops[t].Idle? ==> t in s.procs)
    && (forall t :: t in s.ops && s.ops[t].Reading? ==> s.ops[t].size > 0)
    && (forall t :: BlockedOn(s, t, WaitPipeRead(s.pipe)) ==> OpOf(s, t).Reading?)
    && (forall t :: BlockedOn(s, t, WaitPipeWrite(s.pipe)) ==> OpOf(s, t).Writing?)
  }

  ghost predicate NoLostReader(s: Sys)
  {
    forall r :: BlockedOn(s, r, WaitPipeRead(s.pipe)) && s.queue != [] ==> ReaderWakePending(s, r)
  }

  predicate Fits(s: Sys, w: ThreadId) { OpOf(s, w).Writing? && |Chunk(OpOf(s, w).rest)| + |s.queue| <= CAPACITY }

  ghost predicate NoLostWriter(s: Sys)
  {
    forall w :: BlockedOn(s, w, WaitPipeWrite(s.pipe)) && Fits(s, w) ==> WriterWakePending(s, w)
  }

  ghost predicate PipeInv(s: Sys)
  {
    Inv(s.sched) && OpsOk(s) && NoLostReader(s) && NoLostWriter(s)
  }

  /** Reads come with a buffer. */
  predicate Buffered(step: Pipe.Step) { step.OpenRead? ==> step.size > 0 }

  lemma RunningNotBlocked(s: Sys)
    requires Inv(s.sched) && s.sched.curr in s.sched.tcbs && s.sched.curr !in s.sched.atSwitch
    ensures s.sched.tcbs[s.sched.curr].state == Running && s.sched.curr != MAIN
  {
    assert MAIN !in s.sched.tcbs;
  }

  /** `s'` has no thread blocked that `s` had not. */
  ghost predicate FewerBlocked(s: Sys, s': Sys)
  {
    forall t, reason :: BlockedOn(s', t, reason) ==> BlockedOn(s, t, reason)
  }

  // ---------------------------------------------------------------- one step at a time

  lemma OpenKeeps(s: Sys, op: Op)
    requires PipeInv(s) && s.sched.curr in s.sched.tcbs && s.sched.curr !in s.sched.atSwitch
    requires OpOf(s, s.sched.curr).Idle? && s.sched.curr in s.procs
    requires op.Idle? || op.Writing? || (op.Reading? && op.size > 0)
    ensures PipeInv(WithOp(s, op))
  {
    hide Inv;
    RunningNotBlocked(s);
    assert FewerBlocked(s, WithOp(s, op));
    SameWakes(s, WithOp(s, op));
  }

  /** Wake-ups in progress stay in progress if no scan is dropped or cut short. */
  lemma SameWakes(s: Sys, s': Sys)
    requires forall t :: t in s.ops && s.ops[t].WriteWake? ==>
      t in s'.ops && s'.ops[t].WriteWake? && forall r :: InScan(s.ops[t].scan, r) ==> InScan(s'.ops[t].scan, r)
    requires forall t :: t in s.ops && s.ops[t].ReadWake? ==>
      t in s'.ops && s'.ops[t].ReadWake? && forall r :: InScan(s.ops[t].scan, r) ==> InScan(s'.ops[t].scan, r)
    ensures forall r :: ReaderWakePending(s, r) ==> ReaderWakePending(s', r)
    ensures forall w :: WriterWakePending(s, w) ==> WriterWakePending(s', w)
  {
    forall r | ReaderWakePending(s, r) ensures ReaderWakePending(s', r) {
      var w :| w in s.ops && s.ops[w].WriteWake? && InScan(s.ops[w].scan, r);
      assert w in s'.ops && s'.ops[w].WriteWake? && InScan(s'.ops[w].scan, r);
    }
    forall w | WriterWakePending(s, w) ensures WriterWakePending(s', w) {
      var r :| r in s.ops && s.ops[r].ReadWake? && InScan(s.ops[r].scan, w);
      assert r in s'.ops && s'.ops[r].ReadWake? && InScan(s'.ops[r].scan, w);
    }
  }

  lemma ReadKeeps(s: Sys)
    requires PipeInv(s) && Pipe.Enabled(s, ReadTry)
    ensures PipeInv(Read(s, OpOf(s, s.sched.curr).size))
  {
    hide Inv;
    var t := s.sched.curr;
    var s' := Read(s, OpOf(s, t).size);
    RunningNotBlocked(s);
    if s.queue != [] {
      ReadTakes(s);
    } else if s.writers == 0 {
      assert FewerBlocked(s, s');
      SameWakes(s, s');
    } else {
      BlockInv(s.sched, WaitPipeRead(s.pipe));
      assert forall u, reason :: BlockedOn(s', u, reason) ==> BlockedOn(s, u, reason) || (u == t && reason == WaitPipeRead(s.pipe));
      SameWakes(s, s');
    }
  }

  lemma ReadTakes(s: Sys)
    requires PipeInv(s) && Pipe.Enabled(s, ReadTry) && s.queue != []
    ensures PipeInv(Read(s, OpOf(s, s.sched.curr).size))
  {
    hide Inv;
    var t := s.sched.curr;
    var s' := Read(s, OpOf(s, t).size);
    RunningNotBlocked(s);
    assert FewerBlocked(s, s');
    SameWakes(s, s');
    assert s'.ops[t] == ReadWake(Scan(s.procs, []));
    forall w | BlockedOn(s', w, WaitPipeWrite(s.pipe)) ensures WriterWakePending(s', w) {
      assert InScan(s'.ops[t].scan, w);
    }
  }

  lemma WriteKeeps(s: Sys)
    requires PipeInv(s) && Pipe.Enabled(s, WriteTry)
    ensures PipeInv(Write(s, OpOf(s, s.sched.curr).rest))
  {
    hide PipeInv, Write;
    if |Chunk(OpOf(s, s.sched.curr).rest)| + |s.queue| > CAPACITY { WriteStalls(s); } else { WritePuts(s); }
  }

  lemma WriteStalls(s: Sys)
    requires PipeInv(s) && Pipe.Enabled(s, WriteTry) && |Chunk(OpOf(s, s.sched.curr).rest)| + |s.queue| > CAPACITY
    ensures PipeInv(Write(s, OpOf(s, s.sched.curr).rest))
  {
    hide Inv, ReaderWakePending, WriterWakePending;
    var t := s.sched.curr;
    var s' := Write(s, OpOf(s, t).rest);
    RunningNotBlocked(s);
    SameWakes(s, s');
    if s.readers != 0 { BlockInv(s.sched, WaitPipeWrite(s.pipe)); }
    assert forall u, reason :: BlockedOn(s', u, reason) ==> BlockedOn(s, u, reason) || (u == t && reason == WaitPipeWrite(s.pipe));
  }

  lemma WritePuts(s: Sys)
    requires PipeInv(s) && Pipe.Enabled(s, WriteTry) && |Chunk(OpOf(s, s.sched.curr).rest)| + |s.queue| <= CAPACITY
    ensures PipeInv(Write(s, OpOf(s, s.sched.curr).rest))
  {
    hide Inv, WriterWakePending;
    var t := s.sched.curr;
    var s' := Write(s, OpOf(s, t).rest);
    RunningNotBlocked(s);
    SameWakes(s, s');
    assert FewerBlocked(s, s');
    forall r | BlockedOn(s', r, WaitPipeRead(s.pipe)) ensures ReaderWakePending(s', r) {
      assert InScan(s'.ops[t].scan, r);
    }
  }

  /** Looking at a process moves it from the list to the found ones, unless it does not wait. */
  lemma ScanKeeps(s: Sys)
    requires PipeInv(s) && Pipe.Enabled(s, ScanOne) && Look(s, OpOf(s, s.sched.curr)).Returned?
    ensures PipeInv(WithOp(s, Look(s, OpOf(s, s.sched.curr)).value))
  {
    hide Inv;
    var t := s.sched.curr;
    var op := OpOf(s, t);
    var op' := Look(s, op).value;
    var s' := WithOp(s, op');
    RunningNotBlocked(s);
    assert FewerBlocked(s, s');
    forall r | BlockedOn(s, r, Wanted(s, op)) && InScan(op.scan, r) ensures InScan(op'.scan, r) {
      assert r in op.scan.todo ==> r == op.scan.todo[0] || r in op.scan.todo[1..];
    }
    forall r | BlockedOn(s', r, WaitPipeRead(s.pipe)) && ReaderWakePending(s, r) ensures ReaderWakePending(s', r) {
      var w :| w in s.ops && s.ops[w].WriteWake? && InScan(s.ops[w].scan, r);
      assert s'.ops[w].WriteWake? && InScan(s'.ops[w].scan, r);
    }
    forall w | BlockedOn(s', w, WaitPipeWrite(s.pipe)) && WriterWakePending(s, w) ensures WriterWakePending(s', w) {
      var r :| r in s.ops && s.ops[r].ReadWake? && InScan(s.ops[r].scan, w);
      assert s'.ops[r].ReadWake? && InScan(s'.ops[r].scan, w);
    }
  }

  lemma {:induction false} UnblockAllInv(s: Sched, ids: seq<ThreadId>)
    requires Inv(s)
    ensures Inv(UnblockAll(s, ids))
  {
    hide Inv;
    if ids != [] {
      UnblockAllInv(s, ids[..|ids| - 1]);
      UnblockInv(UnblockAll(s, ids[..|ids| - 1]), ids[|ids| - 1]);
    }
  }

  /** The wake-up itself unblocks everyone it was to reach, and blocks nobody. */
  lemma WakeUnblocks(s: Sys)
    requires PipeInv(s) && Pipe.Enabled(s, WakeFound)
    ensures var op, s' := OpOf(s, s.sched.curr), Pipe.Next(s, WakeFound).value;
      && Inv(s'.sched) && FewerBlocked(s, s') && s'.ops == s.ops[s.sched.curr := OpOf(s', s.sched.curr)]
      && (OpOf(s', s.sched.curr).Writing? || OpOf(s', s.sched.curr).Idle?)
      && forall u, reason :: BlockedOn(s', u, reason) ==> !InScan(op.scan, u) && u != s.sched.curr
  {
    hide Inv, UnblockAll, OpsOk, NoLostReader, NoLostWriter;
    var op := OpOf(s, s.sched.curr);
    RunningNotBlocked(s);
    UnblockAllInv(s.sched, op.scan.toWake);
    UnblockAllBlocked(s.sched, op.scan.toWake);
    UnblockAllCurr(s.sched, op.scan.toWake);
  }

  /** A wake-up under way elsewhere is still under way. */
  lemma StillPending(s: Sys, s': Sys, t: ThreadId, u: ThreadId)
    requires t in s.ops && t in s'.ops && s'.ops == s.ops[t := s'.ops[t]] && (s.ops[t].ReadWake? || s.ops[t].WriteWake?)
    requires !InScan(s.ops[t].scan, u)
    ensures ReaderWakePending(s, u) ==> ReaderWakePending(s', u)
    ensures WriterWakePending(s, u) ==> WriterWakePending(s', u)
  {
    hide InScan;
    if w :| w in s.ops && s.ops[w].WriteWake? && InScan(s.ops[w].scan, u) { assert s'.ops[w] == s.ops[w]; }
    if r :| r in s.ops && s.ops[r].ReadWake? && InScan(s.ops[r].scan, u) { assert s'.ops[r] == s.ops[r]; }
  }

  lemma WakeKeeps(s: Sys)
    requires PipeInv(s) && Pipe.Enabled(s, WakeFound)
    ensures PipeInv(Pipe.Next(s, WakeFound).value)
  {
    hide Inv, UnblockAll, ReaderWakePending, WriterWakePending;
    var t := s.sched.curr;
    var s' := Pipe.Next(s, WakeFound).value;
    WakeUnblocks(s);
    forall r | BlockedOn(s', r, WaitPipeRead(s.pipe)) && ReaderWakePending(s, r) ensures ReaderWakePending(s', r) {
      StillPending(s, s', t, r);
    }
    forall w | BlockedOn(s', w, WaitPipeWrite(s.pipe)) && WriterWakePending(s, w) ensures WriterWakePending(s', w) {
      StillPending(s, s', t, w);
    }
  }

  lemma OtherKeeps(s: Sys, st: Scheduler.Step)
    requires PipeInv(s) && Pipe.Enabled(s, Other(st)) && Scheduler.Next(s.sched, st).Returned?
    ensures PipeInv(s.(sched := Scheduler.Next(s.sched, st).value))
  {
    hide Inv, Scheduler.Next;
    var s' := s.(sched := Scheduler.Next(s.sched, st).value);
    StepInv(s.sched, st);
    OnlyBlockBlocks(s.sched, st);
    assert forall u, reason :: BlockedOn(s', u, reason) && OnPipe(s, reason) ==> BlockedOn(s, u, reason);
    SameWakes(s, s');
  }

  /** The invariant speaks of threads, calls under way, processes and the queue only. */
  lemma SameCore(s: Sys, s': Sys)
    requires PipeInv(s) && s'.pipe == s.pipe && s'.sched == s.sched && s'.ops == s.ops && s'.procs == s.procs && s'.queue == s.queue
    ensures PipeInv(s')
  {
    hide Inv;
    assert FewerBlocked(s, s');
    SameWakes(s, s');
  }

  lemma ProcsKeep(s: Sys, procs: seq<ThreadId>)
    requires PipeInv(s) && OpOf(s, s.sched.curr).Idle?
    requires forall t :: t in s.procs && t != s.sched.curr ==> t in procs
    ensures PipeInv(s.(procs := procs))
  {
    hide Inv;
    assert FewerBlocked(s, s.(procs := procs));
    SameWakes(s, s.(procs := procs));
  }

  /** Every step of every interleaving of buffered readers and writers keeps it: a reader asleep on a
      pipe with bytes, or a writer asleep although its chunk fits, has a wake-up under way. */
  lemma StepKeeps(s: Sys, step: Pipe.Step)
    requires PipeInv(s) && Pipe.Enabled(s, step) && Buffered(step) && Pipe.Next(s, step).Returned?
    ensures PipeInv(Pipe.Next(s, step).value)
  {
    hide PipeInv, Read, Write, Look, UnblockAll, Scheduler.Next;
    match step
    case OpenRead(size) =>
      SameCore(s, StartRead(s));
      OpenKeeps(StartRead(s), Reading(size));
    case OpenWrite(data) =>
      var s1, op := StartWrite(s, data), if data == [] then Idle else Writing(data);
      SameCore(s, s1);
      OpenKeeps(s1, op);
      SameCore(WithOp(s1, op), Pipe.Next(s, step).value);
    case ReadTry => ReadKeeps(s);
    case WriteTry => WriteKeeps(s);
    case ScanOne => ScanKeeps(s);
    case WakeFound => WakeKeeps(s);
    case AddProc(pid) => ProcsKeep(s, s.procs + [pid]);
    case RemoveProc => ProcsKeep(s, Without(s.procs, s.sched.curr));
    case Other(st) => OtherKeeps(s, st);
  }

  // ---------------------------------------------------------------- runs

  /** A pipe as the system call creates it, empty and idle. */
  ghost predicate Created(s: Sys)
  {
    && Inv(s.sched) && s.queue == [] && s.written == [] && s.popped == [] && s.got == [] && s.short == 0 && s.log == []
    && s.calls == map[]
    && (forall t :: t in s.ops ==> s.ops[t].Idle?)
    && (forall t, reason :: BlockedOn(s, t, reason) ==> !OnPipe(s, reason))
  }

  ghost predicate Run(s: Sys, steps: seq<Pipe.Step>, s': Sys)
    decreases |steps|
  {
    if steps == [] then s' == s
    else
      && Pipe.Enabled(s, steps[0]) && Buffered(steps[0]) && Pipe.Next(s, steps[0]).Returned?
      && Run(Pipe.Next(s, steps[0]).value, steps[1..], s')
  }

  lemma {:induction false} RunKeeps(s: Sys, steps: seq<Pipe.Step>, s': Sys)
    requires PipeInv(s) && Fifo(s) && ChunksOk(s) && Run(s, steps, s')
    ensures PipeInv(s') && Fifo(s') && ChunksOk(s')
    decreases |steps|
  {
    hide PipeInv, Fifo, ChunksOk, Pipe.Next, Pipe.Enabled;
    if steps != [] {
      StepKeeps(s, steps[0]);
      StepFifo(s, steps[0]);
      StepChunks(s, steps[0]);
      RunKeeps(Pipe.Next(s, steps[0]).value, steps[1..], s');
    }
  }

  /** From a created pipe, in every interleaving: no wake-up is lost, the queue keeps its bound, and
      the bytes read followed by the queue are the bytes written exactly when no read was short. The
      bytes written are whole chunks of at most 1024 bytes; what a call has put followed by what it
      has left is what it was given. */
  lemma ReachableOk(s: Sys, steps: seq<Pipe.Step>, s': Sys)
    requires Created(s) && Run(s, steps, s')
    ensures forall r :: BlockedOn(s', r, WaitPipeRead(s'.pipe)) && s'.queue != [] ==> ReaderWakePending(s', r)
    ensures forall w :: BlockedOn(s', w, WaitPipeWrite(s'.pipe)) && Fits(s', w) ==> WriterWakePending(s', w)
    ensures |s'.queue| <= CAPACITY && s'.written == s'.popped + s'.queue
    ensures s'.got + s'.queue == s'.written <==> s'.short == 0
    ensures ChunksOk(s')
  {
    hide Run, Inv;
    assert OpsOk(s) by {
      forall t, reason | BlockedOn(s, t, reason) ensures !OnPipe(s, reason) {}
    }
    assert ChunksOk(s) by {
      assert forall t :: OpOf(s, t).Idle?;
    }
    RunKeeps(s, steps, s');
    Conserved(s');
  }

  /** When no wake-up is under way, nobody sleeps who could go on. */
  lemma QuietMeansServed(s: Sys)
    requires PipeInv(s) && forall t :: t in s.ops ==> !s.ops[t].ReadWake? && !s.ops[t].WriteWake?
    ensures forall r :: BlockedOn(s, r, WaitPipeRead(s.pipe)) ==> s.queue == []
    ensures forall w :: BlockedOn(s, w, WaitPipeWrite(s.pipe)) ==> !Fits(s, w)
  {
    hide Inv;
  }

  // ---------------------------------------------------------------- why the buffer matters

  /** A read of a pipe that holds bytes goes on to wake the writers exactly when it has a buffer. */
  lemma ReadWakesIfBuffered(s: Sys, size: nat)
    requires s.sched.curr in s.sched.tcbs && s.queue != []
    ensures OpOf(Read(s, size), s.sched.curr).ReadWake? <==> size > 0
  {
  }
}
