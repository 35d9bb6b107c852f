/** Why readers need a buffer: a run from a new pipe after which a writer sleeps on although its chunk
    fits, with nobody about to wake it. */
module PipeLostWakeup {
  import opened Wrappers
  import opened Bytes
  import opened Scheduler
  import opened Pipe
  import opened PipeWakeups

  const WRITER: ThreadId := 3
  const READER: ThreadId := 4

  /** Any run, with or without buffers. */
  ghost predicate Reaches(s: Sys, steps: seq<Pipe.Step>, s': Sys)
    decreases |steps|
  {
    if steps == [] then s' == s
    else
      && Pipe.Enabled(s, steps[0]) && Pipe.Next(s, steps[0]).Returned?
      && Reaches(Pipe.Next(s, steps[0]).value, steps[1..], s')
  }

  lemma {:induction false} ReachesStep(s: Sys, steps: seq<Pipe.Step>, s1: Sys, step: Pipe.Step, s2: Sys)
    requires Reaches(s, steps, s1) && Pipe.Enabled(s1, step) && Pipe.Next(s1, step) == Returned(s2)
    ensures Reaches(s, steps + [step], s2)
    decreases |steps|
  {
    hide Pipe.Enabled, Pipe.Next;
    var all := steps + [step];
    if steps == [] {
      assert all[0] == step && all[1..] == [];
    } else {
      assert all[0] == steps[0] && all[1..] == steps[1..] + [step];
      ReachesStep(Pipe.Next(s, steps[0]).value, steps[1..], s1, step, s2);
    }
  }

  /** The writer runs and the reader is next. */
  function BothReady(): Sched
  {
    Sched([WRITER, READER], map[WRITER := Tcb(Running, TIME_SLICE), READER := Tcb(Ready, TIME_SLICE)], [READER], WRITER,
          false, 0, {})
  }

  function NewPipe(): Sys
  {
    Sys(7, 1, 1, [], BothReady(), [WRITER, READER], map[], [], [], [], 0, [], map[])
  }

  lemma NewPipeCreated()
    ensures Created(NewPipe())
  {
    FullSliceOk(Running);
    FullSliceOk(Ready);
    assert QueueOk(BothReady());
  }

  /** The writer is about to put `rest` behind `len` bytes, and nobody else is on the pipe. */
  ghost predicate Filling(s: Sys, len: nat, rest: seq<byte>)
  {
    && s.pipe == 7 && s.readers == 1 && s.writers == 1 && s.sched == BothReady() && s.procs == [WRITER, READER]
    && s.ops == map[WRITER := Writing(rest)] && |s.queue| == len
  }

  /** One chunk put, both processes looked at, nobody to wake. */
  lemma FillChunk(start: Sys, steps: seq<Pipe.Step>, s: Sys, len: nat, rest: seq<byte>)
    returns (more: seq<Pipe.Step>, s': Sys)
    requires Reaches(start, steps, s) && Filling(s, len, rest) && |rest| > PIPE_BUF && len + PIPE_BUF <= CAPACITY
    ensures Reaches(start, more, s') && Filling(s', len + PIPE_BUF, rest[PIPE_BUF..])
  {
    hide Reaches;
    var s1 := Write(s, rest);
    assert s1.ops == map[WRITER := WriteWake(Scan([WRITER, READER], []), rest[PIPE_BUF..])];
    ReachesStep(start, steps, s, WriteTry, s1);
    more, s' := LookAtBoth(start, steps + [WriteTry], s1, rest[PIPE_BUF..]);
  }

  lemma LookAtBoth(start: Sys, steps: seq<Pipe.Step>, s1: Sys, rest: seq<byte>)
    returns (more: seq<Pipe.Step>, s': Sys)
    requires Reaches(start, steps, s1) && s1.sched == BothReady() && rest != []
    requires s1.ops == map[WRITER := WriteWake(Scan([WRITER, READER], []), rest)]
    ensures Reaches(start, more, s') && s' == s1.(ops := map[WRITER := Writing(rest)])
  {
    hide Reaches;
    assert [WRITER, READER][1..] == [READER] && [READER][1..] == [];
    var s2 := WithOp(s1, WriteWake(Scan([READER], []), rest));
    assert s2.ops == map[WRITER := WriteWake(Scan([READER], []), rest)];
    ReachesStep(start, steps, s1, ScanOne, s2);
    var s3 := WithOp(s2, WriteWake(Scan([], []), rest));
    assert s3.ops == map[WRITER := WriteWake(Scan([], []), rest)];
    ReachesStep(start, steps + [ScanOne], s2, ScanOne, s3);
    s' := WithOp(s3, Writing(rest));
    assert s'.ops == map[WRITER := Writing(rest)];
    more := steps + [ScanOne] + [ScanOne] + [WakeFound];
    ReachesStep(start, steps + [ScanOne] + [ScanOne], s3, WakeFound, s');
  }

  lemma FillAll(data: seq<byte>) returns (steps: seq<Pipe.Step>, s: Sys)
    requires |data| == CAPACITY + 1
    ensures Reaches(NewPipe(), steps, s) && Filling(s, CAPACITY, data[CAPACITY..])
  {
    hide Reaches;
    var s0 := NewPipe();
    assert Reaches(s0, [], s0) by { ReachesNothing(s0); }
    s := Pipe.Next(s0, OpenWrite(data)).value;
    ReachesStep(s0, [], s0, OpenWrite(data), s);
    steps := [] + [OpenWrite(data)];
    assert data == data[0..];
    for i := 0 to 4
      invariant Reaches(s0, steps, s) && Filling(s, i * PIPE_BUF, data[i * PIPE_BUF..])
    {
      steps, s := FillChunk(s0, steps, s, i * PIPE_BUF, data[i * PIPE_BUF..]);
      assert data[i * PIPE_BUF..][PIPE_BUF..] == data[(i + 1) * PIPE_BUF..];
    }
  }

  lemma ReachesNothing(s: Sys)
    ensures Reaches(s, [], s)
  {
  }

  /** The writer fills the pipe and blocks; the reader takes a byte into an empty buffer, and the
      writer sleeps on although its last byte now fits. */
  lemma EmptyReadLosesWakeup(data: seq<byte>) returns (steps: seq<Pipe.Step>, s: Sys)
    requires |data| == CAPACITY + 1
    ensures Created(NewPipe()) && Reaches(NewPipe(), steps, s)
    ensures BlockedOn(s, WRITER, WaitPipeWrite(s.pipe)) && Fits(s, WRITER) && !WriterWakePending(s, WRITER)
  {
    hide Reaches;
    NewPipeCreated();
    var s0 := NewPipe();
    var filled, s1 := FillAll(data);
    var s2 := WriterBlocks(s1, data[CAPACITY..]);
    ReachesStep(s0, filled, s1, WriteTry, s2);
    var s3 := ReaderRuns(s2, data[CAPACITY..]);
    ReachesStep(s0, filled + [WriteTry], s2, Other(SwitchStep), s3);
    var s4 := WithOp(StartRead(s3), Reading(0));
    ReachesStep(s0, filled + [WriteTry] + [Other(SwitchStep)], s3, OpenRead(0), s4);
    s := Read(s4, 0);
    steps := filled + [WriteTry] + [Other(SwitchStep)] + [OpenRead(0)] + [ReadTry];
    ReachesStep(s0, filled + [WriteTry] + [Other(SwitchStep)] + [OpenRead(0)], s4, ReadTry, s);
  }

  lemma WriterBlocks(s: Sys, rest: seq<byte>) returns (s': Sys)
    requires Filling(s, CAPACITY, rest) && |rest| == 1
    ensures Pipe.Enabled(s, WriteTry) && Pipe.Next(s, WriteTry) == Returned(s')
    ensures s' == s.(sched := Block(BothReady(), WaitPipeWrite(7)))
  {
    s' := s.(sched := Block(s.sched, WaitPipeWrite(s.pipe)));
  }

  lemma ReaderRuns(s: Sys, rest: seq<byte>) returns (s': Sys)
    requires s.sched == Block(BothReady(), WaitPipeWrite(7)) && s.ops == map[WRITER := Writing(rest)]
    ensures Pipe.Enabled(s, Other(SwitchStep)) && Pipe.Next(s, Other(SwitchStep)) == Returned(s')
    ensures s' == s.(sched := s'.sched) && s'.sched.curr == READER && s'.sched.atSwitch == {}
    ensures READER in s'.sched.tcbs && BlockedOn(s', WRITER, WaitPipeWrite(7))
  {
    var blocked := s.sched.(atSwitch := {});
    assert s.sched.atSwitch - {WRITER} == {};
    assert blocked.queue[0] == READER;
    s' := s.(sched := SwitchIfNeeded(blocked).value);
  }
}
