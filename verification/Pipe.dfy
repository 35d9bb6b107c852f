/** Pipes over the scheduler: readers and writers that block on an empty or a full queue, and the
    scan that wakes them. */
module Pipe {
  import opened Wrappers
  import opened Bytes
  import opened Scheduler

  const PIPE_BUF := 1024
  const CAPACITY := 4096

  /** The scan of `wake_pipe_sleepers`: processes still to look at, and threads found waiting. */
  datatype Scan = Scan(todo: seq<ThreadId>, toWake: seq<ThreadId>)

  /** Where a thread is in a call of `read` or `write` on the pipe. */
  datatype Op =
    | Idle
    | Reading(size: nat)                      // about to lock the queue, with a buffer of this size
    | ReadWake(scan: Scan)                    // has taken bytes, waking the writers
    | Writing(rest: seq<byte>)                // about to lock the queue, with these bytes to go
    | WriteWake(scan: Scan, rest: seq<byte>)  // has put a chunk, waking the readers

  /** A chunk put into the queue, and who put it there. */
  datatype Logged = Logged(thread: ThreadId, chunk: seq<byte>)

  /** The calls of a thread: the data of its latest `write` and the length of the log when that began,
      the local counter of bytes written or read, what its latest `read` stored, and what its latest
      finished call returned. */
  datatype Call = Call(from: nat, data: seq<byte>, count: nat, buffer: seq<byte>, returned: nat)

  /** One pipe. `written`, `popped` and `got` record all bytes ever pushed, popped, and handed to a
      reader; `short` counts the reads that popped a byte they had no room for. `log` lists the
      chunks in the order they were put. */
  datatype Sys = Sys(
    pipe: nat,
    readers: nat,
    writers: nat,
    queue: seq<byte>,
    sched: Sched,
    procs: seq<ThreadId>,
    ops: map<ThreadId, Op>,
    written: seq<byte>,
    popped: seq<byte>,
    got: seq<byte>,
    short: nat,
    log: seq<Logged>,
    calls: map<ThreadId, Call>)

  function OpOf(s: Sys, t: ThreadId): Op { if t in s.ops then s.ops[t] else Idle }

  function CallOf(s: Sys, t: ThreadId): Call { if t in s.calls then s.calls[t] else Call(0, [], 0, [], 0) }

  function Chunk(rest: seq<byte>): seq<byte> { rest[..Min(PIPE_BUF, |rest|)] }

  /** Bytes that the pop loop takes off a queue of `len` for a buffer of `size`: it pops once more
      than it stores before it sees that the buffer is full. */
  function PopCount(len: nat, size: nat): nat { if len <= size then len else size + 1 }

  // ---------------------------------------------------------------- steps

  datatype Step =
    | OpenRead(size: nat)
    | OpenWrite(data: seq<byte>)
    | ReadTry
    | WriteTry
    | ScanOne
    | WakeFound
    | AddProc(pid: ThreadId)
    | RemoveProc
    | Other(step: Scheduler.Step)

  predicate OnPipe(s: Sys, reason: BlockReason)
  {
    reason == WaitPipeRead(s.pipe) || reason == WaitPipeWrite(s.pipe)
  }

  /** A thread inside a pipe call makes only the steps of that call, apart from the switch that
      follows its blocking; interrupts and wake-ups come at any time. */
  predicate Enabled(s: Sys, step: Step)
  {
    var t := s.sched.curr;
    var op := OpOf(s, t);
    var own := t in s.sched.tcbs && t !in s.sched.atSwitch;
    match step
    case OpenRead(size) => own && op.Idle? && t in s.procs
    case OpenWrite(_) => own && op.Idle? && t in s.procs
    case ReadTry => own && op.Reading?
    case WriteTry => own && op.Writing?
    case ScanOne => own && (op.ReadWake? || op.WriteWake?) && op.scan.todo != []
    case WakeFound => own && (op.ReadWake? || op.WriteWake?) && op.scan.todo == []
    case AddProc(_) => own && op.Idle?
    case RemoveProc => own && op.Idle?
    case Other(st) =>
      && Scheduler.Enabled(s.sched, st)
      && (st.BlockStep? || st.YieldStep? || st.SpawnStep? ==> op.Idle?)
      && (st.BlockStep? ==> !OnPipe(s, st.reason))
  }

  function WithOp(s: Sys, op: Op): Sys { s.(ops := s.ops[s.sched.curr := op]) }

  function WithCall(s: Sys, c: Call): Sys { s.(calls := s.calls[s.sched.curr := c]) }

  /** The current call ends and returns `n`. */
  function Return(s: Sys, n: nat): Sys
  {
    WithOp(WithCall(s, CallOf(s, s.sched.curr).(returned := n)), Idle)
  }

  /** The locked section of `read`. */
  function Read(s: Sys, size: nat): Sys
    requires s.sched.curr in s.sched.tcbs
  {
    if s.queue != [] then
      var n, k := PopCount(|s.queue|, size), Min(|s.queue|, size);
      var s1 := s.(queue := s.queue[n..], popped := s.popped + s.queue[..n], got := s.got + s.queue[..k],
                   short := s.short + (n - k));
      var s2 := WithCall(s1, CallOf(s, s.sched.curr).(count := k, buffer := s.queue[..k]));
      if k > 0 then WithOp(s2, ReadWake(Scan(s.procs, []))) else Return(s2, k)
    else if s.writers == 0 then Return(s, 0)
    else s.(sched := Block(s.sched, WaitPipeRead(s.pipe)))
  }

  /** The locked section of `write`, for one chunk. */
  function Write(s: Sys, rest: seq<byte>): Sys
    requires s.sched.curr in s.sched.tcbs
  {
    var chunk, call := Chunk(rest), CallOf(s, s.sched.curr);
    if |chunk| + |s.queue| > CAPACITY then
      if s.readers == 0 then Return(s, call.count)
      else s.(sched := Block(s.sched, WaitPipeWrite(s.pipe)))
    else
      var s1 := s.(queue := s.queue + chunk, written := s.written + chunk, log := s.log + [Logged(s.sched.curr, chunk)]);
      WithOp(WithCall(s1, call.(count := call.count + |chunk|)), WriteWake(Scan(s.procs, []), rest[|chunk|..]))
  }

  /** The reason a scan looks for: writers wake readers, readers wake writers. */
  function Wanted(s: Sys, op: Op): BlockReason
  {
    if op.WriteWake? then WaitPipeRead(s.pipe) else WaitPipeWrite(s.pipe)
  }

  /** Looks at one process; a process without a thread is an `unwrap` on `None`. */
  function Look(s: Sys, op: Op): Outcome<Op>
    requires (op.ReadWake? || op.WriteWake?) && op.scan.todo != []
  {
    var p := op.scan.todo[0];
    if p !in s.sched.tcbs then Panicked
    else
      var found := s.sched.tcbs[p].state == Blocked(Wanted(s, op));
      var scan := Scan(op.scan.todo[1..], if found then op.scan.toWake + [p] else op.scan.toWake);
      Returned(if op.ReadWake? then ReadWake(scan) else WriteWake(scan, op.rest))
  }

  /** What follows the wake-up by `t`: the next chunk is up, or the call returns its count. */
  function AfterWake(s: Sys, t: ThreadId, op: Op): Sys
  {
    if op.WriteWake? && op.rest != [] then s.(ops := s.ops[t := Writing(op.rest)])
    else s.(ops := s.ops[t := Idle], calls := s.calls[t := CallOf(s, t).(returned := CallOf(s, t).count)])
  }

  function StartRead(s: Sys): Sys { WithCall(s, CallOf(s, s.sched.curr).(count := 0, buffer := [])) }

  function StartWrite(s: Sys, data: seq<byte>): Sys
  {
    WithCall(s, CallOf(s, s.sched.curr).(from := |s.log|, data := data, count := 0))
  }

  function Next(s: Sys, step: Step): Outcome<Sys>
    requires Enabled(s, step)
  {
    var op := OpOf(s, s.sched.curr);
    match step
    case OpenRead(size) => Returned(WithOp(StartRead(s), Reading(size)))
    case OpenWrite(data) =>
      Returned(if data == [] then Return(StartWrite(s, data), 0) else WithOp(StartWrite(s, data), Writing(data)))
    case ReadTry => Returned(Read(s, op.size))
    case WriteTry => Returned(Write(s, op.rest))
    case ScanOne =>
      (match Look(s, op)
       case Panicked => Panicked
       case Returned(op') => Returned(WithOp(s, op')))
    case WakeFound => Returned(AfterWake(s.(sched := UnblockAll(s.sched, op.scan.toWake)), s.sched.curr, op))
    case AddProc(pid) => Returned(s.(procs := s.procs + [pid]))
    case RemoveProc => Returned(s.(procs := Without(s.procs, s.sched.curr)))
    case Other(st) =>
      (match Scheduler.Next(s.sched, st)
       case Panicked => Panicked
       case Returned(sched) => Returned(s.(sched := sched)))
  }

  function Without(ids: seq<ThreadId>, t: ThreadId): (r: seq<ThreadId>)
    ensures forall id :: id in r <==> id in ids && id != t
  {
    if ids == [] then [] else if ids[0] == t then Without(ids[1..], t) else [ids[0]] + Without(ids[1..], t)
  }

  // ---------------------------------------------------------------- conservation

  /** Nothing is lost between push and pop, and the queue never overflows. */
  ghost predicate Fifo(s: Sys)
  {
    && |s.queue| <= CAPACITY
    && s.written == s.popped + s.queue
    && |s.got| + s.short == |s.popped|
    && (s.short == 0 ==> s.got == s.popped)
  }

  lemma ReadFifo(s: Sys, size: nat)
    requires Fifo(s) && s.sched.curr in s.sched.tcbs
    ensures Fifo(Read(s, size))
    ensures Read(s, size).short == s.short <==> |s.queue| <= size
  {
    if s.queue != [] {
      var n, k := PopCount(|s.queue|, size), Min(|s.queue|, size);
      assert s.queue == s.queue[..n] + s.queue[n..];
      assert s.popped + s.queue == s.popped + s.queue[..n] + s.queue[n..];
    }
  }

  lemma StepFifo(s: Sys, step: Step)
    requires Fifo(s) && Enabled(s, step) && Next(s, step).Returned?
    ensures Fifo(Next(s, step).value)
  {
    hide Scheduler.Next, Block, UnblockAll;
    match step
    case ReadTry => ReadFifo(s, OpOf(s, s.sched.curr).size);
    case WriteTry =>
      var chunk := Chunk(OpOf(s, s.sched.curr).rest);
      assert s.popped + (s.queue + chunk) == s.popped + s.queue + chunk;
    case _ =>
  }

  /** All bytes read, followed by the queue, are all bytes written, exactly when no read met a queue
      longer than its buffer. */
  lemma Conserved(s: Sys)
    requires Fifo(s)
    ensures s.got + s.queue == s.written <==> s.short == 0
  {
    if s.got + s.queue == s.written {
      assert |s.got + s.queue| == |s.written|;
    }
  }

  // ---------------------------------------------------------------- chunks stay whole

  function AllChunks(log: seq<Logged>): seq<byte>
  {
    if log == [] then [] else AllChunks(log[..|log| - 1]) + log[|log| - 1].chunk
  }

  /** What `t` has put, in order. */
  function SentBy(log: seq<Logged>, t: ThreadId): seq<byte>
  {
    if log == [] then []
    else
      var last := log[|log| - 1];
      SentBy(log[..|log| - 1], t) + if last.thread == t then last.chunk else []
  }

  predicate InWrite(op: Op) { op.Writing? || op.WriteWake? }

  predicate InRead(op: Op) { op.Reading? || op.ReadWake? }

  /** What the latest `write` of `t` has put so far. */
  ghost function Sent(s: Sys, t: ThreadId): seq<byte>
    requires CallOf(s, t).from <= |s.log|
  {
    SentBy(s.log[CallOf(s, t).from..], t)
  }

  ghost predicate CallOk(s: Sys, t: ThreadId)
  {
    var op, call := OpOf(s, t), CallOf(s, t);
    && (op.Writing? ==> op.rest != [])
    && call.from <= |s.log|
    && (if InWrite(op) then Sent(s, t) + op.rest == call.data && call.count == |Sent(s, t)| else Sent(s, t) <= call.data)
    && (op.ReadWake? ==> call.count == |call.buffer|)
  }

  /** The bytes written are the chunks of the log, none longer than the limit; what a call has put
      followed by what it has left is what it was given, and its counter says how much it put or stored. */
  ghost predicate ChunksOk(s: Sys)
  {
    && s.written == AllChunks(s.log)
    && (forall i :: 0 <= i < |s.log| ==> 0 < |s.log[i].chunk| <= PIPE_BUF)
    && (forall t :: CallOk(s, t))
  }

  lemma SentMore(log: seq<Logged>, from: nat, x: Logged, t: ThreadId)
    requires from <= |log|
    ensures SentBy((log + [x])[from..], t) == SentBy(log[from..], t) + if x.thread == t then x.chunk else []
    ensures AllChunks(log + [x]) == AllChunks(log) + x.chunk
  {
    var more := (log + [x])[from..];
    assert more[|more| - 1] == x && more[..|more| - 1] == log[from..];
    assert (log + [x])[..|log|] == log;
  }

  lemma CallAt(s: Sys, t: ThreadId)
    requires ChunksOk(s)
    ensures CallOk(s, t)
  {
    hide CallOk;
  }

  lemma AllCalls(s: Sys, s': Sys)
    requires ChunksOk(s) && s'.log == s.log && s'.written == s.written && forall t :: CallOk(s', t)
    ensures ChunksOk(s')
  {
    hide CallOk, AllChunks;
  }

  lemma LoggedMore(s: Sys, s': Sys, x: Logged)
    requires ChunksOk(s) && s'.log == s.log + [x] && 0 < |x.chunk| <= PIPE_BUF
    requires s'.written == s.written + x.chunk && AllChunks(s'.log) == AllChunks(s.log) + x.chunk && forall t :: CallOk(s', t)
    ensures ChunksOk(s')
  {
    hide CallOk, AllChunks;
  }

  lemma PutChunk(s: Sys)
    requires ChunksOk(s) && Enabled(s, WriteTry)
    ensures ChunksOk(Write(s, OpOf(s, s.sched.curr).rest))
  {
    hide SentBy, AllChunks, Block, ChunksOk, CallOk;
    var me := s.sched.curr;
    var rest := OpOf(s, me).rest;
    var s', x := Write(s, rest), Logged(me, Chunk(rest));
    RestLeft(s, me);
    if |x.chunk| + |s.queue| <= CAPACITY {
      SentMore(s.log, 0, x, me);
      forall t ensures CallOk(s', t) { PutCall(s, s', x, rest, t); }
      LoggedMore(s, s', x);
    } else {
      KeptChunks(s, s', me, if s.readers == 0 then Idle else Writing(rest));
    }
  }

  lemma RestLeft(s: Sys, t: ThreadId)
    requires ChunksOk(s) && OpOf(s, t).Writing?
    ensures OpOf(s, t).rest != []
  {
    hide SentBy, AllChunks;
    assert CallOk(s, t);
  }

  /** The call of each thread after one has put the chunk `x`. */
  lemma PutCall(s: Sys, s': Sys, x: Logged, rest: seq<byte>, t: ThreadId)
    requires ChunksOk(s) && OpOf(s, x.thread) == Writing(rest) && x.chunk <= rest && s'.log == s.log + [x]
    requires var call := CallOf(s, x.thread); s'.calls == s.calls[x.thread := call.(count := call.count + |x.chunk|)]
    requires x.thread in s'.ops && s'.ops == s.ops[x.thread := s'.ops[x.thread]]
    requires s'.ops[x.thread].WriteWake? && s'.ops[x.thread].rest == rest[|x.chunk|..]
    ensures CallOk(s', t)
  {
    hide SentBy, AllChunks, ChunksOk;
    CallAt(s, t);
    SentMore(s.log, CallOf(s, t).from, x, t);
    assert rest == x.chunk + rest[|x.chunk|..];
  }

  /** Every step keeps chunks whole and calls in order. */
  lemma StepChunks(s: Sys, step: Step)
    requires ChunksOk(s) && Enabled(s, step) && Next(s, step).Returned?
    ensures ChunksOk(Next(s, step).value)
  {
    hide SentBy, AllChunks, Scheduler.Next, Block, UnblockAll, Write, Read, ChunksOk;
    var s', me := Next(s, step).value, s.sched.curr;
    match step
    case WriteTry => PutChunk(s);
    case ReadTry => TakeChunks(s);
    case OpenWrite(data) => OpenChunks(s, data);
    case OpenRead(size) => ReadChunks(s, s', Reading(size), []);
    case ScanOne => KeptChunks(s, s', me, Look(s, OpOf(s, me)).value);
    case WakeFound => KeptChunks(s, s', me, OpOf(s', me));
    case _ => KeptChunks(s, s', me, Idle);
  }

  /** A step that puts and stores nothing: the call of `me` goes on with the same rest, or ends. */
  lemma KeptChunks(s: Sys, s': Sys, me: ThreadId, op: Op)
    requires ChunksOk(s) && s'.log == s.log && s'.written == s.written
    requires s'.calls == s.calls || s'.calls == s.calls[me := CallOf(s, me).(returned := CallOf(s', me).returned)]
    requires s'.ops == s.ops || s'.ops == s.ops[me := op]
    requires op.Writing? ==> op.rest != []
    requires InWrite(op) ==> InWrite(OpOf(s, me)) && OpOf(s, me).rest == op.rest
    requires op.ReadWake? ==> OpOf(s, me).ReadWake?
    ensures ChunksOk(s')
  {
    hide SentBy, AllChunks, ChunksOk;
    forall t ensures CallOk(s', t) { CallAt(s, t); }
    AllCalls(s, s');
  }

  /** A read that begins, or that has stored what it counted. */
  lemma ReadChunks(s: Sys, s': Sys, op: Op, buffer: seq<byte>)
    requires ChunksOk(s) && s'.log == s.log && s'.written == s.written
    requires !InWrite(OpOf(s, s.sched.curr)) && !InWrite(op) && s'.ops == s.ops[s.sched.curr := op]
    requires s'.calls == s.calls[s.sched.curr := CallOf(s, s.sched.curr).(count := |buffer|, buffer := buffer,
                                                                         returned := CallOf(s', s.sched.curr).returned)]
    ensures ChunksOk(s')
  {
    hide SentBy, AllChunks, ChunksOk;
    forall t ensures CallOk(s', t) { CallAt(s, t); }
    AllCalls(s, s');
  }

  lemma TakeChunks(s: Sys)
    requires ChunksOk(s) && Enabled(s, ReadTry)
    ensures ChunksOk(Read(s, OpOf(s, s.sched.curr).size))
  {
    hide SentBy, AllChunks, ChunksOk, Block;
    var me := s.sched.curr;
    var size := OpOf(s, me).size;
    var s' := Read(s, size);
    if s.queue != [] {
      ReadChunks(s, s', OpOf(s', me), s.queue[..Min(|s.queue|, size)]);
    } else {
      KeptChunks(s, s', me, OpOf(s', me));
    }
  }

  lemma OpenChunks(s: Sys, data: seq<byte>)
    requires ChunksOk(s) && Enabled(s, OpenWrite(data))
    ensures ChunksOk(Next(s, OpenWrite(data)).value)
  {
    hide SentBy, AllChunks, ChunksOk;
    var s' := Next(s, OpenWrite(data)).value;
    SentNothing(s.log, s.sched.curr);
    assert [] + data == data;
    forall t ensures CallOk(s', t) { CallAt(s, t); }
    AllCalls(s, s');
  }

  // ---------------------------------------------------------------- how calls end

  /** A call under way is changed by its own thread only. */
  lemma OwnCalls(s: Sys, step: Step, t: ThreadId)
    requires Enabled(s, step) && Next(s, step).Returned? && OpOf(Next(s, step).value, t) != OpOf(s, t)
    ensures t == s.sched.curr
  {
    hide Scheduler.Next, Block, UnblockAll;
  }

  /** A `write` begins with all its data to go; one of nothing returns 0 at once. */
  lemma WriteBegins(s: Sys, data: seq<byte>)
    requires Enabled(s, OpenWrite(data))
    ensures var s', t := Next(s, OpenWrite(data)).value, s.sched.curr;
      && s'.log == s.log && s'.queue == s.queue && CallOf(s', t).data == data && CallOf(s', t).from == |s.log|
      && (data != [] ==> OpOf(s', t) == Writing(data) && CallOf(s', t).count == 0)
      && (data == [] ==> OpOf(s', t) == Idle && CallOf(s', t).returned == 0)
  {
  }

  /** A `write` ends when all its data is in the queue, or when there are no readers and the next chunk
      does not fit; it returns the number of bytes it put. */
  lemma WriteEnds(s: Sys, step: Step, t: ThreadId)
    requires ChunksOk(s) && Enabled(s, step) && Next(s, step).Returned?
    requires InWrite(OpOf(s, t)) && !InWrite(OpOf(Next(s, step).value, t))
    ensures var s' := Next(s, step).value;
      && OpOf(s', t).Idle? && CallOf(s', t) == CallOf(s, t).(returned := CallOf(s', t).returned)
      && CallOf(s, t).from <= |s'.log| && CallOf(s', t).returned == |Sent(s', t)|
      && (Sent(s', t) == CallOf(s', t).data ||
          (Sent(s', t) + OpOf(s, t).rest == CallOf(s', t).data
           && s.readers == 0 && |s.queue| + Min(1024, |OpOf(s, t).rest|) > 4096))
  {
    hide SentBy, AllChunks, Scheduler.Next, Block, UnblockAll, ChunksOk, Read, Look;
    OwnCalls(s, step, t);
    CallAt(s, t);
    assert OpOf(s, t).rest == [] ==> Sent(s, t) + OpOf(s, t).rest == Sent(s, t);
    match step
    case WriteTry =>
    case WakeFound =>
    case ScanOne => LookGoesOn(s, OpOf(s, t));
    case _ =>
  }

  lemma LookGoesOn(s: Sys, op: Op)
    requires (op.ReadWake? || op.WriteWake?) && op.scan.todo != [] && Look(s, op).Returned?
    ensures InWrite(op) <==> InWrite(Look(s, op).value)
    ensures InRead(op) <==> InRead(Look(s, op).value)
  {
  }

  /** A `read` ends after it has woken the writers, or at once if the pipe is empty and has no writers or
      the buffer has no room; it returns the number of bytes it stored. */
  lemma ReadEnds(s: Sys, step: Step, t: ThreadId)
    requires ChunksOk(s) && Enabled(s, step) && Next(s, step).Returned?
    requires InRead(OpOf(s, t)) && !InRead(OpOf(Next(s, step).value, t))
    ensures var s' := Next(s, step).value;
      && OpOf(s', t).Idle?
      && (OpOf(s, t).ReadWake? ==> CallOf(s', t).buffer == CallOf(s, t).buffer && CallOf(s', t).returned == |CallOf(s', t).buffer|)
      && (OpOf(s, t).Reading? ==>
            CallOf(s', t).returned == 0 && ((s.queue == [] && s.writers == 0) || (s.queue != [] && OpOf(s, t).size == 0)))
  {
    hide SentBy, AllChunks, Scheduler.Next, Block, UnblockAll, ChunksOk, Write, Look;
    OwnCalls(s, step, t);
    CallAt(s, t);
    match step
    case ReadTry =>
    case WakeFound =>
    case ScanOne => LookGoesOn(s, OpOf(s, t));
    case _ =>
  }

  /** A `read` of a pipe that holds bytes stores the first of them, as many as there is room for; on an
      empty pipe with writers it waits. */
  lemma ReadStores(s: Sys)
    requires Enabled(s, ReadTry)
    ensures var s', t, size := Next(s, ReadTry).value, s.sched.curr, OpOf(s, s.sched.curr).size;
      && (s.queue != [] ==>
            && CallOf(s', t).buffer == s.queue[..Min(size, |s.queue|)] && s'.got == s.got + CallOf(s', t).buffer
            && (size > 0 ==> OpOf(s', t) == ReadWake(Scan(s.procs, []))))
      && (s.queue == [] && s.writers > 0 ==>
            s' == s.(sched := s'.sched) && t in s'.sched.tcbs && s'.sched.tcbs[t].state == Blocked(WaitPipeRead(s.pipe)))
  {
  }

  lemma {:induction false} UnblockAllCurr(s: Sched, ids: seq<ThreadId>)
    ensures UnblockAll(s, ids).curr == s.curr
  {
    if ids != [] { UnblockAllCurr(s, ids[..|ids| - 1]); }
  }

  lemma SentNothing(log: seq<Logged>, t: ThreadId)
    ensures SentBy(log[|log|..], t) == []
  {
  }

  /** So every chunk lies in one piece among the bytes written, at the place its turn gives it. */
  lemma {:induction false} ChunkInOnePiece(log: seq<Logged>, i: nat)
    requires i < |log|
    ensures var at := |AllChunks(log[..i])|;
      && at + |log[i].chunk| <= |AllChunks(log)|
      && AllChunks(log)[at..at + |log[i].chunk|] == log[i].chunk
    decreases |log|
  {
    var n := |log| - 1;
    if i < n {
      ChunkInOnePiece(log[..n], i);
      assert log[..n][..i] == log[..i];
    }
  }
}
