/** The loops of the pipe: popping into a reader's buffer, pushing a chunk byte by byte, and the scan
    over the processes. */
module PipeKernel {
  import opened Wrappers
  import opened Bytes
  import opened Scheduler
  import opened Pipe
  import opened SchedulerKernel

  /** The bounded queue behind a pipe. */
  class ByteQueue {
    var bytes: seq<byte>

    /** Adds a byte unless the queue is full; a refused byte is dropped. */
    method Push(b: byte) returns (ok: bool)
      modifies this
      ensures ok == (|old(bytes)| < CAPACITY)
      ensures bytes == if ok then old(bytes) + [b] else old(bytes)
    {
      ok := |bytes| < CAPACITY;
      if ok {
        bytes := bytes + [b];
      }
    }

    method Pop() returns (b: Option<byte>)
      modifies this
      ensures match b
        case None => old(bytes) == [] && bytes == []
        case Some(x) => old(bytes) == [x] + bytes
    {
      if bytes == [] {
        return None;
      }
      b := Some(bytes[0]);
      bytes := bytes[1..];
    }

    /** The pop loop of `read`: it fills the buffer from the front of the queue, and takes one byte
        more than fits when the queue holds more. */
    method PopInto(buffer: array<byte>) returns (bytesRead: nat)
      modifies this, buffer
      ensures bytesRead == Min(|old(bytes)|, buffer.Length)
      ensures bytes == old(bytes)[PopCount(|old(bytes)|, buffer.Length)..]
      ensures buffer[..bytesRead] == old(bytes)[..bytesRead]
      ensures buffer[bytesRead..] == old(buffer[..])[bytesRead..]
    {
      ghost var was, before := bytes, buffer[..];
      bytesRead := 0;
      while true
        invariant bytesRead <= buffer.Length && bytesRead <= |was| && bytes == was[bytesRead..]
        invariant buffer[..bytesRead] == was[..bytesRead] && buffer[bytesRead..] == before[bytesRead..]
        decreases |bytes|
      {
        var b := Pop();
        if b.None? || bytesRead >= buffer.Length {
          break;
        }
        buffer[bytesRead] := b.value;
        bytesRead := bytesRead + 1;
      }
    }

    /** The push loop of `write`: no byte of a chunk that fits is dropped. */
    method PushChunk(chunk: seq<byte>)
      requires |chunk| + |bytes| <= CAPACITY
      modifies this
      ensures bytes == old(bytes) + chunk
    {
      var i := 0;
      while i < |chunk|
        invariant 0 <= i <= |chunk| && bytes == old(bytes) + chunk[..i]
      {
        var _ := Push(chunk[i]);
        assert chunk[..i + 1] == chunk[..i] + [chunk[i]];
        i := i + 1;
      }
      assert chunk[..i] == chunk;
    }
  }

  /** The processes that wait on the pipe for `reason`. */
  function Waiters(tcbs: map<ThreadId, Tcb>, procs: seq<ThreadId>, reason: BlockReason): seq<ThreadId>
  {
    if procs == [] then []
    else
      var n := |procs| - 1;
      var before := Waiters(tcbs, procs[..n], reason);
      if procs[n] in tcbs && tcbs[procs[n]].state == Blocked(reason) then before + [procs[n]] else before
  }

  lemma {:induction false} WaitersExact(tcbs: map<ThreadId, Tcb>, procs: seq<ThreadId>, reason: BlockReason, t: ThreadId)
    ensures t in Waiters(tcbs, procs, reason) <==> t in procs && t in tcbs && tcbs[t].state == Blocked(reason)
  {
    if procs != [] {
      var n := |procs| - 1;
      WaitersExact(tcbs, procs[..n], reason, t);
      assert procs == procs[..n] + [procs[n]];
    }
  }

  lemma {:induction false} WaitersFront(tcbs: map<ThreadId, Tcb>, procs: seq<ThreadId>, reason: BlockReason)
    requires procs != []
    ensures var first := if procs[0] in tcbs && tcbs[procs[0]].state == Blocked(reason) then [procs[0]] else [];
      Waiters(tcbs, procs, reason) == first + Waiters(tcbs, procs[1..], reason)
    decreases |procs|
  {
    var n := |procs| - 1;
    if n > 0 {
      WaitersFront(tcbs, procs[..n], reason);
      assert procs[..n][1..] == procs[1..][..n - 1] && procs[1..][n - 1] == procs[n];
    } else {
      assert procs[..n] == [] && procs[1..] == [];
    }
  }

  /** The looks of a scan at processes that do not change meanwhile. */
  function LookAll(s: Sys, op: Op): (r: Outcome<Op>)
    requires op.ReadWake? || op.WriteWake?
    ensures r.Returned? ==> r.value.ReadWake? || r.value.WriteWake?
    decreases |op.scan.todo|
  {
    if op.scan.todo == [] then Returned(op)
    else match Look(s, op)
      case Panicked => Panicked
      case Returned(op') => LookAll(s, op')
  }

  /** Step by step the scan finds whom the loop of `wake_pipe_sleepers` finds, in the same order. */
  lemma {:induction false} ScanIsLoop(s: Sys, op: Op)
    requires (op.ReadWake? || op.WriteWake?) && LookAll(s, op).Returned?
    ensures LookAll(s, op).value.scan == Scan([], op.scan.toWake + Waiters(s.sched.tcbs, op.scan.todo, Wanted(s, op)))
    decreases |op.scan.todo|
  {
    hide Waiters;
    var tcbs, todo, found := s.sched.tcbs, op.scan.todo, op.scan.toWake;
    if todo == [] {
      NoWaiters(tcbs, Wanted(s, op));
    } else {
      var op' := Look(s, op).value;
      LookFinds(s, op);
      ScanIsLoop(s, op');
      WaitersFront(tcbs, todo, Wanted(s, op));
      ConcatAssociative(found, if tcbs[todo[0]].state == Blocked(Wanted(s, op)) then [todo[0]] else [],
                        Waiters(tcbs, todo[1..], Wanted(s, op)));
    }
  }

  lemma LookFinds(s: Sys, op: Op)
    requires (op.ReadWake? || op.WriteWake?) && op.scan.todo != [] && Look(s, op).Returned?
    ensures var op', p := Look(s, op).value, op.scan.todo[0];
      && p in s.sched.tcbs && (op'.ReadWake? || op'.WriteWake?) && Wanted(s, op') == Wanted(s, op)
      && op'.scan.todo == op.scan.todo[1..]
      && op'.scan.toWake == op.scan.toWake + if s.sched.tcbs[p].state == Blocked(Wanted(s, op)) then [p] else []
  {
  }

  lemma NoWaiters(tcbs: map<ThreadId, Tcb>, reason: BlockReason)
    ensures Waiters(tcbs, [], reason) == []
  {
  }

  /** `wake_pipe_sleepers`, undisturbed: everyone who waits for `reason` is unblocked, in order. */
  method WakePipeSleepers(k: Kernel, procs: seq<ThreadId>, reason: BlockReason) returns (r: Outcome<()>)
    requires k.Valid()
    modifies k
    ensures k.Valid()
    ensures r.Panicked? <==> exists i :: 0 <= i < |procs| && procs[i] !in old(k.tcbs)
    ensures r.Returned? ==> k.State() == UnblockAll(old(k.State()), Waiters(old(k.tcbs), procs, reason))
  {
    ghost var s := k.State();
    var toWake := [];
    var i := 0;
    while i < |procs|
      invariant 0 <= i <= |procs| && k.Valid() && k.State() == s
      invariant forall j :: 0 <= j < i ==> procs[j] in s.tcbs
      invariant toWake == Waiters(s.tcbs, procs[..i], reason)
    {
      var found := k.Find(procs[i]);
      if !found {
        return Panicked;
      }
      assert procs[..i + 1][..i] == procs[..i];
      if k.tcbs[procs[i]].state == Blocked(reason) {
        toWake := toWake + [procs[i]];
      }
      i := i + 1;
    }
    assert procs[..i] == procs;
    i := 0;
    while i < |toWake|
      invariant 0 <= i <= |toWake| && k.Valid() && k.State() == UnblockAll(s, toWake[..i])
    {
      assert toWake[..i + 1][..i] == toWake[..i];
      k.UnblockTask(toWake[i]);
      i := i + 1;
    }
    assert toWake[..i] == toWake;
    r := Returned(());
  }
}
