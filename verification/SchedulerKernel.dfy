/** The scheduler as the kernel runs it: fields updated in place, linear searches, and the timer's
    fixed wake-up array. Each method is proved against the step it implements. */
module SchedulerKernel {
  import opened Wrappers
  import opened Scheduler

  class Kernel {
    var threads: seq<ThreadId>
    var tcbs: map<ThreadId, Tcb>
    var readyQueue: seq<ThreadId>
    var curr: ThreadId
    var needsReschedule: bool
    var elapsed: nat
    ghost var atSwitch: set<ThreadId>

    ghost function State(): Sched
      reads this
    {
      Sched(threads, tcbs, readyQueue, curr, needsReschedule, elapsed, atSwitch)
    }

    /** Every thread in the list has a control block, and the other way round; the processor is
        owned by one of them or by the main thread, which is not in the list. */
    ghost predicate Valid()
      reads this
    {
      && (forall id :: id in tcbs <==> id in threads)
      && MAIN !in tcbs && (curr == MAIN || curr in tcbs)
    }

    constructor ()
      ensures Valid() && State() == Boot()
    {
      threads, tcbs, readyQueue := [], map[], [];
      curr, needsReschedule, elapsed := MAIN, false, 0;
      atSwitch := {};
    }

    /** The search for a control block by id. */
    method Find(id: ThreadId) returns (found: bool)
      requires Valid()
      ensures found == (id in tcbs)
    {
      var i := 0;
      while i < |threads|
        invariant 0 <= i <= |threads|
        invariant id !in threads[..i]
      {
        if threads[i] == id {
          return true;
        }
        i := i + 1;
      }
      return false;
    }

    method SpawnThread(id: ThreadId)
      requires Valid() && id !in tcbs && id != MAIN
      modifies this
      ensures Valid() && State() == Spawn(old(State()), id)
    {
      threads := threads + [id];
      tcbs := tcbs[id := Tcb(Ready, TIME_SLICE)];
      if id > 2 {
        readyQueue := readyQueue + [id];
      }
    }

    method UnblockTask(id: ThreadId)
      requires Valid()
      modifies this
      ensures Valid() && State() == Unblock(old(State()), id)
    {
      var found := Find(id);
      if found && tcbs[id].state.Blocked? {
        tcbs := tcbs[id := tcbs[id].(state := Ready)];
        readyQueue := readyQueue + [id];
        needsReschedule := true;
      }
    }

    /** The locked half of `block_task`. */
    method BlockSection(reason: BlockReason)
      requires Valid() && curr != MAIN
      modifies this
      ensures Valid() && State() == Block(old(State()), reason)
    {
      tcbs := tcbs[curr := Tcb(Blocked(reason), TIME_SLICE)];
      needsReschedule := true;
      atSwitch := atSwitch + {curr};
    }

    /** The locked half of `yield_sched`. */
    method YieldSection()
      requires Valid() && curr != MAIN
      modifies this
      ensures Valid() && State() == Yield(old(State()))
    {
      tcbs := tcbs[curr := Tcb(Ready, TIME_SLICE)];
      readyQueue := readyQueue + [curr];
      needsReschedule := true;
      atSwitch := atSwitch + {curr};
    }

    /** The thread to run next: the front of the queue, or the main thread when it is empty. */
    method PickNextThread() returns (next: Outcome<ThreadId>)
      requires Valid()
      modifies this
      ensures Valid() && curr == old(curr)
      ensures next.Returned? ==> next.value == MAIN || next.value in tcbs
      ensures match next
        case Panicked => PickNext(old(State())).Panicked?
        case Returned(id) => PickNext(old(State())) == Returned(State().(curr := id))
    {
      if readyQueue == [] {
        return Returned(MAIN);
      }
      var id := readyQueue[0];
      readyQueue := readyQueue[1..];
      var found := Find(id);
      if !found {
        return Panicked;
      }
      tcbs := tcbs[id := tcbs[id].(state := Running)];
      return Returned(id);
    }

    method SwitchNow() returns (panicked: bool)
      requires Valid()
      modifies this
      ensures Valid()
      ensures match SwitchIfNeeded(old(State()))
        case Panicked => panicked
        case Returned(s) => !panicked && State() == s
    {
      if !needsReschedule {
        return false;
      }
      needsReschedule := false;
      if curr != MAIN && tcbs[curr].state == Running {
        tcbs := tcbs[curr := Tcb(Ready, TIME_SLICE)];
        readyQueue := readyQueue + [curr];
      }
      assert State() == Requeue(old(State()).(needsReschedule := false));
      var next := PickNextThread();
      if next.Panicked? {
        return true;
      }
      curr := next.value;
      return false;
    }

    /** Collects the sleepers that are due; `ok` is false when they overrun the array. */
    method CollectDue(now: nat, toWake: array<ThreadId>) returns (ok: bool, count: nat)
      requires Valid() && toWake.Length == MAX_WAKE
      modifies toWake
      ensures ok <==> |ExpiredIds(tcbs, threads, now)| <= MAX_WAKE
      ensures ok ==> count <= MAX_WAKE && toWake[..count] == ExpiredIds(tcbs, threads, now)
    {
      count := 0;
      var i := 0;
      while i < |threads|
        invariant 0 <= i <= |threads| && count <= MAX_WAKE
        invariant toWake[..count] == ExpiredIds(tcbs, threads[..i], now)
      {
        assert threads[..i + 1][..i] == threads[..i];
        assert threads[i] in threads;
        if Expired(tcbs[threads[i]], now) {
          if count == MAX_WAKE {
            ExpiredGrows(tcbs, threads, now, i + 1);
            return false, count;
          }
          toWake[count] := threads[i];
          count := count + 1;
        }
        i := i + 1;
      }
      assert threads[..i] == threads;
      ok := true;
    }

    method TimerInterruptHandler() returns (panicked: bool)
      requires Valid()
      modifies this
      ensures Valid()
      ensures match TimerInterrupt(old(State()))
        case Panicked => panicked
        case Returned(s) => !panicked && State() == s
    {
      hide SwitchIfNeeded, UnblockAll, ChargeSlice, ExpiredIds;
      elapsed := elapsed + 1;
      var toWake := new ThreadId[MAX_WAKE];
      var ok, count := CollectDue(elapsed * 1_000_000, toWake);
      if !ok {
        return true;
      }
      WakeDue(toWake, count);
      ChargeCurrent();
      panicked := SwitchNow();
    }

    method WakeDue(toWake: array<ThreadId>, count: nat)
      requires Valid() && count <= toWake.Length
      modifies this
      ensures Valid() && State() == UnblockAll(old(State()), toWake[..count])
    {
      ghost var s := State();
      ghost var due := toWake[..count];
      var i := 0;
      while i < count
        invariant 0 <= i <= count
        invariant Valid() && State() == UnblockAll(s, due[..i])
      {
        assert due[..i + 1][..i] == due[..i];
        UnblockTask(toWake[i]);
        i := i + 1;
      }
      assert due[..i] == due;
    }

    /** Charges the tick to the current thread, or wakes the scheduler for a waiting one. */
    method ChargeCurrent()
      requires Valid()
      modifies this
      ensures Valid() && State() == ChargeSlice(old(State()))
    {
      if curr != MAIN {
        if tcbs[curr].slice <= TIME_BETWEEN_TICKS {
          tcbs := tcbs[curr := Tcb(Ready, TIME_SLICE)];
          readyQueue := readyQueue + [curr];
          needsReschedule := true;
        } else {
          tcbs := tcbs[curr := tcbs[curr].(slice := tcbs[curr].slice - TIME_BETWEEN_TICKS)];
        }
      } else if readyQueue != [] {
        needsReschedule := true;
      }
    }
  }

  lemma {:induction false} ExpiredGrows(tcbs: map<ThreadId, Tcb>, order: seq<ThreadId>, now: nat, i: nat)
    requires i <= |order|
    ensures |ExpiredIds(tcbs, order[..i], now)| <= |ExpiredIds(tcbs, order, now)|
    decreases |order| - i
  {
    if i < |order| {
      assert order[..i + 1][..i] == order[..i];
      ExpiredGrows(tcbs, order, now, i + 1);
    } else {
      assert order[..i] == order;
    }
  }
}
