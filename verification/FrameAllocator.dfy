/** The two physical frame allocators: the bootloader's, which indexes a list of all usable frames, and
    the kernel's bump allocator, which takes over where the bootloader stopped. */
module FrameAllocator {
  import opened Wrappers

  const FRAME := 4096

  /** An entry of the BIOS memory map. */
  datatype Region = Region(base: nat, length: nat, memType: nat)
  {
    predicate Usable() { memType == 1 }

    /** The last address of the region. */
    function EndAddr(): int { base + length - 1 }
  }

  /** The regions are disjoint and sorted by base address. */
  ghost predicate MapOk(map_: seq<Region>)
  {
    && (forall i :: 0 <= i < |map_| ==> map_[i].EndAddr() >= 0)
    && (forall i, j :: 0 <= i < j < |map_| ==> map_[i].base <= map_[j].base && map_[i].EndAddr() < map_[j].base)
  }

  function FrameOf(a: nat): nat { a / FRAME * FRAME }

  /** Memory in use, from the first to the last of its frames. */
  datatype UsedRange = UsedRange(first: nat, last: nat)

  function UsedRangeOf(start: nat, size: nat): UsedRange
    requires start + size > 0
  {
    UsedRange(FrameOf(start), FrameOf(start + size - 1))
  }

  predicate Avoids(used: UsedRange, f: nat) { f < used.first || used.last + FRAME <= f }

  /** A frame avoids the range of a region in use exactly when it shares no byte with it; an empty region
      that does not start a frame still costs the frame around it. */
  lemma AvoidsExact(start: nat, size: nat, f: nat)
    requires start + size > 0 && f % FRAME == 0
    ensures size > 0 ==> (Avoids(UsedRangeOf(start, size), f) <==> f + FRAME <= start || start + size <= f)
    ensures size == 0 ==> (Avoids(UsedRangeOf(start, size), f) <==> !(f < start < f + FRAME))
  {
    FrameBounds(start);
    FrameBounds(start + size - 1);
    SameFrame(f, FrameOf(start));
    SameFrame(f, FrameOf(start + size - 1));
    SameFrame(FrameOf(start), f);
  }

  lemma FrameBounds(a: nat)
    ensures FrameOf(a) <= a < FrameOf(a) + FRAME && FrameOf(a) % FRAME == 0
  {
  }

  lemma SameFrame(f: nat, g: nat)
    requires f % FRAME == 0 && g % FRAME == 0
    ensures f < g + FRAME ==> f <= g
  {
  }

  /** The kernel's fit test: the frame, and one byte more, lies in a usable region. */
  predicate FitsIn(r: Region, f: nat) { r.Usable() && r.base <= f && f + FRAME <= r.EndAddr() }

  /** A frame the kernel may issue. */
  ghost predicate Good(map_: seq<Region>, used: UsedRange, f: nat)
  {
    f % FRAME == 0 && Avoids(used, f) && exists j :: 0 <= j < |map_| && FitsIn(map_[j], f)
  }

  ghost predicate NoneGood(map_: seq<Region>, used: UsedRange, from: nat, to: nat)
  {
    forall f :: from <= f < to ==> !Good(map_, used, f)
  }

  /** `r` is the lowest good frame from `cursor` on. */
  ghost predicate IsLowest(map_: seq<Region>, used: UsedRange, cursor: nat, r: Option<nat>)
  {
    match r
    case None => forall f :: f >= cursor ==> !Good(map_, used, f)
    case Some(f) => f >= cursor && Good(map_, used, f) && NoneGood(map_, used, cursor, f)
  }

  lemma NoneJoin(map_: seq<Region>, used: UsedRange, a: nat, b: nat, c: nat)
    requires NoneGood(map_, used, a, b) && NoneGood(map_, used, b, c)
    ensures NoneGood(map_, used, a, c)
  {
    hide Good;
  }

  lemma Aligned(a: nat)
    ensures (a + (FRAME - a % FRAME)) % FRAME == 0
  {
  }

  /** Addresses `lo` up to, not including, `hi` share nothing with the `size` bytes from `start` on. */
  predicate Apart(lo: nat, hi: nat, start: nat, size: nat) { hi <= start || start + size <= lo }

  /** The frames the kernel may issue, in bytes: whole pages apart from the region in use, that a usable
      region holds with one byte more. */
  lemma GoodExact(map_: seq<Region>, start: nat, size: nat, f: nat)
    requires size > 0
    ensures Good(map_, UsedRangeOf(start, size), f) <==>
      && f % 4096 == 0 && Apart(f, f + 4096, start, size)
      && exists j :: 0 <= j < |map_| && map_[j].memType == 1 && map_[j].base <= f && f + 4096 < map_[j].base + map_[j].length
  {
    hide UsedRangeOf, Avoids;
    if f % FRAME == 0 { AvoidsExact(start, size, f); }
    forall j | 0 <= j < |map_|
      ensures FitsIn(map_[j], f) <==> map_[j].memType == 1 && map_[j].base <= f && f + 4096 < map_[j].base + map_[j].length
    {
    }
  }

  // ---------------------------------------------------------------- the kernel's allocator

  /** The regions before `index` hold no frame at or above `next`. */
  ghost predicate Passed(map_: seq<Region>, index: nat, next: nat)
  {
    index <= |map_| && forall j :: 0 <= j < index ==> !map_[j].Usable() || map_[j].EndAddr() < next + FRAME
  }

  lemma PassedAbove(map_: seq<Region>, index: nat, next: nat, higher: nat)
    requires Passed(map_, index, next) && next <= higher
    ensures Passed(map_, index, higher)
  {
  }

  lemma PassedNext(map_: seq<Region>, index: nat, next: nat)
    requires Passed(map_, index, next) && index < |map_|
    requires !map_[index].Usable() || map_[index].EndAddr() < next + FRAME
    ensures Passed(map_, index + 1, next)
  {
  }

  class BumpAllocator {
    const map_: seq<Region>
    const used: UsedRange
    var index: nat
    var next: nat

    ghost predicate Valid()
      reads this
    {
      && MapOk(map_) && used.first % FRAME == 0 && used.last % FRAME == 0
      && index <= |map_| && Passed(map_, index, next)
    }

    constructor StartsAt(start: nat, map_: seq<Region>, usedStart: nat, usedSize: nat)
      requires MapOk(map_) && usedStart + usedSize > 0
      ensures Valid() && this.map_ == map_ && used == UsedRangeOf(usedStart, usedSize) && next == start && index == 0
    {
      this.map_ := map_;
      used := UsedRangeOf(usedStart, usedSize);
      index, next := 0, start;
    }

    /** Issues the lowest good frame at or above the cursor and moves the cursor past it. */
    method NextFrame() returns (r: Option<nat>)
      requires Valid()
      modifies this
      ensures Valid() && IsLowest(map_, used, old(next), r)
      ensures r.Some? ==> next == r.value + FRAME
      ensures r.None? ==> index == |map_|
    {
      hide Good, Passed, MapOk, NoneGood;
      ghost var cursor := next;
      NoneYet(map_, used, cursor);
      while true
        invariant Valid() && next >= cursor && NoneGood(map_, used, cursor, next)
        decreases |map_| - index,
                  index < |map_| && next < map_[index].base,
                  next < used.last + FRAME,
                  next % FRAME != 0
      {
        if index == |map_| {
          NothingLeft(map_, used, index, cursor, next);
          return None;
        }
        var region := map_[index];
        if region.base > next {
          SkipGap(map_, used, index, next);
          NoneJoin(map_, used, cursor, next, region.base);
          PassedAbove(map_, index, next, region.base);
          next := region.base;
        }
        if !region.Usable() {
          PassedNext(map_, index, next);
          index := index + 1;
          continue;
        }
        if used.first <= next < used.last + FRAME {
          SkipUsed(map_, used, next);
          NoneJoin(map_, used, cursor, next, used.last + FRAME);
          PassedAbove(map_, index, next, used.last + FRAME);
          next := used.last + FRAME;
          continue;
        }
        if region.EndAddr() < next + FRAME {
          PassedNext(map_, index, next);
          index := index + 1;
          continue;
        }
        var alignOffset := next % FRAME;
        if alignOffset != 0 {
          var aligned := next + (FRAME - alignOffset);
          Aligned(next);
          SkipUnaligned(map_, used, next);
          NoneJoin(map_, used, cursor, next, aligned);
          PassedAbove(map_, index, next, aligned);
          next := aligned;
          continue;
        }
        // the source tests the fit once more here; the test above already decided it
        assert next + FRAME <= region.EndAddr();
        break;
      }
      FoundGood(map_, used, index, next);
      PassedAbove(map_, index, next, next + FRAME);
      r := Some(next);
      next := next + FRAME;
    }

    /** Repeated calls issue good frames in strictly ascending order, so none twice. */
    method TakeFrames(n: nat) returns (frames: seq<nat>)
      requires Valid()
      modifies this
      ensures Valid() && |frames| <= n
      ensures forall i :: 0 <= i < |frames| ==> frames[i] >= old(next) && Good(map_, used, frames[i])
      ensures forall i, j :: 0 <= i < j < |frames| ==> frames[i] < frames[j]
      ensures |frames| < n ==> forall f: nat :: f >= old(next) && Good(map_, used, f) ==> f in frames
    {
      hide Good;
      ghost var start := next;
      frames := [];
      while |frames| < n
        invariant Valid() && |frames| <= n && next >= start
        invariant forall i :: 0 <= i < |frames| ==> start <= frames[i] < next && Good(map_, used, frames[i])
        invariant forall i, j :: 0 <= i < j < |frames| ==> frames[i] < frames[j]
        invariant forall f: nat :: start <= f < next && Good(map_, used, f) ==> f in frames
      {
        ghost var cursor := next;
        var r := NextFrame();
        if r.None? {
          return;
        }
        assert forall f: nat :: cursor <= f < next && Good(map_, used, f) ==> f == r.value by {
          GoodApart(map_, used, r.value);
        }
        frames := frames + [r.value];
      }
    }
  }

  /** No good frame starts inside another frame. */
  lemma GoodApart(map_: seq<Region>, used: UsedRange, f: nat)
    requires Good(map_, used, f)
    ensures forall g :: f < g < f + FRAME ==> !Good(map_, used, g)
  {
  }

  lemma FoundGood(map_: seq<Region>, used: UsedRange, index: nat, f: nat)
    requires index < |map_| && FitsIn(map_[index], f) && f % FRAME == 0 && Avoids(used, f)
    ensures Good(map_, used, f)
  {
  }

  lemma SkipUsed(map_: seq<Region>, used: UsedRange, next: nat)
    requires used.first <= next < used.last + FRAME
    ensures NoneGood(map_, used, next, used.last + FRAME)
  {
  }

  lemma NoneYet(map_: seq<Region>, used: UsedRange, a: nat)
    ensures NoneGood(map_, used, a, a)
  {
  }

  lemma NothingLeft(map_: seq<Region>, used: UsedRange, index: nat, cursor: nat, next: nat)
    requires index == |map_| && NoneGood(map_, used, cursor, next)
    requires Passed(map_, index, next)
    ensures IsLowest(map_, used, cursor, None)
  {
  }

  lemma SkipGap(map_: seq<Region>, used: UsedRange, index: nat, next: nat)
    requires MapOk(map_) && index < |map_| && next < map_[index].base
    requires Passed(map_, index, next)
    ensures NoneGood(map_, used, next, map_[index].base)
  {
    forall f, j | next <= f < map_[index].base && 0 <= j < |map_| ensures !FitsIn(map_[j], f) {
      if index < j { assert map_[index].EndAddr() < map_[j].base; }
    }
  }

  lemma SkipUnaligned(map_: seq<Region>, used: UsedRange, next: nat)
    requires next % FRAME != 0
    ensures NoneGood(map_, used, next, next + (FRAME - next % FRAME))
  {
  }

  // ---------------------------------------------------------------- the bootloader's allocator

  /** The addresses from `a` in steps of a frame, below `end`. */
  function Steps(a: nat, end: int): (r: seq<nat>)
    ensures forall i :: 0 <= i < |r| ==> a <= r[i] < end && (r[i] - a) % FRAME == 0
    decreases end - a
  {
    if a >= end then [] else [a] + Steps(a + FRAME, end)
  }

  predicate BootKeeps(start: nat, used: UsedRange, a: nat)
  {
    a >= start && (FrameOf(a) > used.last || FrameOf(a) < used.first)
  }

  function Kept(start: nat, used: UsedRange, addrs: seq<nat>): seq<nat>
  {
    if addrs == [] then []
    else if BootKeeps(start, used, addrs[0]) then [addrs[0]] + Kept(start, used, addrs[1..])
    else Kept(start, used, addrs[1..])
  }

  /** `usable_frames`, as the addresses the frames are made from. */
  function UsableAddrs(map_: seq<Region>, start: nat, used: UsedRange): seq<nat>
  {
    if map_ == [] then []
    else
      var here := if map_[0].Usable() then Kept(start, used, Steps(map_[0].base, map_[0].EndAddr())) else [];
      here + UsableAddrs(map_[1..], start, used)
  }

  ghost predicate Ascending(s: seq<nat>) { forall i, j :: 0 <= i < j < |s| ==> s[i] < s[j] }

  /** A whole number of frames into a usable region. */
  predicate OnGrid(r: Region, a: nat) { r.Usable() && r.base <= a < r.EndAddr() && (a - r.base) % FRAME == 0 }

  ghost predicate AllOnGrid(r: Region, s: seq<nat>) { forall i :: 0 <= i < |s| ==> OnGrid(r, s[i]) }

  ghost predicate SomeGrid(map_: seq<Region>, a: nat) { exists j :: 0 <= j < |map_| && OnGrid(map_[j], a) }

  lemma {:induction false} StepsAscend(a: nat, end: int)
    ensures Ascending(Steps(a, end))
    decreases end - a
  {
    if a < end { StepsAscend(a + FRAME, end); }
  }

  lemma AscendingConcat(a: seq<nat>, b: seq<nat>, bound: int)
    requires Ascending(a) && Ascending(b)
    requires forall i :: 0 <= i < |a| ==> a[i] < bound
    requires forall i :: 0 <= i < |b| ==> bound <= b[i]
    ensures Ascending(a + b)
  {
  }

  lemma {:induction false} KeptFacts(start: nat, used: UsedRange, addrs: seq<nat>)
    requires Ascending(addrs)
    ensures Ascending(Kept(start, used, addrs))
    ensures forall a :: a in Kept(start, used, addrs) ==> a in addrs
  {
    hide BootKeeps;
    if addrs != [] {
      var rest := addrs[1..];
      KeptFacts(start, used, rest);
      var later := Kept(start, used, rest);
      assert forall i :: 0 <= i < |later| ==> addrs[0] < later[i] by {
        assert forall i :: 0 <= i < |later| ==> later[i] in rest;
      }
      AscendingConcat([addrs[0]], later, addrs[0] + 1);
    }
  }

  lemma RegionAddrs(r: Region, start: nat, used: UsedRange)
    requires r.Usable()
    ensures var here := Kept(start, used, Steps(r.base, r.EndAddr())); Ascending(here) && AllOnGrid(r, here)
  {
    hide Kept, BootKeeps;
    var steps := Steps(r.base, r.EndAddr());
    StepsAscend(r.base, r.EndAddr());
    KeptFacts(start, used, steps);
    var here := Kept(start, used, steps);
    forall i | 0 <= i < |here| ensures OnGrid(r, here[i]) {
      assert here[i] in steps;
    }
  }

  /** The bootloader's addresses ascend, and each lies on the grid of a usable region. */
  lemma {:induction false} UsableFacts(map_: seq<Region>, start: nat, used: UsedRange)
    requires MapOk(map_)
    ensures var u := UsableAddrs(map_, start, used);
      Ascending(u) && forall i :: 0 <= i < |u| ==> SomeGrid(map_, u[i])
  {
    hide Kept, Steps, OnGrid;
    if map_ != [] {
      var rest := map_[1..];
      UsableFacts(rest, start, used);
      var here := if map_[0].Usable() then Kept(start, used, Steps(map_[0].base, map_[0].EndAddr())) else [];
      var later := UsableAddrs(rest, start, used);
      RegionFirst(map_, start, used, here);
      forall i | 0 <= i < |later| ensures later[i] >= map_[0].EndAddr() && SomeGrid(map_, later[i]) {
        GridLater(map_, later[i]);
      }
      AscendingConcat(here, later, map_[0].EndAddr());
    }
  }

  lemma RegionFirst(map_: seq<Region>, start: nat, used: UsedRange, here: seq<nat>)
    requires map_ != []
    requires here == if map_[0].Usable() then Kept(start, used, Steps(map_[0].base, map_[0].EndAddr())) else []
    ensures Ascending(here)
    ensures forall i :: 0 <= i < |here| ==> here[i] < map_[0].EndAddr() && SomeGrid(map_, here[i])
  {
    hide Kept, Steps;
    if map_[0].Usable() { RegionAddrs(map_[0], start, used); }
    forall i | 0 <= i < |here| ensures here[i] < map_[0].EndAddr() && SomeGrid(map_, here[i]) {
      assert OnGrid(map_[0], here[i]);
    }
  }

  lemma GridLater(map_: seq<Region>, a: nat)
    requires MapOk(map_) && map_ != [] && SomeGrid(map_[1..], a)
    ensures a >= map_[0].EndAddr() && SomeGrid(map_, a)
  {
    var j :| 0 <= j < |map_[1..]| && OnGrid(map_[1..][j], a);
    assert OnGrid(map_[j + 1], a);
  }

  lemma {:induction false} StepsComplete(a: nat, end: int, x: nat)
    requires a <= x < end && (x - a) % FRAME == 0
    ensures x in Steps(a, end)
    decreases end - a
  {
    if a < x {
      SameGrid(a, a, x);
      assert (x - (a + FRAME)) % FRAME == 0;
      StepsComplete(a + FRAME, end, x);
    }
  }

  lemma {:induction false} KeptExact(start: nat, used: UsedRange, addrs: seq<nat>, x: nat)
    ensures x in Kept(start, used, addrs) <==> x in addrs && BootKeeps(start, used, x)
  {
    hide BootKeeps;
    if addrs != [] {
      KeptExact(start, used, addrs[1..], x);
      assert x in addrs <==> x == addrs[0] || x in addrs[1..];
    }
  }

  lemma RegionExact(r: Region, start: nat, used: UsedRange, x: nat)
    requires r.Usable()
    ensures x in Kept(start, used, Steps(r.base, r.EndAddr())) <==> OnGrid(r, x) && BootKeeps(start, used, x)
  {
    hide Kept, BootKeeps;
    KeptExact(start, used, Steps(r.base, r.EndAddr()), x);
    if OnGrid(r, x) { StepsComplete(r.base, r.EndAddr(), x); }
  }

  /** The list holds exactly the kept addresses on the grid of some usable region. */
  lemma {:induction false} UsableExact(map_: seq<Region>, start: nat, used: UsedRange, x: nat)
    ensures x in UsableAddrs(map_, start, used) <==> SomeGrid(map_, x) && BootKeeps(start, used, x)
  {
    hide Kept, Steps, BootKeeps, OnGrid;
    if map_ != [] {
      UsableExact(map_[1..], start, used, x);
      if map_[0].Usable() { RegionExact(map_[0], start, used, x); } else { GridUsable(map_[0], x); }
      GridSplit(map_, x);
    }
  }

  lemma GridUsable(r: Region, x: nat)
    ensures OnGrid(r, x) ==> r.Usable()
  {
  }

  lemma GridSplit(map_: seq<Region>, x: nat)
    requires map_ != []
    ensures SomeGrid(map_, x) <==> OnGrid(map_[0], x) || SomeGrid(map_[1..], x)
  {
    hide OnGrid;
    if SomeGrid(map_, x) {
      var j :| 0 <= j < |map_| && OnGrid(map_[j], x);
      if j > 0 { assert map_[1..][j - 1] == map_[j]; }
    }
    if SomeGrid(map_[1..], x) {
      var j :| 0 <= j < |map_[1..]| && OnGrid(map_[1..][j], x);
      assert map_[j + 1] == map_[1..][j];
    }
  }

  /** The bootloader's list, in bytes: steps of a page through the usable regions, from `start` on, whose
      page is apart from the region in use. */
  lemma ListedExact(map_: seq<Region>, start: nat, usedStart: nat, usedSize: nat, x: nat)
    requires usedSize > 0
    ensures x in UsableAddrs(map_, start, UsedRangeOf(usedStart, usedSize)) <==>
      && x >= start && Apart(x / 4096 * 4096, x / 4096 * 4096 + 4096, usedStart, usedSize)
      && exists j :: 0 <= j < |map_| && map_[j].memType == 1 && map_[j].base <= x < map_[j].base + map_[j].length - 1
                     && (x - map_[j].base) % 4096 == 0
  {
    hide UsableAddrs, UsedRangeOf;
    var used := UsedRangeOf(usedStart, usedSize);
    UsableExact(map_, start, used, x);
    FrameBounds(x);
    KeptAvoids(usedStart, usedSize, FrameOf(x));
    forall j | 0 <= j < |map_|
      ensures OnGrid(map_[j], x) <==>
        map_[j].memType == 1 && map_[j].base <= x < map_[j].base + map_[j].length - 1 && (x - map_[j].base) % 4096 == 0
    {
    }
  }

  lemma KeptAvoids(start: nat, size: nat, f: nat)
    requires size > 0 && f % FRAME == 0
    ensures var used := UsedRangeOf(start, size); f > used.last || f < used.first <==> Apart(f, f + 4096, start, size)
  {
    AvoidsExact(start, size, f);
    FrameBounds(start + size - 1);
    SameFrame(UsedRangeOf(start, size).last, f);
    SameFrame(f, UsedRangeOf(start, size).last);
  }

  class BootInfoFrameAllocator {
    const map_: seq<Region>
    const used: UsedRange
    const start: nat
    var next: nat

    constructor StartsAt(start: nat, map_: seq<Region>, usedStart: nat, usedSize: nat)
      requires usedStart + usedSize > 0
      ensures this.map_ == map_ && this.start == start && used == UsedRangeOf(usedStart, usedSize) && next == 0
    {
      this.map_, this.start := map_, start;
      used := UsedRangeOf(usedStart, usedSize);
      next := 0;
    }

    method AllocateFrame() returns (r: Option<nat>)
      modifies this
      ensures next == old(next) + 1
      ensures var u := UsableAddrs(map_, start, used);
        r == if old(next) < |u| then Some(FrameOf(u[old(next)])) else None
    {
      var u := UsableAddrs(map_, start, used);
      r := if next < |u| then Some(FrameOf(u[next])) else None;
      next := next + 1;
    }
  }

  /** The address the bootloader hands to the kernel after issuing `n` frames. */
  function NextFreePhysAddr(map_: seq<Region>, start: nat, used: UsedRange, n: nat): nat
    requires n < |UsableAddrs(map_, start, used)|
  {
    FrameOf(UsableAddrs(map_, start, used)[n])
  }

  /** Hand-off: a frame the kernel may issue from the hand-over address on is none of those the
      bootloader has issued, whatever the alignment of the memory map. */
  lemma HandOff(map_: seq<Region>, start: nat, used: UsedRange, n: nat, kernelUsed: UsedRange, f: nat, i: nat)
    requires MapOk(map_) && i < n < |UsableAddrs(map_, start, used)|
    requires Good(map_, kernelUsed, f) && f >= NextFreePhysAddr(map_, start, used, n)
    ensures f != FrameOf(UsableAddrs(map_, start, used)[i])
  {
    hide UsableAddrs;
    var u := UsableAddrs(map_, start, used);
    UsableFacts(map_, start, used);
    var a, b := u[i], u[n];
    assert a < b && SomeGrid(map_, a) && SomeGrid(map_, b);
    var j :| 0 <= j < |map_| && OnGrid(map_[j], a);
    var k :| 0 <= k < |map_| && OnGrid(map_[k], b);
    if f == FrameOf(a) {
      SharedFrame(map_, j, k, a, b, f);
    }
  }

  /** Two addresses of the list in one frame belong to two regions, so no region holds that frame. */
  lemma SharedFrame(map_: seq<Region>, j: nat, k: nat, a: nat, b: nat, f: nat)
    requires MapOk(map_) && j < |map_| && k < |map_| && OnGrid(map_[j], a) && OnGrid(map_[k], b) && a < b
    requires f == FrameOf(a) && f >= FrameOf(b)
    ensures j < k && map_[j].EndAddr() < map_[k].base && f <= a < map_[k].base <= b < f + FRAME
    ensures forall r :: 0 <= r < |map_| ==> !FitsIn(map_[r], f)
  {
    assert f <= a < b < f + FRAME;
    assert j != k by {
      if j == k { SameGrid(map_[j].base, a, b); }
    }
    assert f <= a < map_[k].base <= b < f + FRAME by {
      assert !(k < j);
      assert map_[j].EndAddr() < map_[k].base;
    }
    forall r | 0 <= r < |map_| ensures !FitsIn(map_[r], f) {
      if r < k { assert map_[r].EndAddr() < map_[k].base; }
      if k < r { assert map_[k].base <= map_[r].base; }
    }
  }

  lemma SameGrid(base: nat, a: nat, b: nat)
    requires base <= a < b && (a - base) % FRAME == 0 && (b - base) % FRAME == 0
    ensures b - a >= FRAME
  {
    var m, n := (a - base) / FRAME, (b - base) / FRAME;
    assert a - base == FRAME * m && b - base == FRAME * n;
  }

  // ---------------------------------------------------------------- when the bootloader repeats a frame

  /** The last address the bootloader steps to in a region. */
  function LastGrid(r: Region): nat
    requires r.base < r.EndAddr()
  {
    r.base + (r.EndAddr() - 1 - r.base) / FRAME * FRAME
  }

  /** The last step of one region and the first of another are both kept, in one page. */
  predicate Meet(r: Region, s: Region, start: nat, used: UsedRange)
  {
    && r.Usable() && r.base < r.EndAddr() && s.Usable() && s.base < s.EndAddr()
    && BootKeeps(start, used, LastGrid(r)) && BootKeeps(start, used, s.base)
    && FrameOf(LastGrid(r)) == FrameOf(s.base)
  }

  ghost predicate SomeMeet(map_: seq<Region>, start: nat, used: UsedRange)
  {
    exists j, k :: 0 <= j < k < |map_| && Meet(map_[j], map_[k], start, used)
  }

  lemma LastGridFacts(r: Region)
    requires r.Usable() && r.base < r.EndAddr()
    ensures OnGrid(r, LastGrid(r)) && LastGrid(r) + FRAME >= r.EndAddr() && OnGrid(r, r.base)
  {
    var q := (r.EndAddr() - 1 - r.base) / FRAME;
    assert LastGrid(r) - r.base == FRAME * q;
  }

  lemma LastIs(r: Region, a: nat)
    requires OnGrid(r, a) && a + FRAME >= r.EndAddr()
    ensures a == LastGrid(r)
  {
    LastGridFacts(r);
    if a < LastGrid(r) { SameGrid(r.base, a, LastGrid(r)); }
    if LastGrid(r) < a { SameGrid(r.base, LastGrid(r), a); }
  }

  lemma FirstIs(r: Region, b: nat)
    requires OnGrid(r, b) && b - r.base < FRAME
    ensures b == r.base
  {
  }

  /** Two listed addresses in one frame are the last step of one region and the base of a later one. */
  lemma RepeatMeets(map_: seq<Region>, start: nat, used: UsedRange, a: nat, b: nat)
    requires MapOk(map_) && a < b && FrameOf(a) == FrameOf(b)
    requires SomeGrid(map_, a) && SomeGrid(map_, b) && BootKeeps(start, used, a) && BootKeeps(start, used, b)
    ensures SomeMeet(map_, start, used)
  {
    hide BootKeeps;
    var j :| 0 <= j < |map_| && OnGrid(map_[j], a);
    var k :| 0 <= k < |map_| && OnGrid(map_[k], b);
    SharedFrame(map_, j, k, a, b, FrameOf(a));
    LastIs(map_[j], a);
    FirstIs(map_[k], b);
    assert Meet(map_[j], map_[k], start, used);
  }

  ghost predicate Repeats(u: seq<nat>)
  {
    exists i, n :: 0 <= i < n < |u| && FrameOf(u[i]) == FrameOf(u[n])
  }

  /** The bootloader's list holds some frame twice exactly when two usable regions meet inside a page
      that neither the start address nor the kernel excludes. */
  lemma BootRepeatsExact(map_: seq<Region>, start: nat, used: UsedRange)
    requires MapOk(map_)
    ensures Repeats(UsableAddrs(map_, start, used)) <==> SomeMeet(map_, start, used)
  {
    hide UsableAddrs, BootKeeps, FrameOf;
    var u := UsableAddrs(map_, start, used);
    UsableFacts(map_, start, used);
    if Repeats(u) {
      var i, n :| 0 <= i < n < |u| && FrameOf(u[i]) == FrameOf(u[n]);
      UsableExact(map_, start, used, u[i]);
      UsableExact(map_, start, used, u[n]);
      RepeatMeets(map_, start, used, u[i], u[n]);
    }
    if SomeMeet(map_, start, used) {
      var j, k :| 0 <= j < k < |map_| && Meet(map_[j], map_[k], start, used);
      MeetRepeats(map_, start, used, j, k);
    }
  }

  lemma MeetRepeats(map_: seq<Region>, start: nat, used: UsedRange, j: nat, k: nat)
    requires MapOk(map_) && j < k < |map_| && Meet(map_[j], map_[k], start, used)
    ensures Repeats(UsableAddrs(map_, start, used))
  {
    hide UsableAddrs, BootKeeps, FrameOf;
    var u := UsableAddrs(map_, start, used);
    var a, b := LastGrid(map_[j]), map_[k].base;
    UsableFacts(map_, start, used);
    LastGridFacts(map_[j]);
    LastGridFacts(map_[k]);
    assert SomeGrid(map_, a) && SomeGrid(map_, b);
    UsableExact(map_, start, used, a);
    UsableExact(map_, start, used, b);
    var i :| 0 <= i < |u| && u[i] == a;
    var n :| 0 <= n < |u| && u[n] == b;
    assert map_[j].EndAddr() < map_[k].base;
    assert i < n;
  }

  /** So with page-aligned usable regions no frame is issued twice. */
  lemma BootDistinct(map_: seq<Region>, start: nat, used: UsedRange)
    requires MapOk(map_) && forall j :: 0 <= j < |map_| && map_[j].Usable() ==> map_[j].base % FRAME == 0
    ensures !Repeats(UsableAddrs(map_, start, used))
  {
    hide UsableAddrs, BootKeeps, Repeats;
    BootRepeatsExact(map_, start, used);
    forall j, k | 0 <= j < k < |map_| ensures !Meet(map_[j], map_[k], start, used) {
      if map_[j].Usable() && map_[j].base < map_[j].EndAddr() {
        LastGridFacts(map_[j]);
        assert LastGrid(map_[j]) < map_[k].base;
      }
    }
  }

  /** Two regions that meet inside a page, which the bootloader issues twice. */
  lemma BootRepeats()
    ensures var map_ := [Region(0, 0x1800, 1), Region(0x1800, 0x2000, 1)];
      MapOk(map_) && Repeats(UsableAddrs(map_, 0, UsedRange(0x10_0000, 0x10_0000)))
  {
    var map_ := [Region(0, 0x1800, 1), Region(0x1800, 0x2000, 1)];
    var used := UsedRange(0x10_0000, 0x10_0000);
    assert LastGrid(map_[0]) == 0x1000;
    assert Meet(map_[0], map_[1], 0, used);
    BootRepeatsExact(map_, 0, used);
  }
}
