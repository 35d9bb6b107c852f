/** When the loop of `free_clusters` ends: it frees the entry it stands on before it follows it, so a
    walk that comes back to a freed entry goes on at entry 0. */
module FatFree {
  import opened Wrappers
  import opened Bytes
  import opened FatChains
  import opened FatVolume
  import opened FatEntry
  import opened Fat32Driver
  import opened FatFiles

  /** The table and the cursor after `k` turns of the loop; a cursor outside the table stays. */
  ghost function Turns(fat: Fat, curr: nat, k: nat): (Fat, nat)
    decreases k
  {
    if k == 0 || IsEoc(curr) || curr >= |fat| then (fat, curr) else Turns(fat[curr := 0], fat[curr], k - 1)
  }

  /** After `k` turns, or fewer, the cursor stands on an end-of-chain mark. */
  ghost predicate Stops(fat: Fat, curr: nat, k: nat) { IsEoc(Turns(fat, curr, k).1) }

  /** After `k` turns, or fewer, the cursor has left the table. */
  ghost predicate Strays(fat: Fat, curr: nat, k: nat)
  {
    !IsEoc(Turns(fat, curr, k).1) && Turns(fat, curr, k).1 >= |fat|
  }

  ghost predicate StopsAtLast(fat: Fat, curr: nat) { exists k: nat :: Stops(fat, curr, k) }

  ghost predicate StraysAtLast(fat: Fat, curr: nat) { exists k: nat :: Strays(fat, curr, k) }

  /** The loop stops at an end-of-chain mark, repeats itself for ever, or follows an entry that points
      outside the table. */
  datatype Ending = Ended | Forever | OffTable

  function NonZero(fat: Fat): nat
  {
    if fat == [] then 0 else (if fat[0] == 0 then 0 else 1) + NonZero(fat[1..])
  }

  lemma {:induction false} ZeroedLess(fat: Fat, c: nat)
    requires c < |fat|
    ensures NonZero(fat[c := 0]) == NonZero(fat) - if fat[c] == 0 then 0 else 1
  {
    if c > 0 {
      assert fat[c := 0][1..] == fat[1..][c - 1 := 0];
      ZeroedLess(fat[1..], c - 1);
    } else {
      assert fat[c := 0][1..] == fat[1..];
    }
  }

  /** Where the loop leads, and the table there; what goes on for ever stays at a freed entry 0. */
  ghost function FreeLoop(fat: Fat, curr: nat): (Ending, Fat)
    decreases NonZero(fat), curr != 0
  {
    if IsEoc(curr) then (Ended, fat)
    else if curr >= |fat| then (OffTable, fat)
    else if fat[curr] == 0 && curr == 0 then (Forever, fat)
    else
      ZeroedLess(fat, curr);
      FreeLoop(fat[curr := 0], fat[curr])
  }

  /** `FreeLoop` says exactly whether some number of turns reaches an end-of-chain mark, and whether
      some number of turns leaves the table. */
  lemma {:induction false} LoopExact(fat: Fat, curr: nat)
    ensures FreeLoop(fat, curr).0 == Ended <==> StopsAtLast(fat, curr)
    ensures FreeLoop(fat, curr).0 == OffTable <==> StraysAtLast(fat, curr)
    decreases NonZero(fat), curr != 0
  {
    if IsEoc(curr) {
      assert Stops(fat, curr, 0);
    } else if curr >= |fat| {
      assert Strays(fat, curr, 0);
    } else if fat[curr] == 0 && curr == 0 {
      forall k: nat ensures !Stops(fat, 0, k) && !Strays(fat, 0, k) { StaysAtZero(fat, k); }
    } else {
      ZeroedLess(fat, curr);
      LoopExact(fat[curr := 0], fat[curr]);
      LoopTurn(fat, curr);
    }
  }

  /** One turn more or less changes nothing about where the loop gets. */
  lemma LoopTurn(fat: Fat, curr: nat)
    requires curr < |fat| && !IsEoc(curr)
    ensures StopsAtLast(fat, curr) <==> StopsAtLast(fat[curr := 0], fat[curr])
    ensures StraysAtLast(fat, curr) <==> StraysAtLast(fat[curr := 0], fat[curr])
  {
    var fat', next := fat[curr := 0], fat[curr];
    if k: nat :| Stops(fat, curr, k) {
      assert k > 0;
      assert Stops(fat', next, k - 1);
    }
    if k: nat :| Stops(fat', next, k) { assert Stops(fat, curr, k + 1); }
    if k: nat :| Strays(fat, curr, k) {
      assert k > 0;
      assert Strays(fat', next, k - 1);
    }
    if k: nat :| Strays(fat', next, k) { assert Strays(fat, curr, k + 1); }
  }

  lemma {:induction false} StaysAtZero(fat: Fat, k: nat)
    requires |fat| > 0 && fat[0] == 0
    ensures !Stops(fat, 0, k) && !Strays(fat, 0, k)
  {
    if k > 0 {
      assert fat[0 := 0] == fat;
      StaysAtZero(fat, k - 1);
    }
  }

  /** On a walk the loop ends, with exactly the walk freed. */
  lemma {:induction false} WalkEnds(fat: Fat, w: seq<nat>)
    requires IsWalk(fat, w)
    ensures FreeLoop(fat, w[0]) == (Ended, Unlink(fat, w))
    decreases |w|
  {
    hide Unlink;
    ChainDistinct(fat, w);
    var rest, fat' := w[1..], fat[w[0] := 0];
    UnlinkStep(fat, w);
    if rest == [] {
      UnlinkNothing(fat', rest);
    } else {
      assert fat[w[0]] == rest[0];
      assert IsWalk(fat', rest);
      WalkEnds(fat', rest);
    }
  }

  lemma UnlinkStep(fat: Fat, w: seq<nat>)
    requires w != [] && forall i :: 0 <= i < |w| ==> w[i] < |fat|
    ensures Unlink(fat, w) == Unlink(fat[w[0] := 0], w[1..])
  {
  }

  ghost predicate WalkFrom(fat: Fat, c: nat) { exists w :: IsWalk(fat, w) && w[0] == c }

  /** Once entry 0 is free, the loop ends only along a walk. */
  lemma {:induction false} EndsAlongWalk(fat: Fat, curr: nat)
    requires |fat| > 0 && fat[0] == 0 && FreeLoop(fat, curr).0 == Ended && !IsEoc(curr)
    ensures WalkFrom(fat, curr)
    decreases NonZero(fat), curr != 0
  {
    var next, fat' := fat[curr], fat[curr := 0];
    ZeroedLess(fat, curr);
    if IsEoc(next) {
      assert IsWalk(fat, [curr]);
    } else {
      EndsAlongWalk(fat', next);
      var w :| IsWalk(fat', w) && w[0] == next;
      LongerWalk(fat, curr, w);
    }
  }

  lemma {:induction false} NotFreed(fat: Fat, w: seq<nat>, i: nat)
    requires IsWalk(fat, w) && fat[0] == 0 && i < |w|
    ensures fat[w[i]] != 0
    decreases |w| - i
  {
    if i + 1 < |w| { NotFreed(fat, w, i + 1); }
  }

  lemma LongerWalk(fat: Fat, c: nat, w: seq<nat>)
    requires c < |fat| && (c == 0 || fat[0] == 0) && IsWalk(fat[c := 0], w) && fat[c] == w[0]
    ensures WalkFrom(fat, c)
  {
    var all := [c] + w;
    forall i | 0 <= i < |w| ensures w[i] != c { NotFreed(fat[c := 0], w, i); }
    forall i | 0 <= i < |all| - 1 ensures fat[all[i]] == all[i + 1] {
      assert i > 0 ==> fat[c := 0][w[i - 1]] == w[i];
    }
    assert IsWalk(fat, all);
  }

  /** From entry 0, where the deletion of an empty file starts, the loop ends exactly when entry 0 is
      the head of a walk. */
  lemma ZeroExact(fat: Fat)
    ensures FreeLoop(fat, 0).0 == Ended <==> WalkFrom(fat, 0)
  {
    if WalkFrom(fat, 0) {
      var w :| IsWalk(fat, w) && w[0] == 0;
      WalkEnds(fat, w);
    }
    if FreeLoop(fat, 0).0 == Ended {
      var next, fat' := fat[0], fat[0 := 0];
      if IsEoc(next) {
        assert IsWalk(fat, [0]);
      } else {
        EndsAlongWalk(fat', next);
        var w :| IsWalk(fat', w) && w[0] == next;
        LongerWalk(fat, 0, w);
      }
    }
  }

  /** Two clusters that point at each other. */
  const CYCLE: Fat := [0x0FFF_FFF8, EOC, 3, 2]

  /** From any other entry a walk is enough but not needed: two clusters that point at each other are
      freed, and the loop then leaves through entry 0. */
  lemma CycleEnds()
    ensures FreeLoop(CYCLE, 2).0 == Ended && !WalkFrom(CYCLE, 2)
  {
    var a, b := CYCLE[2 := 0], CYCLE[2 := 0][3 := 0];
    assert FreeLoop(CYCLE, 2) == FreeLoop(a, 3) == FreeLoop(b, 2) == FreeLoop(b[2 := 0], 0);
    assert FreeLoop(b[2 := 0], 0) == FreeLoop(b[2 := 0][0 := 0], 0x0FFF_FFF8);
    forall w | |w| > 0 && w[0] == 2 ensures !IsWalk(CYCLE, w) { CycleIsNoWalk(CYCLE, w); }
  }

  lemma CycleIsNoWalk(fat: Fat, w: seq<nat>)
    requires |fat| == 4 && fat[2] == 3 && fat[3] == 2 && |w| > 0 && w[0] == 2
    ensures !IsWalk(fat, w)
  {
    if IsWalk(fat, w) {
      WalkOn(fat, w, 0);
      WalkOn(fat, w, 1);
      ChainDistinct(fat, w);
    }
  }

  lemma WalkOn(fat: Fat, w: seq<nat>, i: nat)
    requires IsWalk(fat, w) && i < |w| && !IsEoc(fat[w[i]])
    ensures i + 1 < |w| && w[i + 1] == fat[w[i]]
  {
  }

  /** What the loop leaves on the volume when it starts at the head of a walk. */
  lemma WalkFreed(g: Geometry, d: seq<byte>, d': seq<byte>, w: seq<nat>)
    requires ValidDisk(g, d) && IsWalk(FatOf(g, d), w)
    requires SameButFat(g, d, d') && FatOf(g, d') == FreeLoop(FatOf(g, d), w[0]).1
    ensures d' == FreeDisk(g, d, w)
  {
    hide FatOf, SameButFat, FreeDisk, FreeLoop, Unlink, IsWalk;
    WalkEnds(FatOf(g, d), w);
    WalkInTable(FatOf(g, d), w);
    FreeDiskFat(g, d, w);
    FreeDiskSame(g, d, w);
    SameTableSameDisk(g, d, d', FreeDisk(g, d, w));
  }

  lemma WalkInTable(fat: Fat, w: seq<nat>)
    requires IsWalk(fat, w)
    ensures w != [] && forall i :: 0 <= i < |w| ==> w[i] < |fat|
  {
  }

  /** `free_clusters` from any start, up to where it would repeat itself for ever or leave the table. */
  method FreeFrom(fs: Fat32, start: nat) returns (r: Ending)
    requires fs.Valid()
    modifies fs
    ensures fs.Valid() && (r, fs.Table()) == FreeLoop(old(fs.Table()), start)
    ensures SameButFat(fs.g, old(fs.disk), fs.disk)
  {
    hide FatOf, PutEntry, SameButFat, NonZero;
    ghost var before, table := fs.disk, fs.Table();
    SameButFatReflexive(fs.g, before);
    var curr: nat := start;
    while !IsEoc(curr)
      invariant fs.Valid() && FreeLoop(fs.Table(), curr) == FreeLoop(table, start) && SameButFat(fs.g, before, fs.disk)
      decreases NonZero(fs.Table()), curr != 0
    {
      if curr >= fs.g.Entries() {
        return OffTable;
      }
      ghost var d := fs.disk;
      var next := fs.GetNextCluster(curr);
      if curr == 0 && next == 0 {
        return Forever;
      }
      ZeroedLess(fs.Table(), curr);
      PutEntryFat(fs.g, d, curr, 0);
      fs.LinkClusters(curr, 0);
      SameButFatTransitive(fs.g, before, d, fs.disk);
      curr := next;
    }
    r := Ended;
  }

  /** `delete_file` on any entry and any table: frees from the first cluster on, which for an empty file
      is entry 0, and marks the entry deleted if the loop ends. */
  method DeleteFile(fs: Fat32, dir: DirEntryWithLoc) returns (r: Ending)
    requires fs.Valid() && fs.g.IsCluster(dir.loc.cluster) && dir.loc.offset + 32 <= fs.g.ClusterBytes()
    modifies fs
    ensures fs.Valid() && (r, fs.Table()) == FreeLoop(old(fs.Table()), dir.entry.FirstCluster())
    ensures r != Ended ==> SameButFat(fs.g, old(fs.disk), fs.disk)
    ensures r == Ended ==> exists d1 :: MarkedDeleted(fs.g, old(fs.disk), d1, fs.disk, dir)
    ensures forall w :: IsWalk(old(fs.Table()), w) && w[0] == dir.entry.FirstCluster() ==>
      r == Ended && fs.disk == DeletedDisk(fs.g, old(fs.disk), dir, w)
  {
    hide FatOf, FreeLoop, SameButFat, PutData, Serialize, FreeDisk;
    ghost var d := fs.disk;
    r := FreeFrom(fs, dir.entry.FirstCluster());
    ghost var d1 := fs.disk;
    if r == Ended {
      var dir' := dir.(entry := dir.entry.(name := dir.entry.name[0 := DELETED]));
      PutDataFat(fs.g, d1, dir.loc.cluster, dir.loc.offset, Serialize(dir'.entry));
      fs.UpdateDir(dir');
      assert MarkedDeleted(fs.g, d, d1, fs.disk, dir);
    }
    forall w | IsWalk(FatOf(fs.g, d), w) && w[0] == dir.entry.FirstCluster()
      ensures r == Ended && fs.disk == DeletedDisk(fs.g, d, dir, w)
    {
      WalkEnds(FatOf(fs.g, d), w);
      WalkFreed(fs.g, d, d1, w);
    }
  }

  /** `d'` is `d` with another table, in `d1`, and the entry of `dir` marked deleted. */
  ghost predicate MarkedDeleted(g: Geometry, d: seq<byte>, d1: seq<byte>, d': seq<byte>, dir: DirEntryWithLoc)
    requires ValidDisk(g, d) && g.IsCluster(dir.loc.cluster) && dir.loc.offset + 32 <= g.ClusterBytes()
  {
    SameButFat(g, d, d1) && d' == PutData(g, d1, dir.loc.cluster, dir.loc.offset, Serialize(Deleted(dir).entry))
  }

  /** Deleting one empty file frees entry 0; deleting another one then never ends. */
  lemma SecondDeletionHangs(g: Geometry, d: seq<byte>, dir: DirEntryWithLoc, walk: seq<nat>)
    requires ValidDisk(g, d) && IsWalk(FatOf(g, d), walk) && walk[0] == dir.entry.FirstCluster() == 0
    requires g.IsCluster(dir.loc.cluster) && dir.loc.offset + 32 <= g.ClusterBytes()
    ensures var fat := FatOf(g, DeletedDisk(g, d, dir, walk)); FreeLoop(fat, 0) == (Forever, fat)
  {
    hide FatOf, ClusterData, DeletedDisk, Unlink;
    DeletedFacts(g, d, dir, walk);
    UnlinkEntries(FatOf(g, d), walk);
    assert FatOf(g, DeletedDisk(g, d, dir, walk))[0] == 0;
  }
}
