/** Files of a FAT32 volume side by side: what writing or deleting one does to the others. */
module FatFiles {
  import opened Wrappers
  import opened Bytes
  import opened FatChains
  import opened FatVolume
  import opened FatEntry
  import opened Fat32Driver

  /** A file untouched by a change of other table entries and clusters. */
  lemma FileFrame(g: Geometry, d: seq<byte>, d': seq<byte>, e: DirEntry, ch: seq<nat>)
    requires ValidDisk(g, d) && ValidDisk(g, d') && FileOk(g, d, e, ch) && AreClusters(g, ch)
    requires forall i :: 0 <= i < |ch| ==> FatOf(g, d')[ch[i]] == FatOf(g, d)[ch[i]]
    requires forall i :: 0 <= i < |ch| ==> ClusterData(g, d', ch[i]) == ClusterData(g, d, ch[i])
    ensures FileOk(g, d', e, ch) && Content(g, d', e, ch) == Content(g, d, e, ch)
  {
    hide FatOf, ClusterData, Flat, DivCeil;
    if ch != [] { ChainFrame(FatOf(g, d), FatOf(g, d'), ch); }
    FlatFrame(g, d, d', ch);
  }

  /** Writing one file leaves the chain and the bytes of every other file alone; the chains stay
      disjoint and the place of the other entry stays good, so that writes can follow each other. */
  lemma OtherFileKept(g: Geometry, d: seq<byte>, d': seq<byte>, dir: DirEntryWithLoc, dir': DirEntryWithLoc,
                      ch: seq<nat>, n: nat, offset: nat, buffer: seq<byte>, other: DirEntry, och: seq<nat>)
    requires ValidDisk(g, d) && ValidDisk(g, d') && FileOk(g, d, dir.entry, ch) && n <= |FreeClusters(g, d)|
    requires g.IsCluster(dir.loc.cluster) && dir.loc.offset + 32 <= g.ClusterBytes()
    requires Written(g, d, d', dir, dir', ch, ch + FreeClusters(g, d)[..n], offset, buffer)
    requires FileOk(g, d, other, och) && Disjoint(och, ch) && dir.loc.cluster !in och
    ensures FileOk(g, d', other, och) && Content(g, d', other, och) == Content(g, d, other, och)
    ensures Disjoint(och, ch + FreeClusters(g, d)[..n])
    ensures forall loc :: EntryPlaceOk(g, d, loc, och) ==> EntryPlaceOk(g, d', loc, och)
  {
    hide FatOf, ClusterData, Flat, DivCeil, FreeList, Content, FileOk;
    var added := FreeClusters(g, d)[..n];
    FileLength(g, d, other, och);
    forall i | 0 <= i < |och| ensures och[i] !in ch + added {
      FileClusterNotFree(g, d, other, och, i);
      FreePrefix(FatOf(g, d), g.rootCluster + 1, g.clusterCount, n);
    }
    FileFrame(g, d, d', other, och);
    forall loc | EntryPlaceOk(g, d, loc, och) ensures EntryPlaceOk(g, d', loc, och) {
      if i :| 0 <= i < |ch + added| && (ch + added)[i] == loc.cluster {
        FileClusterNotFree(g, d', dir'.entry, ch + added, i);
      }
    }
  }

  lemma FileClusterNotFree(g: Geometry, d: seq<byte>, e: DirEntry, ch: seq<nat>, i: nat)
    requires ValidDisk(g, d) && FileOk(g, d, e, ch) && i < |ch|
    ensures ch[i] < g.Entries() && FatOf(g, d)[ch[i]] != 0
  {
    hide FatOf, DivCeil;
    ChainNotFree(FatOf(g, d), ch, i);
  }

  /** A write followed by a read from the start: the reader sees the spliced content. */
  method WriteThenRead(fs: Fat32, dir: DirEntryWithLoc, offset: nat, buffer: seq<byte>, target: array<byte>, ghost ch: seq<nat>)
    returns (r: Outcome<nat>)
    requires fs.Valid() && FileOk(fs.g, fs.disk, dir.entry, ch) && EntryPlaceOk(fs.g, fs.disk, dir.loc, ch)
    requires |buffer| > 0 && offset + |buffer| < TWO32 && offset <= dir.entry.fileSize
    modifies fs, target
    ensures r.Panicked? <==> |FreeClusters(fs.g, old(fs.disk))| < NewClusters(fs.g, dir.entry, offset + |buffer|)
    ensures r.Returned? ==>
      var was := Content(fs.g, old(fs.disk), dir.entry, ch);
      var now := was[..offset] + buffer + was[Min(|was|, offset + |buffer|)..];
      r.value == Min(target.Length, |now|) && target[..r.value] == now[..r.value]
  {
    hide FatOf, FreeClusters, EntryPlaceOk, FileOk, Content, NewClusters;
    var w, ch' := fs.WriteBuffer(dir, offset, buffer, ch);
    if w.Panicked? {
      return Panicked;
    }
    var n := fs.ReadBuffer(w.value.0.entry, target, ch');
    r := Returned(n);
  }

  // ---------------------------------------------------------------- deletion

  /** The entry with its deletion mark. */
  function Deleted(dir: DirEntryWithLoc): DirEntryWithLoc
  {
    dir.(entry := dir.entry.(name := dir.entry.name[0 := DELETED]))
  }

  /** The volume after `delete_file`. */
  ghost function DeletedDisk(g: Geometry, d: seq<byte>, dir: DirEntryWithLoc, walk: seq<nat>): (d': seq<byte>)
    requires ValidDisk(g, d) && IsWalk(FatOf(g, d), walk)
    requires g.IsCluster(dir.loc.cluster) && dir.loc.offset + 32 <= g.ClusterBytes()
    ensures |d'| == |d|
  {
    PutData(g, FreeDisk(g, d, walk), dir.loc.cluster, dir.loc.offset, Serialize(Deleted(dir).entry))
  }

  /** What deletion does to the table and to the clusters. */
  lemma DeletedFacts(g: Geometry, d: seq<byte>, dir: DirEntryWithLoc, walk: seq<nat>)
    requires ValidDisk(g, d) && IsWalk(FatOf(g, d), walk)
    requires g.IsCluster(dir.loc.cluster) && dir.loc.offset + 32 <= g.ClusterBytes()
    ensures var d' := DeletedDisk(g, d, dir, walk);
      && FatOf(g, d') == Unlink(FatOf(g, d), walk)
      && (forall c :: g.IsCluster(c) && c != dir.loc.cluster ==> ClusterData(g, d', c) == ClusterData(g, d, c))
      && ClusterData(g, d', dir.loc.cluster)
         == Splice(ClusterData(g, d, dir.loc.cluster), dir.loc.offset, Serialize(Deleted(dir).entry))
  {
    hide FatOf, FreeDisk, PutData, Serialize, ClusterData, Unlink, SameButFat, Splice;
    var d1 := FreeDisk(g, d, walk);
    FreeDiskFat(g, d, walk);
    FreeDiskSame(g, d, walk);
    forall c | g.IsCluster(c) ensures ClusterData(g, d1, c) == ClusterData(g, d, c) {
      FatChangeKeepsCluster(g, d, d1, c);
    }
    ExtendedFirst(g, d1, dir.loc, Serialize(Deleted(dir).entry));
  }

  /** Deleting a file keeps the reserved entry 0 exactly when the file has a first cluster: for an
      empty file the driver frees entry 0 itself. */
  lemma DeleteKeepsReserved(g: Geometry, d: seq<byte>, dir: DirEntryWithLoc, walk: seq<nat>)
    requires ValidDisk(g, d) && IsWalk(FatOf(g, d), walk) && walk[0] == dir.entry.FirstCluster()
    requires walk[0] != 0 ==> IsChain(FatOf(g, d), walk)
    requires g.IsCluster(dir.loc.cluster) && dir.loc.offset + 32 <= g.ClusterBytes()
    ensures FatOf(g, DeletedDisk(g, d, dir, walk))[0] == FatOf(g, d)[0] <==> dir.entry.FirstCluster() != 0
  {
    hide FatOf, ClusterData, DeletedDisk, Unlink;
    DeletedFacts(g, d, dir, walk);
    UnlinkEntries(FatOf(g, d), walk);
    ChainDistinct(FatOf(g, d), walk);
    assert |walk| > 1 ==> FatOf(g, d)[walk[0]] == walk[1] && walk[1] != walk[0];
  }

  /** Deleting a non-empty file frees its clusters and leaves every other file alone. */
  lemma OtherFileSurvives(g: Geometry, d: seq<byte>, dir: DirEntryWithLoc, ch: seq<nat>, other: DirEntry, och: seq<nat>)
    requires ValidDisk(g, d) && IsChain(FatOf(g, d), ch) && ch[0] == dir.entry.FirstCluster()
    requires g.IsCluster(dir.loc.cluster) && dir.loc.offset + 32 <= g.ClusterBytes()
    requires FileOk(g, d, other, och) && Disjoint(och, ch) && dir.loc.cluster !in och
    ensures var d' := DeletedDisk(g, d, dir, ch);
      && (forall i :: 0 <= i < |ch| ==> FatOf(g, d')[ch[i]] == 0)
      && FileOk(g, d', other, och) && Content(g, d', other, och) == Content(g, d, other, och)
  {
    hide FatOf, ClusterData, DeletedDisk, Unlink, DivCeil, Content;
    DeletedFacts(g, d, dir, ch);
    UnlinkEntries(FatOf(g, d), ch);
    FileLength(g, d, other, och);
    FileFrame(g, d, DeletedDisk(g, d, dir, ch), other, och);
  }

  // ---------------------------------------------------------------- the driver's calls as table operations

  /** `alloc_clusters` does to the table what `Alloc` does, panicking or not. */
  lemma AllocIsStep(g: Geometry, d: seq<byte>, chains: seq<seq<nat>>, n: nat)
    requires ValidDisk(g, d) && ChainsOk(FatOf(g, d), chains)
    ensures var free := FreeClusters(g, d);
      FatOf(g, LinkDisk(g, d, free[..Min(n, |free|)]))
      == Step(Table(FatOf(g, d), chains), g.rootCluster + 1, g.clusterCount, Alloc(n)).fat
  {
    hide FatOf, LinkDisk, Link, FreeList, ChainsOk;
    var free := FreeClusters(g, d);
    LinkDiskFat(g, d, free[..Min(n, |free|)]);
    LinkNothing(FatOf(g, d));
  }

  lemma LinkNothing(fat: Fat)
    ensures Link(fat, []) == fat
  {
  }

  /** Extending a file does what `Extend` does, or `Alloc` for a file that had no cluster, panicking or not. */
  lemma ExtendIsStep(g: Geometry, d: seq<byte>, chains: seq<seq<nat>>, k: nat, n: nat, dir: DirEntryWithLoc, ch: seq<nat>)
    requires ValidDisk(g, d) && ChainsOk(FatOf(g, d), chains) && n > 0
    requires EntryPlaceOk(g, d, dir.loc, ch) && (ch != [] ==> k < |chains| && chains[k] == ch)
    ensures AreClusters(g, ch)
    ensures var free := FreeClusters(g, d);
            var d' := if n > |free| then UsedUpDisk(g, d) else ExtendedDisk(g, d, dir, ch, free[..n]);
      FatOf(g, d')
      == Step(Table(FatOf(g, d), chains), g.rootCluster + 1, g.clusterCount, if ch == [] then Alloc(n) else Extend(k, n)).fat
  {
    hide FatOf, LinkDisk, FreeList, ExtendedDisk, ChainsOk, IsChain, Link;
    if ch != [] {
      ChainOfTable(FatOf(g, d), chains, k);
      ChainIsClusters(g, d, ch);
    }
    if n > |FreeClusters(g, d)| {
      AllocIsStep(g, d, chains, n);
      assert FreeClusters(g, d)[..|FreeClusters(g, d)|] == FreeClusters(g, d);
    } else {
      ExtendedTable(g, d, dir, ch, n);
    }
  }

  lemma ChainOfTable(fat: Fat, chains: seq<seq<nat>>, k: nat)
    requires ChainsOk(fat, chains) && k < |chains|
    ensures IsChain(fat, chains[k])
  {
    hide IsChain;
  }

  lemma ExtendedTable(g: Geometry, d: seq<byte>, dir: DirEntryWithLoc, ch: seq<nat>, n: nat)
    requires ValidDisk(g, d) && 0 < n <= |FreeClusters(g, d)| && EntryPlaceOk(g, d, dir.loc, ch) && AreClusters(g, ch)
    ensures var added := FreeClusters(g, d)[..n];
      FatOf(g, ExtendedDisk(g, d, dir, ch, added))
      == if ch == [] then Link(FatOf(g, d), added) else Link(FatOf(g, d), added)[ch[|ch| - 1] := added[0]]
  {
    hide FatOf, LinkDisk, Link, FreeList, PutData, PutEntry, Serialize, ClusterData;
    var added := FreeClusters(g, d)[..n];
    LinkDiskFat(g, d, added);
    if ch == [] {
      ExtendedFirst(g, LinkDisk(g, d, added), dir.loc, Serialize(ExtendedDir(dir, ch, added).entry));
    } else {
      ExtendedLater(g, LinkDisk(g, d, added), ch[|ch| - 1], added[0]);
    }
  }

  lemma ChainIsClusters(g: Geometry, d: seq<byte>, ch: seq<nat>)
    requires ValidDisk(g, d) && IsChain(FatOf(g, d), ch)
    ensures ch != [] && AreClusters(g, ch)
  {
    hide FatOf;
  }

  /** Freeing a chain does what `Free` does. */
  lemma FreeIsStep(g: Geometry, d: seq<byte>, chains: seq<seq<nat>>, k: nat)
    requires ValidDisk(g, d) && ChainsOk(FatOf(g, d), chains) && k < |chains|
    ensures FatOf(g, FreeDisk(g, d, chains[k]))
      == Step(Table(FatOf(g, d), chains), g.rootCluster + 1, g.clusterCount, Free(k)).fat
  {
    hide FatOf, FreeDisk, Unlink, FreeList;
    FreeDiskFat(g, d, chains[k]);
  }
}
