/** The FAT32 driver: table access, allocation, and reading and writing of file contents. */
module Fat32Driver {
  import opened Wrappers
  import opened Bytes
  import opened FatChains
  import opened FatVolume
  import opened FatEntry

  function DivCeil(a: nat, b: nat): nat
    requires b > 0
  {
    (a + b - 1) / b
  }

  /** The clusters the allocator would hand out, in order. */
  function FreeClusters(g: Geometry, d: seq<byte>): (r: seq<nat>)
    requires ValidDisk(g, d)
    ensures forall i :: 0 <= i < |r| ==> g.IsCluster(r[i])
  {
    FreeList(FatOf(g, d), g.rootCluster + 1, g.clusterCount)
  }

  /** The allocator hands out the free clusters behind the root cluster, lowest first; it never reaches the
      last two clusters of the volume. */
  lemma FreeExact(g: Geometry, d: seq<byte>)
    requires ValidDisk(g, d)
    ensures forall c: nat :: c in FreeClusters(g, d) <==> g.rootCluster < c < g.Entries() - 2 && FatOf(g, d)[c] == 0
    ensures forall i, j :: 0 <= i < j < |FreeClusters(g, d)| ==> FreeClusters(g, d)[i] < FreeClusters(g, d)[j]
  {
    hide FatOf;
    FreeListAscends(FatOf(g, d), g.rootCluster + 1, g.clusterCount);
    forall c: nat | g.rootCluster < c < g.clusterCount && FatOf(g, d)[c] == 0 ensures c in FreeClusters(g, d) {
      FreeListComplete(FatOf(g, d), g.rootCluster + 1, g.clusterCount, c);
    }
  }

  class Fat32 {
    const g: Geometry
    var disk: seq<byte>

    ghost predicate Valid()
      reads this
    {
      ValidDisk(g, disk)
    }

    ghost function Table(): Fat
      reads this
      requires Valid()
    {
      FatOf(g, disk)
    }

    /** `new`, on the parameter block of the volume. */
    constructor (bpb: Bpb, disk: seq<byte>)
      requires WellFormed(bpb) && |disk| == bpb.totalSectors32 * 512
      ensures Valid() && g == GeometryOf(bpb) && this.disk == disk
    {
      g := GeometryOf(bpb);
      this.disk := disk;
    }

    // ------------------------------------------------------------ block device

    method ReadSectors(lba: nat, sectors: nat) returns (buffer: seq<byte>)
      requires Valid() && lba + sectors <= g.totalSectors
      ensures buffer == disk[lba * 512..lba * 512 + sectors * 512]
    {
      buffer := disk[lba * 512..lba * 512 + sectors * 512];
    }

    method WriteSectors(lba: nat, data: seq<byte>)
      requires Valid() && lba * 512 + |data| <= |disk|
      requires |data| % 512 == 0
      modifies this
      ensures Valid() && disk == Splice(old(disk), lba * 512, data)
    {
      disk := Splice(disk, lba * 512, data);
    }

    // ------------------------------------------------------------ table access

    method GetNextCluster(cluster: nat) returns (v: nat)
      requires Valid() && cluster < g.Entries()
      ensures v == Table()[cluster]
    {
      hide PutEntry, RawEntry, FromLe;
      var fatOffset := cluster * 4;
      var sector, offset := g.fatStart + fatOffset / g.bytesPerSector, fatOffset % g.bytesPerSector;
      PatchSector(g, disk, cluster, 0, sector, offset);
      var buffer := ReadSectors(sector, 1);
      v := FromLe(buffer[offset..offset + 4]) % TWO28;
    }

    method LinkClusters(from: nat, to: nat)
      requires Valid() && from < g.Entries()
      modifies this
      ensures Valid() && disk == PutEntry(g, old(disk), from, to)
    {
      hide PutEntry, RawEntry, FromLe, NewWord;
      var fatOffset := from * 4;
      var sector, offset := g.fatStart + fatOffset / g.bytesPerSector, fatOffset % g.bytesPerSector;
      PatchSector(g, disk, from, to, sector, offset);
      var buffer := ReadSectors(sector, 1);
      var newValue := NewWord(FromLe(buffer[offset..offset + 4]), to);
      WriteSectors(sector, Splice(buffer, offset, ToLe(newValue)));
    }

    method GetFreeCluster() returns (r: Option<nat>)
      requires Valid()
      ensures var free := FreeClusters(g, disk); r == if free == [] then None else Some(free[0])
    {
      hide FatOf;
      var start, total := g.rootCluster + 1, g.clusterCount;
      var i := start;
      while i < total
        invariant start <= i && (i <= total || i == start)
        invariant FreeClusters(g, disk) == FreeList(Table(), i, total)
      {
        var v := GetNextCluster(i);
        if v == 0 {
          return Some(i);
        }
        i := i + 1;
      }
      return None;
    }

    /** First fit, one cluster at a time: the new chain is the `n` lowest free clusters of the
        scanned window; with fewer than `n` of them the driver panics. */
    method AllocClusters(n: nat) returns (r: Outcome<Option<nat>>)
      requires Valid()
      modifies this
      ensures Valid()
      ensures n == 0 ==> r == Returned(None)
      ensures n > 0 ==> r == if n <= |FreeClusters(g, old(disk))| then Returned(Some(FreeClusters(g, old(disk))[0])) else Panicked
      ensures disk == LinkDisk(g, old(disk), FreeClusters(g, old(disk))[..Min(n, |FreeClusters(g, old(disk))|)])
    {
      hide PutEntry, FatOf, FreeList, LinkDisk, FreeClusters;
      ghost var d := disk;
      ghost var f := FreeClusters(g, d);
      FreeAfterTaking(g, d, 0);
      if n == 0 {
        return Returned(None);
      }
      var start? := GetFreeCluster();
      if start?.None? {
        return Panicked;
      }
      var start := start?.value;
      var curr := start;
      LinkClusters(curr, EOC);
      var k := 1;
      FreeAfterTaking(g, d, 1);
      while k < n
        invariant 1 <= k <= n && k <= |f| && curr == f[k - 1]
        invariant Valid() && disk == LinkDisk(g, d, f[..k])
        invariant FreeClusters(g, disk) == f[k..]
      {
        var new? := GetFreeCluster();
        if new?.None? {
          assert f[..k] == f;
          return Panicked;
        }
        var newCluster := new?.value;
        LinkClusters(curr, newCluster);
        LinkClusters(newCluster, EOC);
        FreeAfterTaking(g, d, k + 1);
        curr := newCluster;
        k := k + 1;
      }
      LastIsEoc(g, d, n);
      LinkClusters(curr, EOC);
      r := Returned(Some(start));
    }

    // ------------------------------------------------------------ cluster data

    /** Read one sector, patch it and write it back. */
    method PatchBytes(lba: nat, offset: nat, data: seq<byte>)
      requires Valid() && lba < g.totalSectors && offset + |data| <= 512
      modifies this
      ensures Valid() && disk == Splice(old(disk), lba * 512 + offset, data)
    {
      var temp := ReadSectors(lba, 1);
      SpliceWindow(disk, lba * 512, lba * 512 + 512, offset, data);
      WriteSectors(lba, Splice(temp, offset, data));
    }

    /** A write inside one cluster, split into an unaligned head, whole middle sectors and an
        unaligned tail, is one overwrite of the cluster's bytes. */
    method WriteCluster(cluster: nat, clusterOffset: nat, buffer: seq<byte>)
      requires Valid() && g.IsCluster(cluster)
      requires 0 < |buffer| && clusterOffset + |buffer| <= g.ClusterBytes()
      modifies this
      ensures Valid() && disk == PutData(g, old(disk), cluster, clusterOffset, buffer)
    {
      hide ClusterAt, Splice, ClusterToLba;
      LbaOfCluster(g, cluster);
      ClusterRange(g, cluster);
      ghost var d := disk;
      ghost var at := ClusterAt(g, cluster) + clusterOffset;
      SpliceNothing(d, at, buffer);
      var endPos := clusterOffset + |buffer|;
      var lba := ClusterToLba(g, cluster) + clusterOffset / 512;
      var cursor := 0;
      if clusterOffset % 512 != 0 || |buffer| <= 512 {
        cursor := Min(|buffer|, 512 - clusterOffset % 512);
        PatchBytes(lba, clusterOffset % 512, buffer[..cursor]);
      }
      assert disk == Splice(d, at, buffer[..cursor]);
      if cursor == |buffer| {
        return;
      }

      var hasHead := if cursor > 0 then 1 else 0;
      var middleEnd := endPos / 512 * 512;
      SectorSplit(clusterOffset, |buffer|, cursor);
      if middleEnd > cursor + clusterOffset {
        SpliceNext(d, at, buffer, cursor, middleEnd - clusterOffset);
        WriteSectors(lba + hasHead, buffer[cursor..middleEnd - clusterOffset]);
      }
      assert disk == Splice(d, at, buffer[..middleEnd - clusterOffset]);
      if endPos % 512 != 0 {
        SpliceNext(d, at, buffer, middleEnd - clusterOffset, |buffer|);
        assert buffer[middleEnd - clusterOffset..|buffer|] == buffer[middleEnd - clusterOffset..];
        PatchBytes(ClusterToLba(g, cluster) + endPos / 512, 0, buffer[middleEnd - clusterOffset..]);
      }
    }

    /** Store a directory entry at its place. */
    method UpdateDir(dir: DirEntryWithLoc)
      requires Valid() && g.IsCluster(dir.loc.cluster) && dir.loc.offset + 32 <= g.ClusterBytes()
      modifies this
      ensures Valid() && disk == PutData(g, old(disk), dir.loc.cluster, dir.loc.offset, Serialize(dir.entry))
    {
      WriteCluster(dir.loc.cluster, dir.loc.offset, Serialize(dir.entry));
    }

    // ------------------------------------------------------------ reading a file

    method ReadCluster(cluster: nat) returns (data: seq<byte>)
      requires Valid() && g.IsCluster(cluster)
      ensures data == ClusterData(g, disk, cluster)
    {
      hide ClusterAt, ClusterToLba;
      LbaOfCluster(g, cluster);
      ClusterRange(g, cluster);
      data := ReadSectors(ClusterToLba(g, cluster), g.sectorsPerCluster);
    }

    /** Fills `buffer` from the start of the file and returns how many bytes it copied. */
    method ReadBuffer(dir: DirEntry, buffer: array<byte>, ghost ch: seq<nat>) returns (bytesRead: nat)
      requires Valid() && FileOk(g, disk, dir, ch)
      modifies buffer
      ensures disk == old(disk)
      ensures bytesRead == Min(buffer.Length, dir.fileSize)
      ensures buffer[..] == Content(g, disk, dir, ch)[..bytesRead] + old(buffer[..])[bytesRead..]
    {
      hide FatOf, Flat, ClusterData, Splice, DivCeil, Times;
      NoTimes(g.ClusterBytes());
      ghost var was := buffer[..];
      var target := Min(buffer.Length, dir.fileSize);
      CeilBounds(dir.fileSize, g.ClusterBytes());
      ghost var content := Flat(g, disk, ch)[..target];
      SpliceNothing(was, 0, content);
      PrefixSplice(was, content);
      if target == 0 {
        return 0;
      }
      var cluster: nat := dir.FirstCluster();
      bytesRead := 0;
      ghost var j := 0;
      while bytesRead < buffer.Length && !IsEoc(cluster)
        invariant 0 <= j <= |ch|
        invariant cluster == if j < |ch| then ch[j] else Table()[ch[|ch| - 1]]
        invariant bytesRead == Min(Times(j, g.ClusterBytes()), target)
        invariant buffer[..] == Splice(was, 0, content[..bytesRead])
        decreases |ch| - j
      {
        var bytesToCopy := Min(g.ClusterBytes(), target - bytesRead);
        var temp := ReadCluster(cluster);
        FlatPiece(g, disk, ch, j, target);
        SpliceNext(was, 0, content, bytesRead, bytesRead + bytesToCopy);
        CopyFromSlice(buffer, bytesRead, temp[..bytesToCopy]);
        bytesRead := bytesRead + bytesToCopy;
        cluster := GetNextCluster(cluster);
        j := j + 1;
      }
    }

    // ------------------------------------------------------------ writing a file

    /** Follows the chain for `index` links, or until it ends. */
    method WalkTo(first: nat, index: nat, ghost ch: seq<nat>) returns (curr: nat, prev: nat, i: nat)
      requires Valid() && if ch == [] then first == 0 else IsChain(Table(), ch) && first == ch[0]
      ensures i == Min(index, |ch|)
      ensures i < |ch| ==> curr == ch[i]
      ensures i == |ch| ==> if ch == [] then curr == 0 else IsEoc(curr)
      ensures prev == if ch == [] then 0 else if i == 0 then ch[0] else ch[i - 1]
    {
      hide FatOf;
      curr, prev, i := first, first, 0;
      while i < index && !IsEoc(curr) && curr != 0
        invariant i <= index && i <= |ch|
        invariant i < |ch| ==> curr == ch[i]
        invariant i == |ch| ==> if ch == [] then curr == 0 else IsEoc(curr)
        invariant prev == if ch == [] then 0 else if i == 0 then ch[0] else ch[i - 1]
        decreases |ch| - i
      {
        prev := curr;
        curr := GetNextCluster(curr);
        i := i + 1;
      }
    }

    /** The last cluster of a chain, searched from the cluster at position `i`. */
    method FindEnd(from: nat, ghost ch: seq<nat>, ghost i: nat) returns (end: nat)
      requires Valid() && IsChain(Table(), ch) && i < |ch| && from == ch[i]
      ensures end == ch[|ch| - 1]
    {
      hide FatOf;
      end := from;
      ghost var k := i;
      var next := GetNextCluster(end);
      while !IsEoc(next)
        invariant 0 <= k < |ch| && end == ch[k]
        invariant if k < |ch| - 1 then next == ch[k + 1] else IsEoc(next)
        decreases |ch| - k
      {
        end := next;
        k := k + 1;
        next := GetNextCluster(end);
      }
    }

    /** Writes `buffer` into a chain from offset `clusterOffset` of its cluster `index` on; the
        count it returns is one too many. */
    method WriteData(first: nat, index: nat, clusterOffset: nat, buffer: seq<byte>, ghost ch: seq<nat>)
      returns (bytesWritten: nat)
      requires Valid() && IsChain(Table(), ch) && index < |ch| && first == ch[index]
      requires clusterOffset < g.ClusterBytes() && |buffer| > 0
      requires Times(index, g.ClusterBytes()) + clusterOffset + |buffer| <= Times(|ch|, g.ClusterBytes())
      modifies this
      ensures Valid() && KeepsOthers(g, old(disk), disk, ch)
      ensures Flat(g, disk, ch)
           == Splice(Flat(g, old(disk), ch), Times(index, g.ClusterBytes()) + clusterOffset, buffer)
      ensures bytesWritten == |buffer| + 1
    {
      hide FatOf, Flat, PutData, Splice, KeepsOthers, Times;
      NextTimes(index, g.ClusterBytes());
      ghost var d := disk;
      ghost var pos := Times(index, g.ClusterBytes()) + clusterOffset;
      ghost var view := Flat(g, disk, ch);
      SpliceNothing(view, pos, buffer);
      var curr := first;
      var i := Min(g.ClusterBytes() - clusterOffset, |buffer|);
      PutDataChain(g, d, d, ch, index, clusterOffset, buffer[..i]);
      WriteCluster(curr, clusterOffset, buffer[..i]);
      bytesWritten := i + 1;
      ghost var j := index;
      while i < |buffer|
        invariant 0 <= j < |ch| && curr == ch[j]
        invariant Valid() && KeepsOthers(g, d, disk, ch)
        invariant Flat(g, disk, ch) == Splice(view, pos, buffer[..Min(i, |buffer|)])
        invariant i < |buffer| ==> pos + i == Times(j + 1, g.ClusterBytes())
        invariant bytesWritten == Min(i, |buffer|) + 1
      {
        TimesLess(j + 1, |ch|, g.ClusterBytes());
        NextTimes(j + 1, g.ClusterBytes());
        KeepsTable(g, d, disk, ch);
        curr := GetNextCluster(curr);
        var data := buffer[i..Min(i + g.ClusterBytes(), |buffer|)];
        PutDataChain(g, d, disk, ch, j + 1, 0, data);
        SpliceNext(view, pos, buffer, i, i + |data|);
        WriteCluster(curr, 0, data);
        i := i + g.ClusterBytes();
        bytesWritten := bytesWritten + |data|;
        j := j + 1;
      }
    }

    /** Allocates `count` clusters and hangs them off the chain of a file; a file that had none
        gets its first cluster, and its directory entry is stored. */
    method ExtendChain(dir: DirEntryWithLoc, prev: nat, count: nat, ghost ch: seq<nat>, ghost i: nat)
      returns (r: Outcome<(DirEntryWithLoc, nat)>)
      requires Valid() && count > 0 && EntryPlaceOk(g, disk, dir.loc, ch)
      requires if ch == [] then prev == 0 else IsChain(Table(), ch) && i < |ch| && prev == ch[i]
      modifies this
      ensures Valid()
      ensures r.Panicked? <==> count > |FreeClusters(g, old(disk))|
      ensures r.Panicked? ==> disk == UsedUpDisk(g, old(disk))
      ensures r.Returned? ==>
        var added := FreeClusters(g, old(disk))[..count];
        r.value == (ExtendedDir(dir, ch, added), added[0]) && disk == ExtendedDisk(g, old(disk), dir, ch, added)
    {
      hide FatOf, LinkDisk, PutEntry, PutData, FreeClusters;
      ghost var d := disk;
      var alloc := AllocClusters(count);
      if alloc.Panicked? {
        assert FreeClusters(g, d)[..|FreeClusters(g, d)|] == FreeClusters(g, d);
        return Panicked;
      }
      var firstNew := alloc.value.value;
      if prev != 0 {
        LinkedKeeps(g, d, FreeClusters(g, d)[..count], ch);
        var end := FindEnd(prev, ch, i);
        LinkClusters(end, firstNew);
        r := Returned((dir, firstNew));
      } else {
        var dir' := dir.(entry := dir.entry.SetFirstCluster(firstNew));
        UpdateDir(dir');
        r := Returned((dir', firstNew));
      }
    }

    method Seek(from: nat, start: nat, index: nat, ghost ch: seq<nat>) returns (curr: nat)
      requires Valid() && IsChain(Table(), ch) && start <= index < |ch| && from == ch[start]
      ensures curr == ch[index]
    {
      hide FatOf;
      curr := from;
      var i := start;
      while i < index
        invariant start <= i <= index && curr == ch[i]
      {
        curr := GetNextCluster(curr);
        i := i + 1;
      }
    }

    /** First half of `write_buffer`: makes the chain long enough for `required` bytes and walks
        to its cluster `index`. */
    method PrepareChain(dir: DirEntryWithLoc, required: nat, index: nat, ghost ch: seq<nat>)
      returns (r: Outcome<(DirEntryWithLoc, nat)>, ghost ch': seq<nat>)
      requires Valid() && FileOk(g, disk, dir.entry, ch) && EntryPlaceOk(g, disk, dir.loc, ch)
      requires index < DivCeil(required, g.ClusterBytes())
      modifies this
      ensures Valid()
      ensures r.Panicked? <==> |FreeClusters(g, old(disk))| < NewClusters(g, dir.entry, required)
      ensures r.Panicked? ==> disk == UsedUpDisk(g, old(disk))
      ensures r.Returned? ==>
        && ch' == ch + FreeClusters(g, old(disk))[..NewClusters(g, dir.entry, required)]
        && Prepared(g, old(disk), disk, dir, r.value.0, ch')
        && index < |ch'| && r.value.1 == ch'[index]
    {
      hide FatOf, FreeClusters, Prepared, Extended, ExtendedDisk, DivCeil, UsedUpDisk;
      var requiredClusters := DivCeil(required, g.ClusterBytes());
      var currNumClusters := DivCeil(dir.entry.fileSize, g.ClusterBytes());
      var curr, prev, i := WalkTo(dir.entry.FirstCluster(), index, ch);
      var dir' := dir;
      ch' := ch;
      if currNumClusters < requiredClusters {
        var newClusters := requiredClusters - currNumClusters;
        ghost var d := disk;
        var ext := ExtendChain(dir, prev, newClusters, ch, if i == 0 then 0 else i - 1);
        if ext.Panicked? {
          return Panicked, ch;
        }
        ExtendedPrepares(g, d, dir, ch, newClusters);
        ch' := ch + FreeClusters(g, d)[..newClusters];
        dir' := ext.value.0;
        if curr == 0 || IsEoc(curr) {
          curr := ext.value.1;
        }
      } else {
        assert ch + FreeClusters(g, disk)[..0] == ch;
        SamePrepares(g, disk, dir, ch);
      }
      PreparedChain(g, old(disk), disk, dir, dir', ch');
      curr := Seek(curr, i, index, ch');
      r := Returned((dir', curr));
    }

    /** Writes `buffer` at `offset` of a file, extending its chain as needed; the count returned is
        the length of `buffer` plus one. */
    method WriteBuffer(dir: DirEntryWithLoc, offset: nat, buffer: seq<byte>, ghost ch: seq<nat>)
      returns (r: Outcome<(DirEntryWithLoc, nat)>, ghost ch': seq<nat>)
      requires Valid() && FileOk(g, disk, dir.entry, ch) && EntryPlaceOk(g, disk, dir.loc, ch)
      requires |buffer| > 0 && offset + |buffer| < TWO32
      modifies this
      ensures Valid()
      ensures r.Panicked? <==> |FreeClusters(g, old(disk))| < NewClusters(g, dir.entry, offset + |buffer|)
      ensures r.Panicked? ==> disk == UsedUpDisk(g, old(disk))
      ensures r.Returned? ==>
        && r.value.1 == |buffer| + 1
        && ch' == ch + FreeClusters(g, old(disk))[..NewClusters(g, dir.entry, offset + |buffer|)]
        && Written(g, old(disk), disk, dir, r.value.0, ch, ch', offset, buffer)
    {
      hide FatOf, FreeClusters, Prepared, KeepsOthers, Written, Flat, FileOk, PutData, DivCeil, UsedUpDisk;
      var index, clusterOffset := offset / g.ClusterBytes(), offset % g.ClusterBytes();
      var required := offset + |buffer|;
      DivTimes(offset, g.ClusterBytes());
      FileLength(g, disk, dir.entry, ch);
      WriteFits(g, dir.entry, offset, |buffer|, |ch|, index);
      var prep;
      prep, ch' := PrepareChain(dir, required, index, ch);
      if prep.Panicked? {
        return Panicked, ch;
      }
      var dir', curr := prep.value.0, prep.value.1;
      ghost var d1 := disk;
      PreparedChain(g, old(disk), d1, dir, dir', ch');
      var bytesWritten := WriteData(curr, index, clusterOffset, buffer, ch');
      ghost var d2 := disk;
      if required > dir.entry.fileSize {
        dir' := dir'.(entry := dir'.entry.(fileSize := required));
        UpdateDir(dir');
      }
      WrittenFacts(g, old(disk), d1, d2, dir, prep.value.0, ch, ch', offset, buffer);
      r := Returned((dir', bytesWritten));
    }
  }

  method CopyFromSlice(dst: array<byte>, at: nat, src: seq<byte>)
    requires at + |src| <= dst.Length
    modifies dst
    ensures dst[..] == Splice(old(dst[..]), at, src)
  {
    forall k | 0 <= k < |src| {
      dst[at + k] := src[k];
    }
  }

  /** A file on the volume: as many clusters as its size needs, chained from its first cluster;
      an empty file has none. */
  ghost predicate FileOk(g: Geometry, d: seq<byte>, e: DirEntry, ch: seq<nat>)
    requires ValidDisk(g, d)
  {
    && |ch| == DivCeil(e.fileSize, g.ClusterBytes())
    && (ch == [] ==> e.FirstCluster() == 0)
    && (ch != [] ==> IsChain(FatOf(g, d), ch) && e.FirstCluster() == ch[0])
  }

  /** The bytes of a file. */
  ghost function Content(g: Geometry, d: seq<byte>, e: DirEntry, ch: seq<nat>): (r: seq<byte>)
    requires ValidDisk(g, d) && FileOk(g, d, e, ch)
    ensures |r| == e.fileSize
  {
    CeilBounds(e.fileSize, g.ClusterBytes());
    Flat(g, d, ch)[..e.fileSize]
  }

  /** The entry of a file lies in an allocated cluster, outside the file itself. */
  ghost predicate EntryPlaceOk(g: Geometry, d: seq<byte>, loc: ClusterOffset, ch: seq<nat>)
    requires ValidDisk(g, d)
  {
    g.IsCluster(loc.cluster) && loc.offset + 32 <= g.ClusterBytes()
    && loc.cluster !in ch && FatOf(g, d)[loc.cluster] != 0
  }

  ghost function ExtendedDir(dir: DirEntryWithLoc, ch: seq<nat>, added: seq<nat>): DirEntryWithLoc
    requires |added| > 0 && added[0] < MAX_CLUSTERS
  {
    if ch == [] then dir.(entry := dir.entry.SetFirstCluster(added[0])) else dir
  }

  /** The volume after `added` is linked behind `ch`. */
  ghost function ExtendedDisk(g: Geometry, d: seq<byte>, dir: DirEntryWithLoc, ch: seq<nat>, added: seq<nat>): (d': seq<byte>)
    requires ValidDisk(g, d) && AreClusters(g, ch) && AreClusters(g, added) && |added| > 0
    requires g.IsCluster(dir.loc.cluster) && dir.loc.offset + 32 <= g.ClusterBytes()
    ensures |d'| == |d|
  {
    if ch == []
    then PutData(g, LinkDisk(g, d, added), dir.loc.cluster, dir.loc.offset, Serialize(ExtendedDir(dir, ch, added).entry))
    else PutEntry(g, LinkDisk(g, d, added), ch[|ch| - 1], added[0])
  }

  /** The volume after an allocation found too few clusters: all of them linked, for no file. */
  ghost function UsedUpDisk(g: Geometry, d: seq<byte>): (d': seq<byte>)
    requires ValidDisk(g, d)
    ensures |d'| == |d|
  {
    LinkDisk(g, d, FreeClusters(g, d))
  }

  /** Linking free clusters leaves an existing chain alone. */
  lemma LinkedKeeps(g: Geometry, d: seq<byte>, added: seq<nat>, ch: seq<nat>)
    requires ValidDisk(g, d) && IsChain(FatOf(g, d), ch)
    requires exists k :: 0 <= k <= |FreeClusters(g, d)| && added == FreeClusters(g, d)[..k]
    ensures AreClusters(g, ch) && IsChain(FatOf(g, LinkDisk(g, d, added)), ch)
  {
    hide FatOf, LinkDisk, Link;
    var k :| 0 <= k <= |FreeClusters(g, d)| && added == FreeClusters(g, d)[..k];
    FreePrefix(FatOf(g, d), g.rootCluster + 1, g.clusterCount, k);
    LinkDiskFat(g, d, added);
    forall j | 0 <= j < |ch| ensures FatOf(g, d)[ch[j]] != 0 { ChainNotFree(FatOf(g, d), ch, j); }
    LinkKeepsChain(FatOf(g, d), added, ch);
  }

  /** `d'` has the table entries of `d` outside `ch'`, and its clusters outside `ch'` and `loc`. */
  ghost predicate OthersUntouched(g: Geometry, d: seq<byte>, d': seq<byte>, ch': seq<nat>, loc: nat)
    requires ValidDisk(g, d) && ValidDisk(g, d')
  {
    && (forall c :: 0 <= c < g.Entries() && c !in ch' ==> FatOf(g, d')[c] == FatOf(g, d)[c])
    && (forall c :: g.IsCluster(c) && c !in ch' && c != loc ==> ClusterData(g, d', c) == ClusterData(g, d, c))
  }

  /** What extending a chain does: the longer chain is well formed, no data moved, and only a
      file that was empty has its entry rewritten. */
  ghost predicate Extended(g: Geometry, d: seq<byte>, d': seq<byte>, dir: DirEntryWithLoc, ch: seq<nat>, added: seq<nat>)
    requires ValidDisk(g, d) && ValidDisk(g, d') && |added| > 0 && added[0] < MAX_CLUSTERS
    requires g.IsCluster(dir.loc.cluster) && dir.loc.offset + 32 <= g.ClusterBytes()
  {
    && IsChain(FatOf(g, d'), ch + added)
    && dir.loc.cluster !in added && OutsideKept(g, d, d')
    && (forall c :: 0 <= c < g.Entries() && c !in ch + added ==> FatOf(g, d')[c] == FatOf(g, d)[c])
    && (forall c :: g.IsCluster(c) && c != dir.loc.cluster ==> ClusterData(g, d', c) == ClusterData(g, d, c))
    && ClusterData(g, d', dir.loc.cluster) ==
         if ch == [] then Splice(ClusterData(g, d, dir.loc.cluster), dir.loc.offset, Serialize(ExtendedDir(dir, ch, added).entry))
         else ClusterData(g, d, dir.loc.cluster)
  }

  lemma ExtendedFacts(g: Geometry, d: seq<byte>, dir: DirEntryWithLoc, ch: seq<nat>, count: nat)
    requires ValidDisk(g, d) && 0 < count <= |FreeClusters(g, d)| && EntryPlaceOk(g, d, dir.loc, ch)
    requires ch == [] || IsChain(FatOf(g, d), ch)
    ensures AreClusters(g, ch)
    ensures var added := FreeClusters(g, d)[..count];
      Extended(g, d, ExtendedDisk(g, d, dir, ch, added), dir, ch, added)
  {
    hide FatOf, LinkDisk, Extended;
    if ch == [] {
      ExtendedEmptyFile(g, d, dir, ch, count);
    } else {
      ExtendedChain(g, d, dir, ch, count);
    }
  }

  lemma LinkedDisk(g: Geometry, d: seq<byte>, count: nat)
    requires ValidDisk(g, d) && count <= |FreeClusters(g, d)|
    ensures var added := FreeClusters(g, d)[..count];
            var d1 := LinkDisk(g, d, added);
      && Distinct(added) && (forall i :: 0 <= i < |added| ==> g.IsCluster(added[i]) && FatOf(g, d)[added[i]] == 0)
      && FatOf(g, d1) == Link(FatOf(g, d), added)
      && Linked(FatOf(g, d), FatOf(g, d1), added)
      && (forall c :: g.IsCluster(c) ==> ClusterData(g, d1, c) == ClusterData(g, d, c))
      && OutsideKept(g, d, d1)
  {
    hide FatOf, LinkDisk, Link, ClusterData, SameButFat, Linked, FreeList, OutsideKept;
    var added := FreeClusters(g, d)[..count];
    FreePrefix(FatOf(g, d), g.rootCluster + 1, g.clusterCount, count);
    LinkDiskFat(g, d, added);
    LinkDiskSame(g, d, added);
    FatChangeKeepsOutside(g, d, LinkDisk(g, d, added));
    LinkEntries(FatOf(g, d), added);
    forall c | g.IsCluster(c) ensures ClusterData(g, LinkDisk(g, d, added), c) == ClusterData(g, d, c) {
      FatChangeKeepsCluster(g, d, LinkDisk(g, d, added), c);
    }
  }

  lemma ExtendedEmptyFile(g: Geometry, d: seq<byte>, dir: DirEntryWithLoc, ch: seq<nat>, count: nat)
    requires ValidDisk(g, d) && 0 < count <= |FreeClusters(g, d)| && EntryPlaceOk(g, d, dir.loc, ch)
    requires ch == []
    ensures var added := FreeClusters(g, d)[..count];
      Extended(g, d, ExtendedDisk(g, d, dir, ch, added), dir, ch, added)
  {
    hide FatOf, LinkDisk, Link, PutEntry, PutData, ClusterData, Serialize, FreeClusters, OutsideKept;
    var added := FreeClusters(g, d)[..count];
    LinkedDisk(g, d, count);
    ExtendedFirst(g, LinkDisk(g, d, added), dir.loc, Serialize(ExtendedDir(dir, ch, added).entry));
    OutsideTransitive(g, d, LinkDisk(g, d, added), ExtendedDisk(g, d, dir, ch, added));
    LinkIsChain(FatOf(g, d), added);
    assert ch + added == added;
  }

  lemma ExtendedChain(g: Geometry, d: seq<byte>, dir: DirEntryWithLoc, ch: seq<nat>, count: nat)
    requires ValidDisk(g, d) && 0 < count <= |FreeClusters(g, d)| && EntryPlaceOk(g, d, dir.loc, ch)
    requires ch != [] && IsChain(FatOf(g, d), ch)
    ensures AreClusters(g, ch)
    ensures var added := FreeClusters(g, d)[..count];
      Extended(g, d, ExtendedDisk(g, d, dir, ch, added), dir, ch, added)
  {
    hide FatOf, LinkDisk, Link, PutEntry, PutData, ClusterData, Serialize, FreeClusters, OutsideKept;
    var added := FreeClusters(g, d)[..count];
    LinkedDisk(g, d, count);
    ExtendIsChain(FatOf(g, d), ch, added);
    ExtendedLater(g, LinkDisk(g, d, added), ch[|ch| - 1], added[0]);
    OutsideTransitive(g, d, LinkDisk(g, d, added), ExtendedDisk(g, d, dir, ch, added));
  }

  lemma ExtendedFirst(g: Geometry, d1: seq<byte>, loc: ClusterOffset, data: seq<byte>)
    requires ValidDisk(g, d1) && g.IsCluster(loc.cluster) && loc.offset + |data| <= g.ClusterBytes()
    ensures var d2 := PutData(g, d1, loc.cluster, loc.offset, data);
      && FatOf(g, d2) == FatOf(g, d1)
      && ClusterData(g, d2, loc.cluster) == Splice(ClusterData(g, d1, loc.cluster), loc.offset, data)
      && (forall c :: g.IsCluster(c) && c != loc.cluster ==> ClusterData(g, d2, c) == ClusterData(g, d1, c))
      && OutsideKept(g, d1, d2)
  {
    hide FatOf, PutData, ClusterData, OutsideKept;
    var d2 := PutData(g, d1, loc.cluster, loc.offset, data);
    PutDataFat(g, d1, loc.cluster, loc.offset, data);
    PutDataOutside(g, d1, loc.cluster, loc.offset, data);
    forall c | g.IsCluster(c)
      ensures ClusterData(g, d2, c)
           == if c == loc.cluster then Splice(ClusterData(g, d1, c), loc.offset, data) else ClusterData(g, d1, c)
    {
      PutDataCluster(g, d1, loc.cluster, loc.offset, data, c);
    }
  }

  lemma ExtendedLater(g: Geometry, d1: seq<byte>, c: nat, v: nat)
    requires ValidDisk(g, d1) && g.IsCluster(c) && g.IsCluster(v)
    ensures var d2 := PutEntry(g, d1, c, v);
      && FatOf(g, d2) == FatOf(g, d1)[c := v]
      && (forall e :: g.IsCluster(e) ==> ClusterData(g, d2, e) == ClusterData(g, d1, e))
      && OutsideKept(g, d1, d2)
  {
    hide FatOf, PutEntry, ClusterData, SameButFat, OutsideKept;
    PutEntryFat(g, d1, c, v);
    FatChangeKeepsOutside(g, d1, PutEntry(g, d1, c, v));
    forall e | g.IsCluster(e) ensures ClusterData(g, PutEntry(g, d1, c, v), e) == ClusterData(g, d1, e) {
      FatChangeKeepsCluster(g, d1, PutEntry(g, d1, c, v), e);
    }
  }

  /** `d'` has the table of `d` and differs from it in no cluster outside `ch`, nor outside the clusters. */
  ghost predicate KeepsOthers(g: Geometry, d: seq<byte>, d': seq<byte>, ch: seq<nat>)
    requires ValidDisk(g, d)
  {
    && ValidDisk(g, d') && OutsideKept(g, d, d')
    && FatOf(g, d') == FatOf(g, d)
    && forall c :: g.IsCluster(c) && c !in ch ==> ClusterData(g, d', c) == ClusterData(g, d, c)
  }

  lemma KeepsTable(g: Geometry, d: seq<byte>, d': seq<byte>, ch: seq<nat>)
    requires ValidDisk(g, d) && KeepsOthers(g, d, d', ch)
    ensures ValidDisk(g, d') && FatOf(g, d') == FatOf(g, d)
  {
  }

  /** One in-cluster write to a chain, after writes that stayed in the chain. */
  lemma PutDataChain(g: Geometry, d: seq<byte>, d1: seq<byte>, ch: seq<nat>, j: nat, at: nat, data: seq<byte>)
    requires ValidDisk(g, d) && IsChain(FatOf(g, d), ch) && (d1 == d || KeepsOthers(g, d, d1, ch))
    requires j < |ch| && at + |data| <= g.ClusterBytes()
    ensures ValidDisk(g, d1)
    ensures KeepsOthers(g, d, PutData(g, d1, ch[j], at, data), ch)
    ensures Times(j, g.ClusterBytes()) + at + |data| <= Times(|ch|, g.ClusterBytes())
    ensures Flat(g, PutData(g, d1, ch[j], at, data), ch)
         == Splice(Flat(g, d1, ch), Times(j, g.ClusterBytes()) + at, data)
  {
    hide FatOf, Flat, PutData, ClusterData, Splice, OutsideKept;
    ChainDistinct(FatOf(g, d), ch);
    PutDataFlat(g, d1, ch, j, at, data);
    PutDataFat(g, d1, ch[j], at, data);
    PutDataOutside(g, d1, ch[j], at, data);
    if d1 != d { OutsideTransitive(g, d, d1, PutData(g, d1, ch[j], at, data)); }
    forall c | g.IsCluster(c) && c !in ch
      ensures ClusterData(g, PutData(g, d1, ch[j], at, data), c) == ClusterData(g, d, c)
    {
      PutDataCluster(g, d1, ch[j], at, data, c);
    }
  }

  lemma TimesLess(a: nat, b: nat, k: nat)
    requires Times(a, k) < Times(b, k)
    ensures a < b
  {
    if b < a { TimesFits(b, a, k); }
  }

  /** Clusters to allocate so that a file can hold `required` bytes. */
  function NewClusters(g: Geometry, e: DirEntry, required: nat): nat
    requires g.Valid()
  {
    var have, need := DivCeil(e.fileSize, g.ClusterBytes()), DivCeil(required, g.ClusterBytes());
    if have < need then need - have else 0
  }

  /** The state in which `write_buffer` starts to copy: chain long enough, no data changed yet. */
  ghost predicate Prepared(g: Geometry, d: seq<byte>, d1: seq<byte>, dir: DirEntryWithLoc, dir1: DirEntryWithLoc, ch': seq<nat>)
    requires ValidDisk(g, d) && ValidDisk(g, d1) && g.IsCluster(dir.loc.cluster) && dir.loc.offset + 32 <= g.ClusterBytes()
  {
    && IsChain(FatOf(g, d1), ch') && dir.loc.cluster !in ch' && OutsideKept(g, d, d1)
    && dir1.loc == dir.loc && dir1.entry.FirstCluster() == ch'[0] && dir1.entry.fileSize == dir.entry.fileSize
    && dir1.entry.name == dir.entry.name && dir1.entry.ext == dir.entry.ext && dir1.entry.attr == dir.entry.attr
    && (forall c :: 0 <= c < g.Entries() && c !in ch' ==> FatOf(g, d1)[c] == FatOf(g, d)[c])
    && (forall c :: g.IsCluster(c) && c != dir.loc.cluster ==> ClusterData(g, d1, c) == ClusterData(g, d, c))
    && var was, now := ClusterData(g, d, dir.loc.cluster), ClusterData(g, d1, dir.loc.cluster);
       if dir1 == dir then now == was
       else dir.entry.fileSize == 0 && now == Splice(was, dir.loc.offset, Serialize(dir1.entry))
  }

  lemma PreparedChain(g: Geometry, d: seq<byte>, d1: seq<byte>, dir: DirEntryWithLoc, dir1: DirEntryWithLoc, ch': seq<nat>)
    requires ValidDisk(g, d) && ValidDisk(g, d1) && g.IsCluster(dir.loc.cluster) && dir.loc.offset + 32 <= g.ClusterBytes()
    requires Prepared(g, d, d1, dir, dir1, ch')
    ensures IsChain(FatOf(g, d1), ch') && AreClusters(g, ch') && dir.loc.cluster !in ch'
    ensures dir1.loc == dir.loc && dir1.entry.fileSize == dir.entry.fileSize && OutsideKept(g, d, d1)
  {
    hide OutsideKept;
  }

  lemma SamePrepares(g: Geometry, d: seq<byte>, dir: DirEntryWithLoc, ch: seq<nat>)
    requires ValidDisk(g, d) && FileOk(g, d, dir.entry, ch) && EntryPlaceOk(g, d, dir.loc, ch) && ch != []
    ensures Prepared(g, d, d, dir, dir, ch)
  {
    hide FatOf;
  }

  lemma ExtendedPrepares(g: Geometry, d: seq<byte>, dir: DirEntryWithLoc, ch: seq<nat>, count: nat)
    requires ValidDisk(g, d) && 0 < count <= |FreeClusters(g, d)| && EntryPlaceOk(g, d, dir.loc, ch)
    requires FileOk(g, d, dir.entry, ch)
    ensures AreClusters(g, ch)
    ensures var added := FreeClusters(g, d)[..count];
      Prepared(g, d, ExtendedDisk(g, d, dir, ch, added), dir, ExtendedDir(dir, ch, added), ch + added)
  {
    hide FatOf, ExtendedDisk, FreeClusters, Serialize, ClusterData, OutsideKept;
    CeilBounds(dir.entry.fileSize, g.ClusterBytes());
    ExtendedFacts(g, d, dir, ch, count);
  }

  /** What `write_buffer` promises: the file holds its old bytes overwritten by `buffer` at
      `offset`, its entry says so, and every other byte of the volume is as before, but for the 32
      bytes of the entry when the file grew. */
  ghost predicate Written(g: Geometry, d: seq<byte>, d': seq<byte>, dir: DirEntryWithLoc, dir': DirEntryWithLoc,
                          ch: seq<nat>, ch': seq<nat>, offset: nat, buffer: seq<byte>)
    requires ValidDisk(g, d) && ValidDisk(g, d') && FileOk(g, d, dir.entry, ch)
    requires g.IsCluster(dir.loc.cluster) && dir.loc.offset + 32 <= g.ClusterBytes()
  {
    var size := dir.entry.fileSize;
    var size' := if offset + |buffer| > size then offset + |buffer| else size;
    && FileOk(g, d', dir'.entry, ch') && AreClusters(g, ch')
    && dir'.loc == dir.loc && dir'.entry.fileSize == size' && (size' == size ==> dir' == dir)
    && dir'.entry.name == dir.entry.name && dir'.entry.ext == dir.entry.ext && dir'.entry.attr == dir.entry.attr
    && size' <= |Flat(g, d, ch')| && offset + |buffer| <= |Flat(g, d, ch')|
    && Content(g, d', dir'.entry, ch') == Splice(Flat(g, d, ch'), offset, buffer)[..size']
    && (offset <= size ==>
         var old_ := Content(g, d, dir.entry, ch);
         Content(g, d', dir'.entry, ch') == old_[..offset] + buffer + old_[Min(size, offset + |buffer|)..])
    && OthersUntouched(g, d, d', ch', dir.loc.cluster) && OutsideKept(g, d, d')
    && ClusterData(g, d', dir.loc.cluster) ==
         if size' > size then Splice(ClusterData(g, d, dir.loc.cluster), dir.loc.offset, Serialize(dir'.entry))
         else ClusterData(g, d, dir.loc.cluster)
  }

  lemma FileLength(g: Geometry, d: seq<byte>, e: DirEntry, ch: seq<nat>)
    requires ValidDisk(g, d) && FileOk(g, d, e, ch)
    ensures |ch| == DivCeil(e.fileSize, g.ClusterBytes()) && AreClusters(g, ch)
  {
    hide FatOf, DivCeil;
  }

  /** The chain that `write_buffer` prepares holds the write, and is as long as the new size needs. */
  lemma WriteFits(g: Geometry, e: DirEntry, offset: nat, len: nat, n: nat, index: nat)
    requires g.Valid() && len > 0 && n == DivCeil(e.fileSize, g.ClusterBytes())
    requires Times(index, g.ClusterBytes()) <= offset
    ensures var cb := g.ClusterBytes();
            var n' := n + NewClusters(g, e, offset + len);
      && index < DivCeil(offset + len, cb) <= n'
      && offset + len <= Times(n', cb) && e.fileSize <= Times(n', cb)
      && n' == DivCeil(if offset + len > e.fileSize then offset + len else e.fileSize, cb)
  {
    hide DivCeil;
    var cb := g.ClusterBytes();
    var need := DivCeil(offset + len, cb);
    CeilBounds(offset + len, cb);
    CeilBounds(e.fileSize, cb);
    TimesLess(index, need, cb);
    if need < n {
      TimesFits(need, n, cb);
      TimesMonotone(need, n - 1, cb);
    } else if n < need {
      TimesFits(n, need, cb);
      TimesMonotone(n, need - 1, cb);
    }
  }

  lemma TimesMonotone(a: nat, b: nat, k: nat)
    requires a <= b
    ensures Times(a, k) <= Times(b, k)
  {
    if a < b { TimesFits(a, b, k); }
  }

  lemma DivTimes(a: nat, k: nat)
    requires k > 0
    ensures a == Times(a / k, k) + a % k
  {
    TimesIsProduct(a / k, k);
  }

  /** The final volume of a write, given the one after the data was copied. */
  ghost function FinalDisk(g: Geometry, d2: seq<byte>, dir': DirEntryWithLoc, grown: bool): (d3: seq<byte>)
    requires ValidDisk(g, d2) && g.IsCluster(dir'.loc.cluster) && dir'.loc.offset + 32 <= g.ClusterBytes()
    ensures |d3| == |d2|
  {
    if grown then PutData(g, d2, dir'.loc.cluster, dir'.loc.offset, Serialize(dir'.entry)) else d2
  }

  lemma FinalDiskFacts(g: Geometry, d1: seq<byte>, d2: seq<byte>, dir': DirEntryWithLoc, grown: bool, ch': seq<nat>)
    requires ValidDisk(g, d1) && KeepsOthers(g, d1, d2, ch') && AreClusters(g, ch')
    requires ValidDisk(g, d2) && g.IsCluster(dir'.loc.cluster) && dir'.loc.offset + 32 <= g.ClusterBytes()
    requires dir'.loc.cluster !in ch'
    ensures var d3 := FinalDisk(g, d2, dir', grown);
      && FatOf(g, d3) == FatOf(g, d1)
      && Flat(g, d3, ch') == Flat(g, d2, ch')
      && (forall c :: g.IsCluster(c) && c !in ch' && c != dir'.loc.cluster ==> ClusterData(g, d3, c) == ClusterData(g, d1, c))
      && OutsideKept(g, d1, d3)
      && var was := ClusterData(g, d1, dir'.loc.cluster);
         ClusterData(g, d3, dir'.loc.cluster) == if grown then Splice(was, dir'.loc.offset, Serialize(dir'.entry)) else was
  {
    hide FatOf, ClusterData, PutData, Serialize, Flat, OutsideKept;
    if grown {
      ExtendedFirst(g, d2, dir'.loc, Serialize(dir'.entry));
      OutsideTransitive(g, d1, d2, FinalDisk(g, d2, dir', grown));
      FlatFrame(g, d2, FinalDisk(g, d2, dir', grown), ch');
    }
  }

  lemma SpliceTwice(s: seq<byte>, at: nat, a: seq<byte>, b: seq<byte>)
    requires |a| == |b| && at + |a| <= |s|
    ensures Splice(Splice(s, at, a), at, b) == Splice(s, at, b)
  {
    assert Splice(Splice(s, at, a), at, b) == Splice(s, at, b);
  }

  lemma SplicedContent(old_: seq<byte>, stale: seq<byte>, size: nat, offset: nat, buffer: seq<byte>)
    requires offset <= size <= |old_| && offset + |buffer| <= |old_ + stale|
    ensures var size' := if offset + |buffer| > size then offset + |buffer| else size;
      Splice(old_ + stale, offset, buffer)[..size']
      == old_[..size][..offset] + buffer + old_[..size][Min(size, offset + |buffer|)..]
  {
    var size' := if offset + |buffer| > size then offset + |buffer| else size;
    var l := Splice(old_ + stale, offset, buffer)[..size'];
    var r := old_[..size][..offset] + buffer + old_[..size][Min(size, offset + |buffer|)..];
    SpliceAt(old_ + stale, offset, buffer);
    assert |l| == |r|;
    forall k | 0 <= k < |l| ensures l[k] == r[k] {
      if k >= offset + |buffer| {
        assert r[k] == old_[..size][Min(size, offset + |buffer|)..][k - offset - |buffer|];
      }
    }
  }

  lemma WrittenFacts(g: Geometry, d: seq<byte>, d1: seq<byte>, d2: seq<byte>, dir: DirEntryWithLoc, dir1: DirEntryWithLoc,
                     ch: seq<nat>, ch': seq<nat>, offset: nat, buffer: seq<byte>)
    requires ValidDisk(g, d) && ValidDisk(g, d1) && ValidDisk(g, d2)
    requires FileOk(g, d, dir.entry, ch) && EntryPlaceOk(g, d, dir.loc, ch)
    requires |buffer| > 0 && offset + |buffer| < TWO32
    requires ch <= ch' && |ch'| == |ch| + NewClusters(g, dir.entry, offset + |buffer|)
    requires Prepared(g, d, d1, dir, dir1, ch') && KeepsOthers(g, d1, d2, ch') && AreClusters(g, ch')
    requires offset + |buffer| <= |Flat(g, d1, ch')|
    requires Flat(g, d2, ch') == Splice(Flat(g, d1, ch'), offset, buffer)
    ensures var grown := offset + |buffer| > dir.entry.fileSize;
            var dir' := if grown then dir1.(entry := dir1.entry.(fileSize := offset + |buffer|)) else dir1;
      Written(g, d, FinalDisk(g, d2, dir', grown), dir, dir', ch, ch', offset, buffer)
  {
    hide FatOf, ClusterData, PutData, Serialize, Flat, DivCeil, Splice, FinalDisk, FileOk, KeepsOthers, Prepared, Content, OutsideKept;
    var grown := offset + |buffer| > dir.entry.fileSize;
    var dir' := if grown then dir1.(entry := dir1.entry.(fileSize := offset + |buffer|)) else dir1;
    PreparedChain(g, d, d1, dir, dir1, ch');
    WrittenFile(g, d, d1, d2, dir, dir1, dir', ch, ch', offset, buffer);
    WrittenContent(g, d, FinalDisk(g, d2, dir', grown), dir.entry, dir'.entry, ch, ch', offset, buffer);
    WrittenRest(g, d, d1, d2, dir, dir1, dir', grown, ch');
  }

  /** The entry and the bytes of the chain after a write. */
  lemma WrittenFile(g: Geometry, d: seq<byte>, d1: seq<byte>, d2: seq<byte>, dir: DirEntryWithLoc, dir1: DirEntryWithLoc,
                    dir': DirEntryWithLoc, ch: seq<nat>, ch': seq<nat>, offset: nat, buffer: seq<byte>)
    requires ValidDisk(g, d) && ValidDisk(g, d1) && ValidDisk(g, d2)
    requires FileOk(g, d, dir.entry, ch) && EntryPlaceOk(g, d, dir.loc, ch) && |buffer| > 0
    requires |ch'| == |ch| + NewClusters(g, dir.entry, offset + |buffer|) && offset + |buffer| < TWO32
    requires Prepared(g, d, d1, dir, dir1, ch') && KeepsOthers(g, d1, d2, ch') && AreClusters(g, ch')
    requires offset + |buffer| <= |Flat(g, d1, ch')|
    requires Flat(g, d2, ch') == Splice(Flat(g, d1, ch'), offset, buffer)
    requires dir' == if offset + |buffer| > dir.entry.fileSize
                     then dir1.(entry := dir1.entry.(fileSize := offset + |buffer|)) else dir1
    ensures var d3 := FinalDisk(g, d2, dir', offset + |buffer| > dir.entry.fileSize);
      && FileOk(g, d3, dir'.entry, ch')
      && offset + |buffer| <= |Flat(g, d, ch')|
      && Flat(g, d3, ch') == Splice(Flat(g, d, ch'), offset, buffer)
      && dir'.entry.name == dir.entry.name && dir'.entry.ext == dir.entry.ext && dir'.entry.attr == dir.entry.attr
      && (offset + |buffer| <= dir.entry.fileSize ==> dir' == dir)
  {
    hide FatOf, ClusterData, PutData, Serialize, Flat, DivCeil, Splice, FinalDisk, KeepsOthers, OutsideKept;
    FileLength(g, d, dir.entry, ch);
    WriteFits(g, dir.entry, offset, |buffer|, |ch|, 0);
    FinalDiskFacts(g, d1, d2, dir', offset + |buffer| > dir.entry.fileSize, ch');
    FlatFrame(g, d, d1, ch');
  }

  lemma WrittenContent(g: Geometry, d: seq<byte>, d3: seq<byte>, e: DirEntry, e': DirEntry,
                       ch: seq<nat>, ch': seq<nat>, offset: nat, buffer: seq<byte>)
    requires ValidDisk(g, d) && ValidDisk(g, d3) && FileOk(g, d, e, ch) && FileOk(g, d3, e', ch')
    requires ch <= ch' && AreClusters(g, ch')
    requires e'.fileSize == if offset + |buffer| > e.fileSize then offset + |buffer| else e.fileSize
    requires offset + |buffer| <= |Flat(g, d, ch')|
    requires Flat(g, d3, ch') == Splice(Flat(g, d, ch'), offset, buffer)
    ensures e'.fileSize <= |Flat(g, d, ch')|
    ensures Content(g, d3, e', ch') == Splice(Flat(g, d, ch'), offset, buffer)[..e'.fileSize]
    ensures offset <= e.fileSize ==>
         var old_ := Content(g, d, e, ch);
         Content(g, d3, e', ch') == old_[..offset] + buffer + old_[Min(e.fileSize, offset + |buffer|)..]
  {
    hide FatOf, Flat, DivCeil, Splice, FileOk;
    FileLength(g, d, e, ch);
    FileLength(g, d3, e', ch');
    CeilBounds(e.fileSize, g.ClusterBytes());
    CeilBounds(e'.fileSize, g.ClusterBytes());
    ContentSplit(g, d, ch, ch', e.fileSize, offset, buffer);
  }

  /** Everything but the file after a write. */
  lemma WrittenRest(g: Geometry, d: seq<byte>, d1: seq<byte>, d2: seq<byte>, dir: DirEntryWithLoc, dir1: DirEntryWithLoc,
                    dir': DirEntryWithLoc, grown: bool, ch': seq<nat>)
    requires ValidDisk(g, d) && ValidDisk(g, d1) && ValidDisk(g, d2)
    requires g.IsCluster(dir.loc.cluster) && dir.loc.offset + 32 <= g.ClusterBytes()
    requires Prepared(g, d, d1, dir, dir1, ch') && KeepsOthers(g, d1, d2, ch') && AreClusters(g, ch')
    requires dir'.loc == dir.loc && (dir.entry.fileSize == 0 ==> grown)
    ensures var d3 := FinalDisk(g, d2, dir', grown);
      && OthersUntouched(g, d, d3, ch', dir.loc.cluster) && OutsideKept(g, d, d3)
      && ClusterData(g, d3, dir.loc.cluster) ==
           if grown then Splice(ClusterData(g, d, dir.loc.cluster), dir.loc.offset, Serialize(dir'.entry))
           else ClusterData(g, d, dir.loc.cluster)
  {
    hide FatOf, ClusterData, PutData, Serialize, Flat, Splice, FinalDisk, KeepsOthers, OutsideKept;
    FinalDiskFacts(g, d1, d2, dir', grown, ch');
    OutsideTransitive(g, d, d1, FinalDisk(g, d2, dir', grown));
    if dir1 != dir {
      SpliceTwice(ClusterData(g, d, dir.loc.cluster), dir.loc.offset, Serialize(dir1.entry), Serialize(dir'.entry));
    }
  }

  lemma ContentSplit(g: Geometry, d: seq<byte>, ch: seq<nat>, ch': seq<nat>, size: nat, offset: nat, buffer: seq<byte>)
    requires ValidDisk(g, d) && AreClusters(g, ch') && ch <= ch'
    requires AreClusters(g, ch) && size <= |Flat(g, d, ch)| && offset + |buffer| <= |Flat(g, d, ch')|
    ensures offset <= size ==>
      var size' := if offset + |buffer| > size then offset + |buffer| else size;
      && size' <= |Flat(g, d, ch')|
      && Splice(Flat(g, d, ch'), offset, buffer)[..size']
         == Flat(g, d, ch)[..size][..offset] + buffer + Flat(g, d, ch)[..size][Min(size, offset + |buffer|)..]
  {
    hide Flat, Splice;
    var tail := ch'[|ch|..];
    assert ch' == ch + tail;
    FlatConcat(g, d, ch, tail);
    if offset <= size {
      SplicedContent(Flat(g, d, ch), Flat(g, d, tail), size, offset, buffer);
    }
  }

  lemma CeilBounds(a: nat, k: nat)
    requires k > 0
    ensures a <= Times(DivCeil(a, k), k)
    ensures a > 0 ==> DivCeil(a, k) > 0 && Times(DivCeil(a, k) - 1, k) < a
    ensures a == 0 ==> DivCeil(a, k) == 0
  {
    var n := DivCeil(a, k);
    TimesIsProduct(n, k);
    if a > 0 { TimesIsProduct(n - 1, k); }
  }

  lemma {:induction false} FlatSlice(g: Geometry, d: seq<byte>, ch: seq<nat>, j: nat)
    requires ValidDisk(g, d) && AreClusters(g, ch) && j < |ch|
    ensures Times(j, g.ClusterBytes()) + g.ClusterBytes() <= Times(|ch|, g.ClusterBytes())
    ensures Flat(g, d, ch)[Times(j, g.ClusterBytes())..Times(j, g.ClusterBytes()) + g.ClusterBytes()] == ClusterData(g, d, ch[j])
  {
    hide ClusterData;
    TimesFits(j, |ch|, g.ClusterBytes());
    var cb := g.ClusterBytes();
    if j == 0 {
      assert Flat(g, d, ch)[..cb] == ClusterData(g, d, ch[0]);
    } else {
      FlatSlice(g, d, ch[1..], j - 1);
      SliceRight(ClusterData(g, d, ch[0]), Flat(g, d, ch[1..]), Times(j - 1, cb), Times(j - 1, cb) + cb);
    }
  }

  lemma SliceRight(a: seq<byte>, b: seq<byte>, lo: nat, hi: nat)
    requires lo <= hi <= |b|
    ensures (a + b)[|a| + lo..|a| + hi] == b[lo..hi]
  {
    assert (a + b)[|a| + lo..|a| + hi] == b[lo..hi];
  }

  /** The part of the `j`-th cluster that falls in the first `target` bytes of a chain. */
  lemma FlatPiece(g: Geometry, d: seq<byte>, ch: seq<nat>, j: nat, target: nat)
    requires ValidDisk(g, d) && AreClusters(g, ch) && j < |ch| && target <= Times(|ch|, g.ClusterBytes())
    ensures var lo := Min(Times(j, g.ClusterBytes()), target);
            var len := Min(g.ClusterBytes(), target - lo);
      && Flat(g, d, ch)[..target][lo..lo + len] == ClusterData(g, d, ch[j])[..len]
      && lo + len == Min(Times(j + 1, g.ClusterBytes()), target)
  {
    hide ClusterData, Flat, Times;
    FlatSlice(g, d, ch, j);
    NextTimes(j, g.ClusterBytes());
    var lo := Min(Times(j, g.ClusterBytes()), target);
    var len := Min(g.ClusterBytes(), target - lo);
    if len > 0 { SlicePiece(Flat(g, d, ch), lo, g.ClusterBytes(), len, target); }
  }

  lemma NoTimes(k: nat)
    ensures Times(0, k) == 0
  {
  }

  lemma NextTimes(j: nat, k: nat)
    ensures Times(j + 1, k) == Times(j, k) + k
  {
  }

  lemma SlicePiece(s: seq<byte>, lo: nat, k: nat, len: nat, target: nat)
    requires lo + len <= target <= |s| && len <= k && lo + k <= |s|
    ensures s[..target][lo..lo + len] == s[lo..lo + k][..len]
  {
    WindowSlice(s, 0, target, lo, lo + len);
    WindowSlice(s, lo, lo + k, 0, len);
  }

  lemma PrefixSplice(s: seq<byte>, data: seq<byte>)
    requires |data| <= |s|
    ensures Splice(s, 0, data) == data + s[|data|..]
  {
  }

  /** Where the parts of an in-cluster write meet: after the head the position is sector-aligned,
      and what follows the last whole sector fits in one sector. */
  lemma SectorSplit(off: nat, len: nat, cursor: nat)
    requires cursor == if off % 512 != 0 || len <= 512 then Min(len, 512 - off % 512) else 0
    requires cursor < len
    ensures var hasHead := if cursor > 0 then 1 else 0;
            var middleEnd := (off + len) / 512 * 512;
      && (off / 512 + hasHead) * 512 == off + cursor <= middleEnd <= off + len
      && off + len - middleEnd == (off + len) % 512 < 512
      && (middleEnd - off - cursor) % 512 == 0
  {
    assert (off + cursor) % 512 == 0;
  }

  lemma FreeAfterTaking(g: Geometry, d: seq<byte>, k: nat)
    requires ValidDisk(g, d) && k <= |FreeClusters(g, d)|
    ensures FreeClusters(g, LinkDisk(g, d, FreeClusters(g, d)[..k])) == FreeClusters(g, d)[k..]
    ensures LinkDisk(g, d, FreeClusters(g, d)[..0]) == d
    ensures k == 1 ==> LinkDisk(g, d, FreeClusters(g, d)[..1]) == PutEntry(g, d, FreeClusters(g, d)[0], EOC)
    ensures k > 1 ==> var f := FreeClusters(g, d);
      LinkDisk(g, d, f[..k]) == PutEntry(g, PutEntry(g, LinkDisk(g, d, f[..k - 1]), f[k - 2], f[k - 1]), f[k - 1], EOC)
  {
    hide Link, PutEntry, FatOf, FreeList;
    if k > 1 {
      assert FreeClusters(g, d)[..k][..k - 1] == FreeClusters(g, d)[..k - 1];
    }
    LinkDiskFat(g, d, FreeClusters(g, d)[..k]);
    LinkTakes(FatOf(g, d), g.rootCluster + 1, g.clusterCount, k);
  }

  lemma LastIsEoc(g: Geometry, d: seq<byte>, n: nat)
    requires ValidDisk(g, d) && 0 < n <= |FreeClusters(g, d)|
    ensures var f := FreeClusters(g, d);
      PutEntry(g, LinkDisk(g, d, f[..n]), f[n - 1], EOC) == LinkDisk(g, d, f[..n])
  {
    hide PutEntry, LinkDisk, Link, FatOf, FreeList;
    var f := FreeClusters(g, d);
    LinkDiskFat(g, d, f[..n]);
    FreePrefix(FatOf(g, d), g.rootCluster + 1, g.clusterCount, n);
    LinkEntries(FatOf(g, d), f[..n]);
    PutEntrySame(g, LinkDisk(g, d, f[..n]), f[n - 1], EOC);
  }
}
