/** A directory of files on a FAT32 volume as one state machine: over any run of creating, writing and
    deleting, the bytes of the volume refine a map from directory slots to files. */
module FatSystem {
  import opened Wrappers
  import opened Bytes
  import opened FatChains
  import opened FatVolume
  import opened FatEntry
  import opened Fat32Driver
  import opened FatDirectory
  import opened FatFiles
  import opened FatFree

  // ---------------------------------------------------------------- slots

  /** A slot of the directory with the chain `dch`. */
  ghost predicate IsSlot(g: Geometry, dch: seq<nat>, loc: ClusterOffset)
    requires g.Valid()
  {
    loc.cluster in dch && loc.offset % 32 == 0 && loc.offset + 32 <= g.ClusterBytes()
  }

  ghost function SlotData(g: Geometry, d: seq<byte>, loc: ClusterOffset): (r: seq<byte>)
    requires ValidDisk(g, d) && g.IsCluster(loc.cluster) && loc.offset + 32 <= g.ClusterBytes()
    ensures |r| == 32
  {
    ClusterData(g, d, loc.cluster)[loc.offset..loc.offset + 32]
  }

  ghost function EntryOf(g: Geometry, d: seq<byte>, loc: ClusterOffset): DirEntry
    requires ValidDisk(g, d) && g.IsCluster(loc.cluster) && loc.offset + 32 <= g.ClusterBytes()
  {
    Parse(SlotData(g, d, loc))
  }

  predicate LiveName(b: byte) { b != 0 && b != DELETED }

  ghost predicate IsLive(g: Geometry, d: seq<byte>, loc: ClusterOffset)
    requires ValidDisk(g, d) && g.IsCluster(loc.cluster) && loc.offset + 32 <= g.ClusterBytes()
  {
    LiveName(SlotData(g, d, loc)[0])
  }

  // ---------------------------------------------------------------- the state

  /** The bytes of the volume, and the chain of the file in each live slot. */
  datatype Volume = Volume(d: seq<byte>, files: map<ClusterOffset, seq<nat>>)

  /** Entry 0 of the table ends a chain, as formatting leaves it, or is free, as deleting an empty file does. */
  predicate ReservedOk(fat: Fat) { |fat| > 0 && (IsEoc(fat[0]) || fat[0] == 0) }

  ghost predicate DirOk(g: Geometry, dch: seq<nat>, d: seq<byte>)
  {
    && ValidDisk(g, d) && AreClusters(g, dch) && IsChain(FatOf(g, d), dch) && WellFormedDir(g, d, dch)
    && ReservedOk(FatOf(g, d))
  }

  /** The live slots are the files. */
  ghost predicate SlotsOk(g: Geometry, dch: seq<nat>, v: Volume)
    requires ValidDisk(g, v.d) && AreClusters(g, dch)
  {
    && (forall loc :: loc in v.files ==> IsSlot(g, dch, loc))
    && (forall loc :: IsSlot(g, dch, loc) ==> (IsLive(g, v.d, loc) <==> loc in v.files))
  }

  ghost predicate FileAtOk(g: Geometry, dch: seq<nat>, v: Volume, loc: ClusterOffset)
    requires ValidDisk(g, v.d) && AreClusters(g, dch) && loc in v.files && IsSlot(g, dch, loc)
  {
    FileOk(g, v.d, EntryOf(g, v.d, loc), v.files[loc]) && Disjoint(v.files[loc], dch)
  }

  /** Every file is well formed; no two files, nor a file and the directory, share a cluster. */
  ghost predicate VolumeOk(g: Geometry, dch: seq<nat>, v: Volume)
  {
    && DirOk(g, dch, v.d) && SlotsOk(g, dch, v)
    && (forall loc :: loc in v.files ==> FileAtOk(g, dch, v, loc))
    && (forall a, b :: a in v.files && b in v.files && a != b ==> Disjoint(v.files[a], v.files[b]))
  }

  datatype File = File(name: Name, ext: Ext, bytes: seq<byte>)

  ghost function FileAt(g: Geometry, dch: seq<nat>, v: Volume, loc: ClusterOffset): File
    requires ValidDisk(g, v.d) && AreClusters(g, dch) && loc in v.files && IsSlot(g, dch, loc) && FileAtOk(g, dch, v, loc)
  {
    var e := EntryOf(g, v.d, loc);
    File(e.name, e.ext, Content(g, v.d, e, v.files[loc]))
  }

  /** What the volume means. */
  ghost function Files(g: Geometry, dch: seq<nat>, v: Volume): (m: map<ClusterOffset, File>)
    requires VolumeOk(g, dch, v)
  {
    map loc | loc in v.files :: FileAt(g, dch, v, loc)
  }

  // ---------------------------------------------------------------- operations

  datatype Op =
    | Create(name: FileName, time: u16, date: u16)
    | Write(loc: ClusterOffset, offset: nat, buffer: seq<byte>)
    | Delete(loc: ClusterOffset)

  ghost function DirAt(g: Geometry, d: seq<byte>, loc: ClusterOffset): DirEntryWithLoc
    requires ValidDisk(g, d) && g.IsCluster(loc.cluster) && loc.offset + 32 <= g.ClusterBytes()
  {
    DirEntryWithLoc(EntryOf(g, d, loc), loc)
  }

  /** The entries freed with a file: its chain, or entry 0 for an empty file. */
  function FreedWalk(ch: seq<nat>): seq<nat> { if ch == [] then [0] else ch }

  ghost predicate CreateStep(g: Geometry, dch: seq<nat>, v: Volume, op: Op, v': Volume)
    requires VolumeOk(g, dch, v) && op.Create?
  {
    var pos := FreePosition(g, v.d, dch);
    && pos.Some? && |StoredParts(op.name).1| <= 3 && Visible(op.name)
    && v' == Volume(CreatedDisk(g, v.d, dch, op.name, op.time, op.date), v.files[pos.value := []])
  }

  ghost predicate WriteStep(g: Geometry, dch: seq<nat>, v: Volume, op: Op, v': Volume, dir': DirEntryWithLoc, n: nat)
    requires VolumeOk(g, dch, v) && op.Write?
  {
    && op.loc in v.files && IsSlot(g, dch, op.loc) && FileAtOk(g, dch, v, op.loc) && n <= |FreeClusters(g, v.d)|
    && ValidDisk(g, v'.d)
    && var ch := v.files[op.loc];
       var ch' := ch + FreeClusters(g, v.d)[..n];
       && Written(g, v.d, v'.d, DirAt(g, v.d, op.loc), dir', ch, ch', op.offset, op.buffer)
       && v'.files == v.files[op.loc := ch']
  }

  ghost predicate DeleteStep(g: Geometry, dch: seq<nat>, v: Volume, op: Op, v': Volume)
    requires VolumeOk(g, dch, v) && op.Delete?
  {
    && op.loc in v.files && IsSlot(g, dch, op.loc)
    && IsWalk(FatOf(g, v.d), FreedWalk(v.files[op.loc]))
    && v' == Volume(DeletedDisk(g, v.d, DirAt(g, v.d, op.loc), FreedWalk(v.files[op.loc])), v.files - {op.loc})
  }

  /** The driver takes the volume from `v` to `v'`. */
  ghost predicate VolumeStep(g: Geometry, dch: seq<nat>, v: Volume, op: Op, v': Volume)
  {
    VolumeOk(g, dch, v) &&
    match op
    case Create(_, _, _) => CreateStep(g, dch, v, op, v')
    case Write(_, _, _) => exists dir', n :: WriteStep(g, dch, v, op, v', dir', n)
    case Delete(_) => DeleteStep(g, dch, v, op, v')
  }

  /** `now` is `was` with `buffer` at `offset`; a gap behind the old end holds anything. */
  ghost predicate Overwritten(was: seq<byte>, offset: nat, buffer: seq<byte>, now: seq<byte>)
  {
    && |now| == (if offset + |buffer| > |was| then offset + |buffer| else |was|)
    && now[offset..offset + |buffer|] == buffer
    && forall i :: 0 <= i < |was| && (i < offset || offset + |buffer| <= i) ==> now[i] == was[i]
  }

  function EmptyFile(name: FileName, time: u16, date: u16): File
    requires |StoredParts(name).1| <= 3
  {
    var e := NewEntry(name, time, date);
    File(e.name, e.ext, [])
  }

  /** The same operation on the map of files. */
  ghost predicate FileStep(m: map<ClusterOffset, File>, op: Op, m': map<ClusterOffset, File>)
  {
    match op
    case Create(name, time, date) =>
      |StoredParts(name).1| <= 3 && exists pos :: pos !in m && m' == m[pos := EmptyFile(name, time, date)]
    case Write(loc, offset, buffer) =>
      && loc in m && m'.Keys == m.Keys
      && (forall l :: l in m && l != loc ==> m'[l] == m[l])
      && m'[loc].name == m[loc].name && m'[loc].ext == m[loc].ext
      && Overwritten(m[loc].bytes, offset, buffer, m'[loc].bytes)
    case Delete(loc) => loc in m && m' == m - {loc}
  }

  // ---------------------------------------------------------------- what a slot write does

  /** In the directory, `d'` differs from `d` in one slot, which now holds `e`. */
  ghost predicate SlotWritten(g: Geometry, dch: seq<nat>, d: seq<byte>, d': seq<byte>, loc: ClusterOffset, e: DirEntry)
    requires ValidDisk(g, d) && ValidDisk(g, d') && AreClusters(g, dch)
  {
    && IsSlot(g, dch, loc)
    && forall c :: c in dch ==> g.IsCluster(c) && ClusterData(g, d', c) == WithSlot(ClusterData(g, d, c), c, loc, e)
  }

  function WithSlot(data: seq<byte>, c: nat, loc: ClusterOffset, e: DirEntry): seq<byte>
  {
    if c == loc.cluster && loc.offset + 32 <= |data| then Splice(data, loc.offset, Serialize(e)) else data
  }

  lemma InDir(g: Geometry, dch: seq<nat>, loc: ClusterOffset)
    requires g.Valid() && AreClusters(g, dch) && IsSlot(g, dch, loc)
    ensures g.IsCluster(loc.cluster)
  {
  }

  lemma SlotAfter(g: Geometry, dch: seq<nat>, d: seq<byte>, d': seq<byte>, loc: ClusterOffset, e: DirEntry, l: ClusterOffset)
    requires ValidDisk(g, d) && ValidDisk(g, d') && AreClusters(g, dch)
    requires SlotWritten(g, dch, d, d', loc, e) && IsSlot(g, dch, l)
    ensures g.IsCluster(l.cluster) && SlotData(g, d', l) == if l == loc then Serialize(e) else SlotData(g, d, l)
  {
    hide ClusterData, Serialize, Splice;
    if l.cluster == loc.cluster {
      var data := ClusterData(g, d, loc.cluster);
      if l.offset == loc.offset {
        SpliceReads(data, loc.offset, Serialize(e));
      } else {
        SpliceApart(data, loc.offset, Serialize(e), l.offset);
      }
    }
  }

  lemma SpliceApart(data: seq<byte>, at: nat, bytes: seq<byte>, other: nat)
    requires |bytes| == 32 && at + 32 <= |data| && other + 32 <= |data| && at % 32 == 0 && other % 32 == 0 && at != other
    ensures Splice(data, at, bytes)[other..other + 32] == data[other..other + 32]
  {
    assert other + 32 <= at || at + 32 <= other;
    SpliceKeeps(data, at, bytes, other, other + 32);
  }

  lemma StoredSlot(g: Geometry, d: seq<byte>, loc: ClusterOffset, e: DirEntry)
    requires ValidDisk(g, d) && g.IsCluster(loc.cluster) && loc.offset + 32 <= g.ClusterBytes()
    requires SlotData(g, d, loc) == Serialize(e)
    ensures EntryOf(g, d, loc) == e && (IsLive(g, d, loc) <==> LiveName(e.name[0]))
  {
    ParseSerialize(e);
  }

  /** Writing a non-zero name into a slot that was used, or behind used slots only, keeps the end mark. */
  lemma MarkedAfter(data: seq<byte>, i: nat, bytes: seq<byte>)
    requires EndMarked(data) && Slots(data, i + 1) && |bytes| == 32 && bytes[0] != 0
    requires data[32 * i] != 0 || forall j :: 0 <= j < i ==> data[32 * j] != 0
    ensures EndMarked(Splice(data, 32 * i, bytes))
  {
    hide Splice;
    var data' := Splice(data, 32 * i, bytes);
    SpliceAt(data, 32 * i, bytes);
    forall k {:trigger Slots(data', k)} | 0 <= k && Slots(data', k) && 32 * k + 32 < |data'| && data'[32 * k] == 0
      ensures data'[32 * k + 32] == 0
    {
      assert Slots(data, k);
      assert data'[32 * i] == bytes[0];
      assert k != i && data[32 * k] == 0;
      assert data[32 * k + 32] == 0;
      assert k + 1 != i;
    }
  }

  lemma DirAfter(g: Geometry, dch: seq<nat>, d: seq<byte>, d': seq<byte>, loc: ClusterOffset, e: DirEntry)
    requires DirOk(g, dch, d) && ValidDisk(g, d') && IsChain(FatOf(g, d'), dch) && ReservedOk(FatOf(g, d'))
    requires SlotWritten(g, dch, d, d', loc, e) && e.name[0] != 0
    requires g.IsCluster(loc.cluster) && var data := ClusterData(g, d, loc.cluster);
      data[loc.offset] != 0 || forall j :: 0 <= j < loc.offset / 32 ==> data[32 * j] != 0
    ensures DirOk(g, dch, d')
  {
    hide FatOf, ClusterData, Serialize, Splice, EndMarked;
    var data, i := ClusterData(g, d, loc.cluster), loc.offset / 32;
    assert loc.offset == 32 * i;
    forall k | 0 <= k < |dch| ensures EndMarked(ClusterData(g, d', dch[k])) {
      assert dch[k] in dch;
      if dch[k] == loc.cluster {
        SerializedName(e);
        SlotsAligned(g, data, i);
        MarkedAfter(data, i, Serialize(e));
      }
    }
  }

  lemma SerializedName(e: DirEntry)
    ensures Serialize(e)[0] == e.name[0]
  {
  }

  lemma SlotsAligned(g: Geometry, data: seq<byte>, i: nat)
    requires g.Valid() && |data| == g.ClusterBytes() && 32 * i + 32 <= |data|
    ensures Slots(data, i + 1)
  {
  }

  // ---------------------------------------------------------------- what stays

  /** A file whose slot, table entries and clusters are as before is as before. */
  lemma FileKept(g: Geometry, dch: seq<nat>, v: Volume, v': Volume, l: ClusterOffset)
    requires VolumeOk(g, dch, v) && ValidDisk(g, v'.d) && l in v.files && l in v'.files && v'.files[l] == v.files[l]
    requires IsSlot(g, dch, l) && g.IsCluster(l.cluster) && SlotData(g, v'.d, l) == SlotData(g, v.d, l)
    requires AreClusters(g, v.files[l])
    requires forall i :: 0 <= i < |v.files[l]| ==> FatOf(g, v'.d)[v.files[l][i]] == FatOf(g, v.d)[v.files[l][i]]
    requires forall i :: 0 <= i < |v.files[l]| ==> ClusterData(g, v'.d, v.files[l][i]) == ClusterData(g, v.d, v.files[l][i])
    ensures FileAtOk(g, dch, v, l) && FileAtOk(g, dch, v', l) && FileAt(g, dch, v', l) == FileAt(g, dch, v, l)
  {
    hide FatOf, ClusterData, Content, Parse, SlotData, WellFormedDir;
    assert FileAtOk(g, dch, v, l);
    FileFrame(g, v.d, v'.d, EntryOf(g, v.d, l), v.files[l]);
  }

  lemma FileFacts(g: Geometry, dch: seq<nat>, v: Volume, l: ClusterOffset)
    requires VolumeOk(g, dch, v) && l in v.files
    ensures IsSlot(g, dch, l) && g.IsCluster(l.cluster) && AreClusters(g, v.files[l]) && FileAtOk(g, dch, v, l)
    ensures Disjoint(v.files[l], dch) && forall i :: 0 <= i < |v.files[l]| ==> v.files[l][i] !in dch
    ensures IsLive(g, v.d, l)
  {
    hide FatOf, ClusterData, Parse, SlotData, WellFormedDir, FileOk, DivCeil;
    assert FileAtOk(g, dch, v, l);
    FileLength(g, v.d, EntryOf(g, v.d, l), v.files[l]);
  }

  /** The first free slot of a directory is a slot, is free, and has only live slots before it. */
  lemma {:induction false} FreePositionFacts(g: Geometry, d: seq<byte>, ch: seq<nat>)
    requires ValidDisk(g, d) && AreClusters(g, ch) && FreePosition(g, d, ch).Some?
    ensures var pos := FreePosition(g, d, ch).value;
      && IsSlot(g, ch, pos) && g.IsCluster(pos.cluster) && !IsLive(g, d, pos)
      && forall j :: 0 <= j < pos.offset / 32 ==> ClusterData(g, d, pos.cluster)[32 * j] != 0
  {
    hide ClusterData, FreeSlot;
    var data := ClusterData(g, d, ch[0]);
    if FreeSlot(data, 0).Some? {
      FreeSlotByte(data, 0);
    } else {
      FreePositionFacts(g, d, ch[1..]);
    }
  }

  /** Table entries and data of a chain are as before. */
  ghost predicate ChainSame(g: Geometry, d: seq<byte>, d': seq<byte>, ch: seq<nat>)
    requires ValidDisk(g, d) && ValidDisk(g, d')
  {
    && AreClusters(g, ch)
    && (forall i :: 0 <= i < |ch| ==> FatOf(g, d')[ch[i]] == FatOf(g, d)[ch[i]])
    && (forall i :: 0 <= i < |ch| ==> ClusterData(g, d', ch[i]) == ClusterData(g, d, ch[i]))
  }

  lemma SlotsAfter(g: Geometry, dch: seq<nat>, v: Volume, v': Volume, loc: ClusterOffset, e: DirEntry)
    requires ValidDisk(g, v.d) && ValidDisk(g, v'.d) && AreClusters(g, dch)
    requires SlotsOk(g, dch, v) && SlotWritten(g, dch, v.d, v'.d, loc, e)
    requires v'.files.Keys == if LiveName(e.name[0]) then v.files.Keys + {loc} else v.files.Keys - {loc}
    ensures SlotsOk(g, dch, v')
  {
    hide ClusterData, Serialize, Parse, SlotData, SlotWritten;
    assert IsSlot(g, dch, loc) by { WrittenIsSlot(g, dch, v.d, v'.d, loc, e); }
    forall l | IsSlot(g, dch, l) ensures g.IsCluster(l.cluster) && (IsLive(g, v'.d, l) <==> l in v'.files) {
      SlotAfter(g, dch, v.d, v'.d, loc, e, l);
      if l == loc { StoredSlot(g, v'.d, loc, e); }
    }
  }

  lemma WrittenIsSlot(g: Geometry, dch: seq<nat>, d: seq<byte>, d': seq<byte>, loc: ClusterOffset, e: DirEntry)
    requires ValidDisk(g, d) && ValidDisk(g, d') && AreClusters(g, dch) && SlotWritten(g, dch, d, d', loc, e)
    ensures IsSlot(g, dch, loc)
  {
  }

  /** The file in another slot, its chain untouched, is as before. */
  lemma OtherAfter(g: Geometry, dch: seq<nat>, v: Volume, v': Volume, loc: ClusterOffset, e: DirEntry, l: ClusterOffset)
    requires VolumeOk(g, dch, v) && ValidDisk(g, v'.d) && AreClusters(g, dch) && SlotWritten(g, dch, v.d, v'.d, loc, e)
    requires l in v.files && l != loc && l in v'.files && v'.files[l] == v.files[l] && ChainSame(g, v.d, v'.d, v.files[l])
    ensures IsSlot(g, dch, l) && FileAtOk(g, dch, v, l) && FileAtOk(g, dch, v', l)
    ensures FileAt(g, dch, v', l) == FileAt(g, dch, v, l)
  {
    hide VolumeOk, ClusterData, FatOf, SlotData, SlotWritten, FileAtOk, FileAt;
    DirFacts(g, dch, v);
    FileFacts(g, dch, v, l);
    SlotAfter(g, dch, v.d, v'.d, loc, e, l);
    FileKept(g, dch, v, v', l);
  }

  lemma DirFacts(g: Geometry, dch: seq<nat>, v: Volume)
    requires VolumeOk(g, dch, v)
    ensures ValidDisk(g, v.d) && AreClusters(g, dch) && DirOk(g, dch, v.d) && SlotsOk(g, dch, v)
    ensures IsChain(FatOf(g, v.d), dch) && ReservedOk(FatOf(g, v.d))
  {
  }

  /** The pieces of a good volume. */
  lemma Whole(g: Geometry, dch: seq<nat>, v: Volume)
    requires DirOk(g, dch, v.d) && SlotsOk(g, dch, v)
    requires forall l :: l in v.files ==> FileAtOk(g, dch, v, l)
    requires forall a, b :: a in v.files && b in v.files && a != b ==> Disjoint(v.files[a], v.files[b])
    ensures VolumeOk(g, dch, v)
  {
  }

  // ---------------------------------------------------------------- creating

  lemma CreateKeeps(g: Geometry, dch: seq<nat>, v: Volume, op: Op, v': Volume)
    requires VolumeOk(g, dch, v) && op.Create? && CreateStep(g, dch, v, op, v')
    ensures VolumeOk(g, dch, v') && FileStep(Files(g, dch, v), op, Files(g, dch, v'))
  {
    hide VolumeOk, DirOk, SlotsOk, FileAtOk, FileAt, Files, SlotWritten, ClusterData, FatOf, Serialize, IsLive, NewEntry, StoredParts, Visible, FreePosition, CreatedDisk, EmptyFile;
    DirFacts(g, dch, v);
    var pos, e := FreePosition(g, v.d, dch).value, NewEntry(op.name, op.time, op.date);
    CreateWrites(g, dch, v, op.name, op.time, op.date);
    SlotsAfter(g, dch, v, v', pos, e);
    forall l | l in v.files
      ensures IsSlot(g, dch, l) && FileAtOk(g, dch, v, l) && FileAtOk(g, dch, v', l) && FileAt(g, dch, v', l) == FileAt(g, dch, v, l)
    {
      FileFacts(g, dch, v, l);
      OtherAfter(g, dch, v, v', pos, e, l);
    }
    NewFile(g, dch, v, v', op.name, op.time, op.date);
    CreateDisjoint(g, dch, v, v', pos);
    Whole(g, dch, v');
    FilesAre(g, dch, v, v', pos, EmptyFile(op.name, op.time, op.date));
  }

  /** The slot it fills was not a file, and nothing else changes. */
  lemma CreateWrites(g: Geometry, dch: seq<nat>, v: Volume, name: FileName, time: u16, date: u16)
    requires VolumeOk(g, dch, v) && FreePosition(g, v.d, dch).Some? && |StoredParts(name).1| <= 3 && Visible(name)
    ensures var pos, e, d' := FreePosition(g, v.d, dch).value, NewEntry(name, time, date), CreatedDisk(g, v.d, dch, name, time, date);
      && IsSlot(g, dch, pos) && pos !in v.files && LiveName(e.name[0])
      && SlotWritten(g, dch, v.d, d', pos, e) && DirOk(g, dch, d')
      && forall l :: l in v.files ==> ChainSame(g, v.d, d', v.files[l])
  {
    hide FatOf, ClusterData, PutData, Serialize, Parse, WellFormedDir, FreePosition, FileAtOk, IsChain, StoredParts, NewEntry, Visible, Splice;
    var pos, e, d' := FreePosition(g, v.d, dch).value, NewEntry(name, time, date), CreatedDisk(g, v.d, dch, name, time, date);
    FreePositionFacts(g, v.d, dch);
    StoredFirstByte(name, time, date);
    ExtendedFirst(g, v.d, pos, Serialize(e));
    assert SlotWritten(g, dch, v.d, d', pos, e);
    DirAfter(g, dch, v.d, d', pos, e);
    forall l | l in v.files ensures ChainSame(g, v.d, d', v.files[l]) {
      FileFacts(g, dch, v, l);
    }
  }

  lemma NewFile(g: Geometry, dch: seq<nat>, v: Volume, v': Volume, name: FileName, time: u16, date: u16)
    requires VolumeOk(g, dch, v) && ValidDisk(g, v'.d) && |StoredParts(name).1| <= 3 && FreePosition(g, v.d, dch).Some?
    requires var pos, e := FreePosition(g, v.d, dch).value, NewEntry(name, time, date);
      SlotWritten(g, dch, v.d, v'.d, pos, e) && pos in v'.files && v'.files[pos] == []
    ensures var pos := FreePosition(g, v.d, dch).value;
      && IsSlot(g, dch, pos) && FileAtOk(g, dch, v', pos)
      && FileAt(g, dch, v', pos) == EmptyFile(name, time, date)
  {
    hide VolumeOk, ClusterData, FatOf, SlotData, FreePosition, Parse, Serialize, StoredParts, SlotWritten;
    DirFacts(g, dch, v);
    var pos, e := FreePosition(g, v.d, dch).value, NewEntry(name, time, date);
    WrittenIsSlot(g, dch, v.d, v'.d, pos, e);
    SlotAfter(g, dch, v.d, v'.d, pos, e, pos);
    StoredSlot(g, v'.d, pos, e);
    EmptyContent(g, v'.d, e);
  }

  lemma EmptyContent(g: Geometry, d: seq<byte>, e: DirEntry)
    requires ValidDisk(g, d) && e.fileSize == 0 && e.FirstCluster() == 0
    ensures FileOk(g, d, e, []) && Content(g, d, e, []) == []
  {
    hide FatOf, Flat;
    CeilBounds(0, g.ClusterBytes());
  }

  lemma CreateDisjoint(g: Geometry, dch: seq<nat>, v: Volume, v': Volume, pos: ClusterOffset)
    requires VolumeOk(g, dch, v) && v'.files == v.files[pos := []]
    ensures forall a, b :: a in v'.files && b in v'.files && a != b ==> Disjoint(v'.files[a], v'.files[b])
  {
    hide DirOk, SlotsOk, FileAtOk;
  }

  /** The meaning of a volume that differs in one file. */
  lemma FilesAre(g: Geometry, dch: seq<nat>, v: Volume, v': Volume, loc: ClusterOffset, f: File)
    requires VolumeOk(g, dch, v) && VolumeOk(g, dch, v') && v'.files.Keys == v.files.Keys + {loc}
    requires IsSlot(g, dch, loc) && FileAtOk(g, dch, v', loc) && FileAt(g, dch, v', loc) == f
    requires forall l :: l in v.files && l != loc ==>
      && IsSlot(g, dch, l) && FileAtOk(g, dch, v, l) && FileAtOk(g, dch, v', l) && FileAt(g, dch, v', l) == FileAt(g, dch, v, l)
    ensures Files(g, dch, v).Keys == v.files.Keys && Files(g, dch, v') == Files(g, dch, v)[loc := f]
  {
    hide VolumeOk, FileAt, FileAtOk;
  }

  // ---------------------------------------------------------------- writing

  lemma WriteKeeps(g: Geometry, dch: seq<nat>, v: Volume, op: Op, v': Volume, dir': DirEntryWithLoc, n: nat)
    requires VolumeOk(g, dch, v) && op.Write? && WriteStep(g, dch, v, op, v', dir', n)
    ensures VolumeOk(g, dch, v') && FileStep(Files(g, dch, v), op, Files(g, dch, v'))
  {
    hide VolumeOk, DirOk, SlotsOk, FileAtOk, FileAt, Files, ClusterData, FatOf, Serialize, IsLive, Written, FreeClusters, EntryOf, Overwritten, WriteStep, IsSlot;
    WriteFiles(g, dch, v, op, v', dir', n);
    DirFacts(g, dch, v);
    WriteSlots(g, dch, v, op, v', dir', n);
    forall l | l in v.files && l != op.loc
      ensures && IsSlot(g, dch, l) && FileAtOk(g, dch, v, l) && FileAtOk(g, dch, v', l)
              && FileAt(g, dch, v', l) == FileAt(g, dch, v, l) && Disjoint(v.files[l], v'.files[op.loc])
    {
      WriteOther(g, dch, v, op, v', dir', n, l);
    }
    WrittenFileAt(g, dch, v, op, v', dir', n);
    WriteDisjoint(g, dch, v, v', op.loc);
    Whole(g, dch, v');
    FilesAre(g, dch, v, v', op.loc, FileAt(g, dch, v', op.loc));
    FilesHas(g, dch, v, op.loc);
  }

  lemma WriteFiles(g: Geometry, dch: seq<nat>, v: Volume, op: Op, v': Volume, dir': DirEntryWithLoc, n: nat)
    requires VolumeOk(g, dch, v) && op.Write? && WriteStep(g, dch, v, op, v', dir', n)
    ensures ValidDisk(g, v'.d) && op.loc in v.files && v'.files.Keys == v.files.Keys
    ensures forall l :: l in v.files && l != op.loc ==> v'.files[l] == v.files[l]
  {
    hide VolumeOk, FatOf, Written, FreeClusters, FileAtOk, EntryOf;
  }

  lemma FilesHas(g: Geometry, dch: seq<nat>, v: Volume, loc: ClusterOffset)
    requires VolumeOk(g, dch, v) && loc in v.files
    ensures loc in Files(g, dch, v) && IsSlot(g, dch, loc) && FileAtOk(g, dch, v, loc)
    ensures Files(g, dch, v)[loc] == FileAt(g, dch, v, loc)
  {
    hide FileAt, DirOk, SlotsOk;
    FileFacts(g, dch, v, loc);
  }

  lemma WriteDisjoint(g: Geometry, dch: seq<nat>, v: Volume, v': Volume, loc: ClusterOffset)
    requires VolumeOk(g, dch, v) && loc in v.files && v'.files.Keys == v.files.Keys
    requires forall l :: l in v.files && l != loc ==> v'.files[l] == v.files[l] && Disjoint(v.files[l], v'.files[loc])
    ensures forall a, b :: a in v'.files && b in v'.files && a != b ==> Disjoint(v'.files[a], v'.files[b])
  {
    hide DirOk, SlotsOk, FileAtOk;
  }

  /** The clusters a write takes from the free ones belong to no file and not to the directory. */
  lemma AddedApart(g: Geometry, d: seq<byte>, ch: seq<nat>, n: nat)
    requires ValidDisk(g, d) && (ch == [] || IsChain(FatOf(g, d), ch)) && n <= |FreeClusters(g, d)|
    ensures Disjoint(ch, FreeClusters(g, d)[..n])
  {
    hide FatOf, FreeList;
    var added := FreeClusters(g, d)[..n];
    FreePrefix(FatOf(g, d), g.rootCluster + 1, g.clusterCount, n);
    forall i, j | 0 <= i < |ch| && 0 <= j < |added| ensures ch[i] != added[j] {
      ChainNotFree(FatOf(g, d), ch, i);
    }
  }

  /** The directory chain is untouched, and of its clusters only the slot of the file. */
  lemma WriteFrames(g: Geometry, dch: seq<nat>, v: Volume, op: Op, v': Volume, dir': DirEntryWithLoc, n: nat)
    requires VolumeOk(g, dch, v) && op.Write? && WriteStep(g, dch, v, op, v', dir', n)
    ensures ValidDisk(g, v.d) && AreClusters(g, dch) && IsChain(FatOf(g, v'.d), dch) && g.IsCluster(op.loc.cluster)
    ensures Disjoint(v'.files[op.loc], dch) && ReservedOk(FatOf(g, v'.d))
    ensures SlotWritten(g, dch, v.d, v'.d, op.loc, dir'.entry) ||
            (dir'.entry == EntryOf(g, v.d, op.loc) && forall c :: c in dch ==> g.IsCluster(c) && ClusterData(g, v'.d, c) == ClusterData(g, v.d, c))
  {
    hide VolumeOk, FatOf, ClusterData, Serialize, FreeClusters, FileOk, Content, Flat, Splice, EntryOf, FileAtOk, SlotsOk, WellFormedDir;
    DirFacts(g, dch, v);
    FileFacts(g, dch, v, op.loc);
    var ch := v.files[op.loc];
    AddedApart(g, v.d, dch, n);
    var ch' := ch + FreeClusters(g, v.d)[..n];
    assert forall c :: c in dch ==> c !in ch';
    assert 0 !in ch';
    forall i | 0 <= i < |dch| ensures FatOf(g, v'.d)[dch[i]] == FatOf(g, v.d)[dch[i]] {
      assert dch[i] in dch;
    }
    ChainFrame(FatOf(g, v.d), FatOf(g, v'.d), dch);
  }

  lemma SameDir(g: Geometry, dch: seq<nat>, v: Volume, v': Volume)
    requires DirOk(g, dch, v.d) && SlotsOk(g, dch, v) && ValidDisk(g, v'.d) && IsChain(FatOf(g, v'.d), dch)
    requires ReservedOk(FatOf(g, v'.d))
    requires forall c :: c in dch ==> g.IsCluster(c) && ClusterData(g, v'.d, c) == ClusterData(g, v.d, c)
    requires v'.files.Keys == v.files.Keys
    ensures DirOk(g, dch, v'.d) && SlotsOk(g, dch, v')
  {
    hide FatOf, ClusterData, EndMarked;
    forall j | 0 <= j < |dch| ensures EndMarked(ClusterData(g, v'.d, dch[j])) { assert dch[j] in dch; }
    forall l | IsSlot(g, dch, l) ensures g.IsCluster(l.cluster) && SlotData(g, v'.d, l) == SlotData(g, v.d, l) {}
  }

  lemma WriteSlots(g: Geometry, dch: seq<nat>, v: Volume, op: Op, v': Volume, dir': DirEntryWithLoc, n: nat)
    requires VolumeOk(g, dch, v) && op.Write? && WriteStep(g, dch, v, op, v', dir', n)
    ensures DirOk(g, dch, v'.d) && SlotsOk(g, dch, v')
  {
    hide VolumeOk, FatOf, ClusterData, Serialize, FreeClusters, Written, SlotsOk, FileAtOk, SlotWritten, SlotData, Parse, DirOk;
    DirFacts(g, dch, v);
    FileFacts(g, dch, v, op.loc);
    WriteFrames(g, dch, v, op, v', dir', n);
    WrittenName(g, dch, v, op, v', dir', n);
    assert v'.files.Keys == v.files.Keys;
    if SlotWritten(g, dch, v.d, v'.d, op.loc, dir'.entry) {
      SlotByte(g, v.d, op.loc);
      DirAfter(g, dch, v.d, v'.d, op.loc, dir'.entry);
      assert v.files.Keys + {op.loc} == v.files.Keys;
      SlotsAfter(g, dch, v, v', op.loc, dir'.entry);
    } else {
      SameDir(g, dch, v, v');
    }
  }

  lemma SlotByte(g: Geometry, d: seq<byte>, loc: ClusterOffset)
    requires ValidDisk(g, d) && g.IsCluster(loc.cluster) && loc.offset + 32 <= g.ClusterBytes()
    ensures SlotData(g, d, loc)[0] == ClusterData(g, d, loc.cluster)[loc.offset]
  {
    hide ClusterData;
  }

  lemma WrittenName(g: Geometry, dch: seq<nat>, v: Volume, op: Op, v': Volume, dir': DirEntryWithLoc, n: nat)
    requires VolumeOk(g, dch, v) && op.Write? && WriteStep(g, dch, v, op, v', dir', n)
    ensures g.IsCluster(op.loc.cluster) && dir'.loc == op.loc && dir'.entry.name[0] == SlotData(g, v.d, op.loc)[0]
    ensures dir'.entry.name == EntryOf(g, v.d, op.loc).name && dir'.entry.ext == EntryOf(g, v.d, op.loc).ext
  {
    hide VolumeOk, FatOf, ClusterData, Serialize, FreeClusters, FileOk, Content, Flat, SlotData, FileAtOk;
    FileFacts(g, dch, v, op.loc);
  }

  /** The other slots read as before. */
  lemma WriteKeepsSlot(g: Geometry, dch: seq<nat>, v: Volume, op: Op, v': Volume, dir': DirEntryWithLoc, n: nat, l: ClusterOffset)
    requires VolumeOk(g, dch, v) && op.Write? && WriteStep(g, dch, v, op, v', dir', n) && IsSlot(g, dch, l)
    ensures g.IsCluster(l.cluster)
    ensures if l == op.loc then EntryOf(g, v'.d, l) == dir'.entry else SlotData(g, v'.d, l) == SlotData(g, v.d, l)
  {
    hide VolumeOk, FatOf, ClusterData, Serialize, FreeClusters, Written, FileAtOk, SlotWritten, Parse;
    DirFacts(g, dch, v);
    WriteFrames(g, dch, v, op, v', dir', n);
    InDir(g, dch, l);
    if SlotWritten(g, dch, v.d, v'.d, op.loc, dir'.entry) {
      SlotAfter(g, dch, v.d, v'.d, op.loc, dir'.entry, l);
      if l == op.loc { StoredSlot(g, v'.d, l, dir'.entry); }
    } else {
      assert l.cluster in dch;
      assert ClusterData(g, v'.d, l.cluster) == ClusterData(g, v.d, l.cluster);
    }
  }

  lemma WriteOther(g: Geometry, dch: seq<nat>, v: Volume, op: Op, v': Volume, dir': DirEntryWithLoc, n: nat, l: ClusterOffset)
    requires VolumeOk(g, dch, v) && op.Write? && WriteStep(g, dch, v, op, v', dir', n) && l in v.files && l != op.loc
    ensures IsSlot(g, dch, l) && FileAtOk(g, dch, v, l) && FileAtOk(g, dch, v', l)
    ensures FileAt(g, dch, v', l) == FileAt(g, dch, v, l) && Disjoint(v.files[l], v'.files[op.loc])
  {
    hide VolumeOk, FatOf, ClusterData, Serialize, FreeClusters, Written, SlotData, Parse, Content, FileOk;
    DirFacts(g, dch, v);
    FileFacts(g, dch, v, l);
    FileFacts(g, dch, v, op.loc);
    WriteKeepsSlot(g, dch, v, op, v', dir', n, l);
    FilesApart(g, dch, v, l, op.loc);
    SlotOutside(g, dch, v, op.loc, l);
    OtherFileKept(g, v.d, v'.d, DirAt(g, v.d, op.loc), dir', v.files[op.loc], n, op.offset, op.buffer,
                  EntryOf(g, v.d, l), v.files[l]);
  }

  lemma FilesApart(g: Geometry, dch: seq<nat>, v: Volume, a: ClusterOffset, b: ClusterOffset)
    requires VolumeOk(g, dch, v) && a in v.files && b in v.files && a != b
    ensures Disjoint(v.files[a], v.files[b])
  {
    hide DirOk, SlotsOk, FileAtOk;
  }

  lemma SlotOutside(g: Geometry, dch: seq<nat>, v: Volume, loc: ClusterOffset, l: ClusterOffset)
    requires VolumeOk(g, dch, v) && loc in v.files && l in v.files
    ensures loc.cluster !in v.files[l]
  {
    hide DirOk, FileAtOk;
    FileFacts(g, dch, v, l);
    FileFacts(g, dch, v, loc);
  }

  lemma WrittenFileAt(g: Geometry, dch: seq<nat>, v: Volume, op: Op, v': Volume, dir': DirEntryWithLoc, n: nat)
    requires VolumeOk(g, dch, v) && op.Write? && WriteStep(g, dch, v, op, v', dir', n)
    ensures IsSlot(g, dch, op.loc) && FileAtOk(g, dch, v, op.loc) && FileAtOk(g, dch, v', op.loc)
    ensures var was, now := FileAt(g, dch, v, op.loc), FileAt(g, dch, v', op.loc);
      now.name == was.name && now.ext == was.ext && Overwritten(was.bytes, op.offset, op.buffer, now.bytes)
  {
    hide VolumeOk, FatOf, ClusterData, Serialize, FreeClusters, SlotData, EntryOf, FileOk, Overwritten, Flat, Splice, Content;
    DirFacts(g, dch, v);
    FileFacts(g, dch, v, op.loc);
    WriteFrames(g, dch, v, op, v', dir', n);
    WrittenName(g, dch, v, op, v', dir', n);
    WriteKeepsSlot(g, dch, v, op, v', dir', n, op.loc);
    var ch := v.files[op.loc];
    OverwrittenContent(g, v.d, v'.d, EntryOf(g, v.d, op.loc), dir'.entry, ch, v'.files[op.loc], op.offset, op.buffer);
  }

  lemma OverwrittenContent(g: Geometry, d: seq<byte>, d': seq<byte>, e: DirEntry, e': DirEntry, ch: seq<nat>, ch': seq<nat>,
                           offset: nat, buffer: seq<byte>)
    requires ValidDisk(g, d) && ValidDisk(g, d') && FileOk(g, d, e, ch) && FileOk(g, d', e', ch') && ch <= ch'
    requires AreClusters(g, ch') && e'.fileSize == if offset + |buffer| > e.fileSize then offset + |buffer| else e.fileSize
    requires e'.fileSize <= |Flat(g, d, ch')| && offset + |buffer| <= |Flat(g, d, ch')|
    requires Content(g, d', e', ch') == Splice(Flat(g, d, ch'), offset, buffer)[..e'.fileSize]
    ensures Overwritten(Content(g, d, e, ch), offset, buffer, Content(g, d', e', ch'))
  {
    hide FatOf, Flat, DivCeil, Splice, FileOk;
    FileLength(g, d, e, ch);
    CeilBounds(e.fileSize, g.ClusterBytes());
    assert ch' == ch + ch'[|ch|..];
    FlatConcat(g, d, ch, ch'[|ch|..]);
    OverwrittenBytes(Flat(g, d, ch), Flat(g, d, ch'[|ch|..]), e.fileSize, e'.fileSize, offset, buffer);
  }

  lemma OverwrittenBytes(a: seq<byte>, more: seq<byte>, size: nat, size': nat, offset: nat, buffer: seq<byte>)
    requires size <= |a| && offset + |buffer| <= |a + more|
    requires size' == (if offset + |buffer| > size then offset + |buffer| else size)
    ensures Overwritten(a[..size], offset, buffer, Splice(a + more, offset, buffer)[..size'])
  {
    hide Splice;
    var all := Splice(a + more, offset, buffer);
    SpliceReads(a + more, offset, buffer);
    WindowSlice(all, 0, size', offset, offset + |buffer|);
    forall i | 0 <= i < size && (i < offset || offset + |buffer| <= i) ensures all[..size'][i] == a[..size][i] {
      SpliceAt(a + more, offset, buffer);
      assert all[i] == (a + more)[i];
    }
  }

  // ---------------------------------------------------------------- deleting

  lemma DeleteKeeps(g: Geometry, dch: seq<nat>, v: Volume, op: Op, v': Volume)
    requires VolumeOk(g, dch, v) && op.Delete? && DeleteStep(g, dch, v, op, v')
    ensures VolumeOk(g, dch, v') && FileStep(Files(g, dch, v), op, Files(g, dch, v'))
  {
    hide VolumeOk, DirOk, SlotsOk, FileAtOk, FileAt, Files, SlotWritten, ClusterData, FatOf, Serialize, IsLive, EntryOf, DeletedDisk;
    DirFacts(g, dch, v);
    FileFacts(g, dch, v, op.loc);
    DeleteWrites(g, dch, v, op, v');
    var e := Deleted(DirAt(g, v.d, op.loc)).entry;
    SlotsAfter(g, dch, v, v', op.loc, e);
    forall l | l in v'.files
      ensures IsSlot(g, dch, l) && FileAtOk(g, dch, v, l) && FileAtOk(g, dch, v', l) && FileAt(g, dch, v', l) == FileAt(g, dch, v, l)
    {
      FileFacts(g, dch, v, l);
      OtherAfter(g, dch, v, v', op.loc, e, l);
    }
    FewerDisjoint(g, dch, v, v');
    Whole(g, dch, v');
    FilesFewer(g, dch, v, v', op.loc);
  }

  lemma DeleteWrites(g: Geometry, dch: seq<nat>, v: Volume, op: Op, v': Volume)
    requires VolumeOk(g, dch, v) && op.Delete? && DeleteStep(g, dch, v, op, v')
    ensures ValidDisk(g, v.d) && ValidDisk(g, v'.d) && AreClusters(g, dch) && g.IsCluster(op.loc.cluster)
    ensures SlotWritten(g, dch, v.d, v'.d, op.loc, Deleted(DirAt(g, v.d, op.loc)).entry) && DirOk(g, dch, v'.d)
    ensures forall l :: l in v'.files ==> ChainSame(g, v.d, v'.d, v.files[l])
  {
    hide VolumeOk, FatOf, ClusterData, Serialize, SlotData, FileAtOk, SlotsOk, WellFormedDir, Unlink, DeletedDisk, Parse, IsWalk;
    DirFacts(g, dch, v);
    FileFacts(g, dch, v, op.loc);
    var dir, walk := DirAt(g, v.d, op.loc), FreedWalk(v.files[op.loc]);
    var e := Deleted(dir).entry;
    DeletedFacts(g, v.d, dir, walk);
    UnlinkEntries(FatOf(g, v.d), walk);
    assert SlotWritten(g, dch, v.d, v'.d, op.loc, e);
    WalkApart(g, v.d, dch, v.files[op.loc]);
    assert 0 in walk ==> FatOf(g, v'.d)[0] == 0;
    ChainFrame(FatOf(g, v.d), FatOf(g, v'.d), dch);
    SlotByte(g, v.d, op.loc);
    DirAfter(g, dch, v.d, v'.d, op.loc, e);
    forall l | l in v'.files ensures ChainSame(g, v.d, v'.d, v.files[l]) {
      FileFacts(g, dch, v, l);
      FilesApart(g, dch, v, l, op.loc);
      FileWalkApart(g, dch, v, l, op.loc);
    }
  }

  /** What is freed is no entry of another chain. */
  lemma WalkApart(g: Geometry, d: seq<byte>, ch: seq<nat>, freed: seq<nat>)
    requires ValidDisk(g, d) && (ch == [] || IsChain(FatOf(g, d), ch)) && Disjoint(freed, ch)
    ensures forall i :: 0 <= i < |ch| ==> ch[i] !in FreedWalk(freed)
  {
    hide FatOf;
  }

  lemma FileWalkApart(g: Geometry, dch: seq<nat>, v: Volume, l: ClusterOffset, loc: ClusterOffset)
    requires VolumeOk(g, dch, v) && l in v.files && loc in v.files && Disjoint(v.files[l], v.files[loc])
    ensures forall i :: 0 <= i < |v.files[l]| ==> v.files[l][i] !in FreedWalk(v.files[loc])
  {
    hide VolumeOk, FatOf, DivCeil;
    DirFacts(g, dch, v);
    FileFacts(g, dch, v, l);
    WalkApart(g, v.d, v.files[l], v.files[loc]);
  }

  lemma FewerDisjoint(g: Geometry, dch: seq<nat>, v: Volume, v': Volume)
    requires VolumeOk(g, dch, v) && v'.files.Keys <= v.files.Keys && forall l :: l in v'.files ==> v'.files[l] == v.files[l]
    ensures forall a, b :: a in v'.files && b in v'.files && a != b ==> Disjoint(v'.files[a], v'.files[b])
  {
    hide DirOk, SlotsOk, FileAtOk;
  }

  lemma FilesFewer(g: Geometry, dch: seq<nat>, v: Volume, v': Volume, loc: ClusterOffset)
    requires VolumeOk(g, dch, v) && VolumeOk(g, dch, v') && v'.files.Keys == v.files.Keys - {loc} && loc in v.files
    requires forall l :: l in v'.files ==>
      && IsSlot(g, dch, l) && FileAtOk(g, dch, v, l) && FileAtOk(g, dch, v', l) && FileAt(g, dch, v', l) == FileAt(g, dch, v, l)
    ensures loc in Files(g, dch, v) && Files(g, dch, v') == Files(g, dch, v) - {loc}
  {
    hide VolumeOk, FileAt, FileAtOk;
  }

  /** A directory without live slots is a volume without files. */
  lemma NoFiles(g: Geometry, dch: seq<nat>, d: seq<byte>)
    requires DirOk(g, dch, d) && forall loc :: IsSlot(g, dch, loc) ==> g.IsCluster(loc.cluster) && !IsLive(g, d, loc)
    ensures VolumeOk(g, dch, Volume(d, map[])) && Files(g, dch, Volume(d, map[])) == map[]
  {
    hide FatOf, WellFormedDir, IsLive;
  }

  // ---------------------------------------------------------------- running out of clusters

  /** A write that panics for want of clusters has taken every free one, and changed no file. */
  lemma UsedUpKeeps(g: Geometry, dch: seq<nat>, v: Volume)
    requires VolumeOk(g, dch, v) && ValidDisk(g, v.d)
    ensures var v' := Volume(UsedUpDisk(g, v.d), v.files);
      && VolumeOk(g, dch, v') && Files(g, dch, v') == Files(g, dch, v)
      && ValidDisk(g, v'.d) && FreeClusters(g, v'.d) == []
  {
    hide VolumeOk, DirOk, SlotsOk, FileAtOk, FileAt, Files, ClusterData, FatOf, FreeClusters, UsedUpDisk, IsLive, EntryOf;
    var v' := Volume(UsedUpDisk(g, v.d), v.files);
    DirFacts(g, dch, v);
    UsedUpFacts(g, v.d);
    UsedUpChain(g, v.d, dch);
    ChainFrame(FatOf(g, v.d), FatOf(g, v'.d), dch);
    SameDir(g, dch, v, v');
    forall l | l in v.files
      ensures IsSlot(g, dch, l) && FileAtOk(g, dch, v, l) && FileAtOk(g, dch, v', l) && FileAt(g, dch, v', l) == FileAt(g, dch, v, l)
    {
      FileFacts(g, dch, v, l);
      FileChain(g, dch, v, l);
      UsedUpChain(g, v.d, v.files[l]);
      FileKept(g, dch, v, v', l);
    }
    FewerDisjoint(g, dch, v, v');
    Whole(g, dch, v');
    FilesSame(g, dch, v, v');
  }

  lemma UsedUpFacts(g: Geometry, d: seq<byte>)
    requires ValidDisk(g, d)
    ensures var d' := UsedUpDisk(g, d);
      && FreeClusters(g, d') == [] && FatOf(g, d')[0] == FatOf(g, d)[0]
      && (forall c :: 0 <= c < g.Entries() && FatOf(g, d)[c] != 0 ==> FatOf(g, d')[c] == FatOf(g, d)[c])
      && (forall c :: g.IsCluster(c) ==> ClusterData(g, d', c) == ClusterData(g, d, c))
  {
    hide FatOf, LinkDisk, Link, ClusterData, FreeClusters, OutsideKept;
    var free := FreeClusters(g, d);
    assert free[..|free|] == free;
    LinkedDisk(g, d, |free|);
    FreeAfterTaking(g, d, |free|);
  }

  lemma UsedUpChain(g: Geometry, d: seq<byte>, ch: seq<nat>)
    requires ValidDisk(g, d) && AreClusters(g, ch) && (ch == [] || IsChain(FatOf(g, d), ch))
    ensures var d' := UsedUpDisk(g, d);
      forall i :: 0 <= i < |ch| ==> FatOf(g, d')[ch[i]] == FatOf(g, d)[ch[i]] && ClusterData(g, d', ch[i]) == ClusterData(g, d, ch[i])
  {
    hide FatOf, ClusterData, FreeClusters, UsedUpDisk;
    UsedUpFacts(g, d);
    forall i | 0 <= i < |ch| ensures FatOf(g, d)[ch[i]] != 0 { ChainNotFree(FatOf(g, d), ch, i); }
  }

  lemma FileChain(g: Geometry, dch: seq<nat>, v: Volume, l: ClusterOffset)
    requires VolumeOk(g, dch, v) && l in v.files
    ensures ValidDisk(g, v.d) && (v.files[l] == [] || IsChain(FatOf(g, v.d), v.files[l]))
  {
    hide FatOf, DivCeil, DirOk, SlotsOk, EntryOf;
    DirFacts(g, dch, v);
    FileFacts(g, dch, v, l);
  }

  lemma FilesSame(g: Geometry, dch: seq<nat>, v: Volume, v': Volume)
    requires VolumeOk(g, dch, v) && VolumeOk(g, dch, v') && v'.files == v.files
    requires forall l :: l in v.files ==>
      && IsSlot(g, dch, l) && FileAtOk(g, dch, v, l) && FileAtOk(g, dch, v', l) && FileAt(g, dch, v', l) == FileAt(g, dch, v, l)
    ensures Files(g, dch, v') == Files(g, dch, v)
  {
    hide VolumeOk, FileAt, FileAtOk;
  }

  // ---------------------------------------------------------------- looking up

  lemma {:induction false} SlotsListed(g: Geometry, d: seq<byte>, c: nat, k: nat, y: DirEntryWithLoc)
    requires ValidDisk(g, d) && g.IsCluster(c) && Slots(ClusterData(g, d, c), k) && y in SlotEntries(c, ClusterData(g, d, c), k)
    ensures y.loc.cluster == c && y.loc.offset % 32 == 0 && y.loc.offset + 32 <= g.ClusterBytes()
    ensures y == DirAt(g, d, y.loc) && IsLive(g, d, y.loc)
    decreases g.ClusterBytes() - 32 * k
  {
    hide ClusterData, Parse;
    if y in SlotEntries(c, ClusterData(g, d, c), k + 1) { SlotsListed(g, d, c, k + 1, y); }
  }

  lemma {:induction false} Listed(g: Geometry, d: seq<byte>, ch: seq<nat>, y: DirEntryWithLoc)
    requires ValidDisk(g, d) && AreClusters(g, ch) && y in DirEntries(g, d, ch)
    ensures IsSlot(g, ch, y.loc) && g.IsCluster(y.loc.cluster) && y == DirAt(g, d, y.loc) && IsLive(g, d, y.loc)
  {
    hide ClusterData, SlotEntries, IsLive, EntryOf;
    if y in SlotEntries(ch[0], ClusterData(g, d, ch[0]), 0) {
      SlotsListed(g, d, ch[0], 0, y);
    } else {
      Listed(g, d, ch[1..], y);
    }
  }

  /** What a lookup finds is a file, with its entry as stored, ready to be read, written or deleted. */
  lemma FoundIsFile(g: Geometry, dch: seq<nat>, v: Volume, name: FileName)
    requires VolumeOk(g, dch, v) && ValidDisk(g, v.d) && AreClusters(g, dch)
    requires FirstMatch(name, DirEntries(g, v.d, dch)).Some?
    ensures var x := FirstMatch(name, DirEntries(g, v.d, dch)).value;
      x.loc in v.files && IsSlot(g, dch, x.loc) && g.IsCluster(x.loc.cluster) && x == DirAt(g, v.d, x.loc)
  {
    hide DirEntries, FirstMatch, DirOk, FileAtOk, IsLive, EntryOf;
    MatchListed(name, DirEntries(g, v.d, dch));
    Listed(g, v.d, dch, FirstMatch(name, DirEntries(g, v.d, dch)).value);
  }

  lemma {:induction false} SlotsComplete(c: nat, data: seq<byte>, i: nat, k: nat)
    requires EndMarked(data) && Slots(data, k + 1) && i <= k && LiveName(data[32 * k])
    ensures SlotEntry(c, data, k) in SlotEntries(c, data, i)
    decreases k - i
  {
    hide EndMarked, SlotEntry;
    if i < k {
      UsedBefore(data, i, k);
      SlotsComplete(c, data, i + 1, k);
    }
  }

  lemma {:induction false} UsedBefore(data: seq<byte>, i: nat, k: nat)
    requires EndMarked(data) && Slots(data, k + 1) && i <= k && data[32 * k] != 0
    ensures data[32 * i] != 0
    decreases k - i
  {
    if i < k {
      UsedBefore(data, i + 1, k);
      assert Slots(data, i);
    }
  }

  lemma {:induction false} ListedIn(g: Geometry, d: seq<byte>, ch: seq<nat>, j: nat, k: nat)
    requires ValidDisk(g, d) && AreClusters(g, ch) && WellFormedDir(g, d, ch) && j < |ch| && 32 * k + 32 <= g.ClusterBytes()
    requires LiveName(ClusterData(g, d, ch[j])[32 * k])
    ensures SlotEntry(ch[j], ClusterData(g, d, ch[j]), k) in DirEntries(g, d, ch)
  {
    hide ClusterData, SlotEntries, SlotEntry, EndMarked;
    if j == 0 {
      SlotsComplete(ch[0], ClusterData(g, d, ch[0]), 0, k);
    } else {
      ListedIn(g, d, ch[1..], j - 1, k);
    }
  }

  /** The directory lists every file. */
  lemma FileListed(g: Geometry, dch: seq<nat>, v: Volume, l: ClusterOffset)
    requires VolumeOk(g, dch, v) && l in v.files
    ensures ValidDisk(g, v.d) && AreClusters(g, dch) && g.IsCluster(l.cluster) && IsSlot(g, dch, l)
    ensures DirAt(g, v.d, l) in DirEntries(g, v.d, dch)
  {
    hide VolumeOk, ClusterData, DirEntries, FatOf, FileAtOk;
    DirFacts(g, dch, v);
    FileFacts(g, dch, v, l);
    var j :| 0 <= j < |dch| && dch[j] == l.cluster;
    var k := l.offset / 32;
    assert l.offset == 32 * k;
    SlotByte(g, v.d, l);
    ListedIn(g, v.d, dch, j, k);
  }

  /** A lookup comes back empty exactly when no file of the directory matches the name. */
  lemma FindComplete(g: Geometry, dch: seq<nat>, v: Volume, name: FileName)
    requires VolumeOk(g, dch, v) && ValidDisk(g, v.d) && AreClusters(g, dch)
    ensures FirstMatch(name, DirEntries(g, v.d, dch)).None? <==>
      forall l :: l in v.files ==> g.IsCluster(l.cluster) && IsSlot(g, dch, l) && !CompareDirent(name, EntryOf(g, v.d, l))
  {
    hide VolumeOk, DirEntries, CompareDirent, EntryOf, FirstMatch;
    var es := DirEntries(g, v.d, dch);
    MatchOrNone(name, es);
    forall l | l in v.files ensures g.IsCluster(l.cluster) && IsSlot(g, dch, l) && DirAt(g, v.d, l) in es { FileListed(g, dch, v, l); }
    if FirstMatch(name, es).Some? { FoundIsFile(g, dch, v, name); }
  }

  lemma MatchOrNone(name: FileName, es: seq<DirEntryWithLoc>)
    ensures match FirstMatch(name, es)
      case None => forall x :: x in es ==> !CompareDirent(name, x.entry)
      case Some(x) => CompareDirent(name, x.entry)
  {
    hide CompareDirent;
  }

  // ---------------------------------------------------------------- runs

  /** Each operation keeps the volume good and does to its files what it does to the map of files. */
  lemma StepRefines(g: Geometry, dch: seq<nat>, v: Volume, op: Op, v': Volume)
    requires VolumeStep(g, dch, v, op, v')
    ensures VolumeOk(g, dch, v) && VolumeOk(g, dch, v') && FileStep(Files(g, dch, v), op, Files(g, dch, v'))
  {
    hide VolumeOk, CreateStep, WriteStep, DeleteStep, FileStep;
    match op
    case Create(_, _, _) => CreateKeeps(g, dch, v, op, v');
    case Write(_, _, _) =>
      var dir', n :| WriteStep(g, dch, v, op, v', dir', n);
      WriteKeeps(g, dch, v, op, v', dir', n);
    case Delete(_) => DeleteKeeps(g, dch, v, op, v');
  }

  ghost predicate VolumeRun(g: Geometry, dch: seq<nat>, v: Volume, ops: seq<Op>, v': Volume)
    decreases |ops|
  {
    if ops == [] then v' == v
    else exists v1 :: VolumeStep(g, dch, v, ops[0], v1) && VolumeRun(g, dch, v1, ops[1..], v')
  }

  ghost predicate FileRun(m: map<ClusterOffset, File>, ops: seq<Op>, m': map<ClusterOffset, File>)
    decreases |ops|
  {
    if ops == [] then m' == m
    else exists m1 :: FileStep(m, ops[0], m1) && FileRun(m1, ops[1..], m')
  }

  /** Over any run the volume stays good, and its files run through the same operations. */
  lemma {:induction false} RunRefines(g: Geometry, dch: seq<nat>, v: Volume, ops: seq<Op>, v': Volume)
    requires VolumeOk(g, dch, v) && VolumeRun(g, dch, v, ops, v')
    ensures VolumeOk(g, dch, v') && FileRun(Files(g, dch, v), ops, Files(g, dch, v'))
    decreases |ops|
  {
    hide VolumeOk, VolumeStep, FileStep, Files;
    if ops != [] {
      var v1 :| VolumeStep(g, dch, v, ops[0], v1) && VolumeRun(g, dch, v1, ops[1..], v');
      StepRefines(g, dch, v, ops[0], v1);
      RunRefines(g, dch, v1, ops[1..], v');
      assert FileStep(Files(g, dch, v), ops[0], Files(g, dch, v1));
    }
  }

  // ---------------------------------------------------------------- the driver

  /** The driver with the directory it works in and the chains of its files. */
  class FileSystem {
    const fs: Fat32
    ghost const dch: seq<nat>
    ghost var files: map<ClusterOffset, seq<nat>>

    constructor (fs: Fat32, ghost dch: seq<nat>, ghost files: map<ClusterOffset, seq<nat>>)
      requires fs.Valid() && VolumeOk(fs.g, dch, Volume(fs.disk, files))
      ensures Valid() && this.fs == fs && this.dch == dch && this.files == files
    {
      this.fs := fs;
      this.dch := dch;
      this.files := files;
    }

    ghost predicate Valid()
      reads this, fs
    {
      fs.Valid() && VolumeOk(fs.g, dch, Volume(fs.disk, files))
    }

    ghost function State(): Volume
      reads this, fs
    {
      Volume(fs.disk, files)
    }

    method CreateIn(parent: nat, name: FileName, time: u16, date: u16) returns (r: Outcome<()>)
      requires Valid() && parent == dch[0] && Visible(name)
      modifies this, fs
      ensures Valid() && AreClusters(fs.g, dch) && (r.Panicked? ==> State() == old(State()))
      ensures r.Panicked? <==> FreePosition(fs.g, old(fs.disk), dch).None? || |StoredParts(name).1| > 3
      ensures r.Returned? ==> VolumeStep(fs.g, dch, old(State()), Create(name, time, date), State())
    {
      hide VolumeOk, FatOf, ClusterData, FreePosition, CreatedDisk, Visible, StoredParts;
      ghost var v := State();
      DirFacts(fs.g, dch, v);
      r := CreateFile(fs, parent, name, time, date, dch);
      if r.Returned? {
        files := files[FreePosition(fs.g, v.d, dch).value := []];
        StepRefines(fs.g, dch, v, Create(name, time, date), State());
      }
    }

    method WriteAt(dir: DirEntryWithLoc, offset: nat, buffer: seq<byte>) returns (r: Outcome<DirEntryWithLoc>)
      requires Valid() && dir.loc in files && IsSlot(fs.g, dch, dir.loc) && fs.g.IsCluster(dir.loc.cluster)
      requires dir == DirAt(fs.g, fs.disk, dir.loc) && |buffer| > 0 && offset + |buffer| < TWO32
      modifies this, fs
      ensures Valid()
      ensures r.Panicked? <==> |FreeClusters(fs.g, old(fs.disk))| < NewClusters(fs.g, dir.entry, offset + |buffer|)
      ensures r.Panicked? ==> Files(fs.g, dch, State()) == old(Files(fs.g, dch, State())) && FreeClusters(fs.g, fs.disk) == []
      ensures r.Returned? ==> VolumeStep(fs.g, dch, old(State()), Write(dir.loc, offset, buffer), State())
      ensures r.Returned? ==> fs.g.IsCluster(dir.loc.cluster) && r.value == DirAt(fs.g, fs.disk, dir.loc)
    {
      hide VolumeOk, Written, FatOf, ClusterData, FreeClusters, UsedUpDisk, Files, NewClusters;
      ghost var v := State();
      ghost var ch := files[dir.loc];
      DirFacts(fs.g, dch, v);
      FileFacts(fs.g, dch, v, dir.loc);
      PlaceOk(fs.g, dch, v, dir.loc);
      var w, ch' := fs.WriteBuffer(dir, offset, buffer, ch);
      if w.Panicked? {
        UsedUpKeeps(fs.g, dch, v);
        return Panicked;
      }
      files := files[dir.loc := ch'];
      ghost var n := NewClusters(fs.g, dir.entry, offset + |buffer|);
      ghost var op := Write(dir.loc, offset, buffer);
      assert WriteStep(fs.g, dch, v, op, State(), w.value.0, n);
      StepRefines(fs.g, dch, v, op, State());
      WriteKeepsSlot(fs.g, dch, v, op, State(), w.value.0, n, dir.loc);
      WrittenName(fs.g, dch, v, op, State(), w.value.0, n);
      r := Returned(w.value.0);
    }

    /** Reading gives the bytes of the file, from the start. */
    method ReadAt(dir: DirEntryWithLoc, buffer: array<byte>) returns (n: nat)
      requires Valid() && dir.loc in files && IsSlot(fs.g, dch, dir.loc) && fs.g.IsCluster(dir.loc.cluster)
      requires dir == DirAt(fs.g, fs.disk, dir.loc)
      modifies buffer
      ensures Valid() && State() == old(State()) && dir.loc in Files(fs.g, dch, State())
      ensures var bytes := Files(fs.g, dch, State())[dir.loc].bytes;
        n == Min(buffer.Length, |bytes|) && buffer[..n] == bytes[..n]
    {
      hide VolumeOk, FatOf, Content, Files;
      FileFacts(fs.g, dch, State(), dir.loc);
      FilesHas(fs.g, dch, State(), dir.loc);
      n := fs.ReadBuffer(dir.entry, buffer, files[dir.loc]);
    }

    /** Deletes a file, unless it is empty and an empty one was deleted before: then the call never ends. */
    method DeleteAt(dir: DirEntryWithLoc) returns (r: Ending)
      requires Valid() && dir.loc in files && IsSlot(fs.g, dch, dir.loc) && fs.g.IsCluster(dir.loc.cluster)
      requires dir == DirAt(fs.g, fs.disk, dir.loc)
      modifies this, fs
      ensures Valid()
      ensures r == if old(files)[dir.loc] == [] && old(fs.Table())[0] == 0 then Forever else Ended
      ensures r == Forever ==> State() == old(State())
      ensures r == Ended ==> VolumeStep(fs.g, dch, old(State()), Delete(dir.loc), State())
    {
      hide VolumeOk, FatOf, ClusterData, DeletedDisk, SameButFat, MarkedDeleted, FreeLoop;
      ghost var v := State();
      DirFacts(fs.g, dch, v);
      FileFacts(fs.g, dch, v, dir.loc);
      FirstOfFile(fs.g, dch, v, dir.loc);
      r := DeleteFile(fs, dir);
      if v.files[dir.loc] == [] && FatOf(fs.g, v.d)[0] == 0 {
        FreedZero(FatOf(fs.g, v.d));
        SameFatSameDisk(fs.g, v.d, fs.disk);
      } else {
        FreedIsWalk(fs.g, dch, v, dir.loc);
        files := files - {dir.loc};
        StepRefines(fs.g, dch, v, Delete(dir.loc), State());
      }
    }
  }

  lemma FreedZero(fat: Fat)
    requires |fat| > 0 && fat[0] == 0
    ensures FreeLoop(fat, 0) == (Forever, fat)
  {
  }

  lemma FirstOfFile(g: Geometry, dch: seq<nat>, v: Volume, loc: ClusterOffset)
    requires VolumeOk(g, dch, v) && loc in v.files && ValidDisk(g, v.d) && IsSlot(g, dch, loc) && g.IsCluster(loc.cluster)
    ensures EntryOf(g, v.d, loc).FirstCluster() == 0 <==> v.files[loc] == []
  {
    hide VolumeOk, FatOf, DivCeil, EntryOf;
    FileFacts(g, dch, v, loc);
  }

  /** The slot of a file is outside the file and in an allocated cluster. */
  lemma PlaceOk(g: Geometry, dch: seq<nat>, v: Volume, loc: ClusterOffset)
    requires VolumeOk(g, dch, v) && loc in v.files
    ensures ValidDisk(g, v.d) && EntryPlaceOk(g, v.d, loc, v.files[loc])
  {
    hide VolumeOk, FatOf;
    DirFacts(g, dch, v);
    FileFacts(g, dch, v, loc);
    var i :| 0 <= i < |dch| && dch[i] == loc.cluster;
    ChainNotFree(FatOf(g, v.d), dch, i);
  }

  lemma FreedIsWalk(g: Geometry, dch: seq<nat>, v: Volume, loc: ClusterOffset)
    requires VolumeOk(g, dch, v) && loc in v.files && ValidDisk(g, v.d) && IsSlot(g, dch, loc) && g.IsCluster(loc.cluster)
    requires EntryOf(g, v.d, loc).FirstCluster() == 0 ==> IsEoc(FatOf(g, v.d)[0])
    ensures var walk := FreedWalk(v.files[loc]);
      IsWalk(FatOf(g, v.d), walk) && walk[0] == EntryOf(g, v.d, loc).FirstCluster()
  {
    hide VolumeOk, FatOf, DivCeil, EntryOf;
    FileFacts(g, dch, v, loc);
  }
}
