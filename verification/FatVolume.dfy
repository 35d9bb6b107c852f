/** A FAT32 volume as one byte string: where the table entries and the data clusters lie,
    and the two abstractions of it, the table and the content of a cluster chain. */
module FatVolume {
  import opened Wrappers
  import opened Bytes
  import opened FatChains

  /** The fields of the BIOS parameter block that the driver uses. */
  datatype Bpb = Bpb(
    bytesPerSector: nat,
    sectorsPerCluster: nat,
    reservedSectorCount: nat,
    numFats: nat,
    fatSize32: nat,
    totalSectors32: nat,
    rootCluster: nat)

  /** A well-formed volume: 512-byte sectors and a table that covers every cluster. */
  predicate WellFormed(b: Bpb)
  {
    && b.bytesPerSector == 512
    && 1 <= b.sectorsPerCluster <= 128
    && 1 <= b.numFats
    && b.reservedSectorCount + b.numFats * b.fatSize32 <= b.totalSectors32 < TWO32
    && 2 <= b.rootCluster < TWO28
    && var clusters := (b.totalSectors32 - (b.reservedSectorCount + b.numFats * b.fatSize32)) / b.sectorsPerCluster;
       clusters + 2 <= MAX_CLUSTERS && 4 * (clusters + 2) <= b.fatSize32 * 512
  }

  /** The layout the driver derives from the parameter block, in sectors. */
  datatype Geometry = Geometry(
    bytesPerSector: nat,
    sectorsPerCluster: nat,
    fatStart: nat,
    dataStart: nat,
    totalSectors: nat,
    rootCluster: nat,
    clusterCount: nat)
  {
    function ClusterBytes(): nat { sectorsPerCluster * 512 }

    /** Entries of the table: two reserved ones and one for each data cluster. */
    function Entries(): nat { clusterCount + 2 }

    predicate Valid()
    {
      && bytesPerSector == 512
      && 1 <= sectorsPerCluster <= 128
      && fatStart * 512 + 4 * Entries() <= dataStart * 512
      && dataStart <= totalSectors < TWO32
      && dataStart * 512 + Times(clusterCount, ClusterBytes()) <= totalSectors * 512
      && 2 <= rootCluster < TWO28
      && Entries() <= MAX_CLUSTERS
    }

    predicate IsCluster(c: nat) { 2 <= c < Entries() }
  }

  function GeometryOf(b: Bpb): (g: Geometry)
    requires WellFormed(b)
    ensures g.Valid()
  {
    var dataStart := b.reservedSectorCount + b.numFats * b.fatSize32;
    var clusters := (b.totalSectors32 - dataStart) / b.sectorsPerCluster;
    DataFits(b.reservedSectorCount, b.numFats, b.fatSize32, b.totalSectors32, b.sectorsPerCluster);
    Geometry(b.bytesPerSector, b.sectorsPerCluster, b.reservedSectorCount, dataStart,
             b.totalSectors32, b.rootCluster, clusters)
  }

  /** The tables lie before the data region, and the data clusters before the end of the volume. */
  lemma DataFits(reserved: nat, fats: nat, size: nat, total: nat, spc: nat)
    requires 1 <= fats && 1 <= spc && reserved + fats * size <= total
    ensures var dataStart := reserved + fats * size;
      && dataStart >= reserved + size
      && dataStart * 512 + Times((total - dataStart) / spc, spc * 512) <= total * 512
  {
    var dataStart := reserved + fats * size;
    var clusters := (total - dataStart) / spc;
    DivBounds(total - dataStart, spc);
    TimesBytes(clusters, spc);
    MulMonotone(1, fats, size);
  }

  /** Sector `s` lies in copy `k` of the table. */
  predicate InCopy(b: Bpb, k: nat, s: nat)
  {
    b.reservedSectorCount + k * b.fatSize32 <= s < b.reservedSectorCount + (k + 1) * b.fatSize32
  }

  ghost predicate InSomeCopy(b: Bpb, s: nat) { exists k :: 0 <= k < b.numFats && InCopy(b, k, s) }

  /** Where things lie, in terms of the parameter block: first the reserved sectors, then the copies of
      the table one behind the other, then without a gap the clusters, as many as fit. */
  lemma LayoutExact(b: Bpb)
    requires WellFormed(b)
    ensures var g := GeometryOf(b);
      && EntryAt(g, 0) == b.reservedSectorCount * 512
      && (forall c :: 0 <= c < g.Entries() ==> EntryAt(g, c) + 4 <= (b.reservedSectorCount + b.fatSize32) * 512)
      && (forall s: nat :: b.reservedSectorCount <= s < ClusterToLba(g, 2) <==> InSomeCopy(b, s))
      && (forall c: nat :: c >= 2 ==> ClusterToLba(g, c + 1) == ClusterToLba(g, c) + b.sectorsPerCluster)
      && ClusterToLba(g, g.Entries()) <= b.totalSectors32 < ClusterToLba(g, g.Entries()) + b.sectorsPerCluster
      && g.totalSectors == b.totalSectors32 && g.rootCluster == b.rootCluster
  {
    var g := GeometryOf(b);
    forall s: nat ensures b.reservedSectorCount <= s < ClusterToLba(g, 2) <==> InSomeCopy(b, s) {
      CopiesExact(b, s);
    }
    forall c: nat | c >= 2 ensures ClusterToLba(g, c + 1) == ClusterToLba(g, c) + b.sectorsPerCluster {
      MulNext(c - 2, b.sectorsPerCluster);
    }
    DivBounds(b.totalSectors32 - g.dataStart, b.sectorsPerCluster);
  }

  lemma CopiesExact(b: Bpb, s: nat)
    requires b.fatSize32 > 0
    ensures b.reservedSectorCount <= s < b.reservedSectorCount + b.numFats * b.fatSize32 <==> InSomeCopy(b, s)
  {
    if b.reservedSectorCount <= s < b.reservedSectorCount + b.numFats * b.fatSize32 {
      var a, n := s - b.reservedSectorCount, b.fatSize32;
      var k := a / n;
      DivBounds(a, n);
      if k >= b.numFats { MulMonotone(b.numFats, k, n); }
      MulNext(k, n);
      assert InCopy(b, k, s);
    }
    if k :| 0 <= k < b.numFats && InCopy(b, k, s) {
      MulMonotone(k + 1, b.numFats, b.fatSize32);
    }
  }

  lemma MulNext(n: nat, k: nat)
    ensures (n + 1) * k == n * k + k
  {
  }

  lemma DivBounds(a: nat, k: nat)
    requires k > 0
    ensures a / k * k <= a < a / k * k + k
  {
  }

  /** A change that keeps what is outside table entries and clusters keeps the reserved sectors and every
      other copy of the table. */
  lemma CopiesKept(b: Bpb, d: seq<byte>, d': seq<byte>, i: nat)
    requires WellFormed(b) && ValidDisk(GeometryOf(b), d) && OutsideKept(GeometryOf(b), d, d') && i < |d|
    requires i / 512 < b.reservedSectorCount || exists k :: 1 <= k < b.numFats && InCopy(b, k, i / 512)
    ensures d'[i] == d[i]
  {
    hide RawEntry, OutsideKept, Times;
    var g := GeometryOf(b);
    LayoutExact(b);
    if k :| 1 <= k < b.numFats && InCopy(b, k, i / 512) {
      MulMonotone(1, k, b.fatSize32);
      assert InSomeCopy(b, i / 512);
    }
    OutsideByte(g, d, d', i);
  }

  lemma OutsideByte(g: Geometry, d: seq<byte>, d': seq<byte>, i: nat)
    requires ValidDisk(g, d) && OutsideKept(g, d, d') && i < |d| && !InTable(g, i) && !InData(g, i)
    ensures d'[i] == d[i]
  {
    hide InTable, InData, RawEntry;
  }

  predicate ValidDisk(g: Geometry, d: seq<byte>)
  {
    g.Valid() && |d| == g.totalSectors * 512
  }

  // ---------------------------------------------------------------- layout

  /** Byte position of the table entry of cluster `c`. */
  function EntryAt(g: Geometry, c: nat): nat { g.fatStart * 512 + 4 * c }

  /** Byte position of the first byte of cluster `c`. */
  function ClusterAt(g: Geometry, c: nat): nat
    requires c >= 2
  {
    g.dataStart * 512 + Times(c - 2, g.ClusterBytes())
  }

  /** `cluster_to_lba` */
  function ClusterToLba(g: Geometry, c: nat): nat
    requires c >= 2
  {
    g.dataStart + (c - 2) * g.sectorsPerCluster
  }

  lemma LbaOfCluster(g: Geometry, c: nat)
    requires c >= 2
    ensures ClusterToLba(g, c) * 512 == ClusterAt(g, c)
  {
    TimesBytes(c - 2, g.sectorsPerCluster);
  }

  lemma ClusterRange(g: Geometry, c: nat)
    requires g.Valid() && g.IsCluster(c)
    ensures g.dataStart * 512 <= ClusterAt(g, c)
    ensures ClusterAt(g, c) + g.ClusterBytes() <= g.totalSectors * 512
  {
    TimesFits(c - 2, g.clusterCount, g.ClusterBytes());
  }

  lemma ClustersApart(g: Geometry, a: nat, b: nat)
    requires 2 <= a < b
    ensures ClusterAt(g, a) + g.ClusterBytes() <= ClusterAt(g, b)
  {
    TimesFits(a - 2, b - 2, g.ClusterBytes());
  }

  /** `n * k` by repeated addition, which keeps the proofs about chains linear. */
  function Times(n: nat, k: nat): nat { if n == 0 then 0 else k + Times(n - 1, k) }

  lemma {:induction false} TimesIsProduct(n: nat, k: nat)
    ensures Times(n, k) == n * k
  {
    if n > 0 { TimesIsProduct(n - 1, k); }
  }

  lemma {:induction false} TimesFits(j: nat, n: nat, k: nat)
    requires j < n
    ensures Times(j, k) + k <= Times(n, k)
    decreases j
  {
    if j > 0 { TimesFits(j - 1, n - 1, k); }
  }

  lemma {:induction false} TimesBytes(n: nat, k: nat)
    ensures n * k * 512 == Times(n, k * 512)
  {
    if n > 0 {
      TimesBytes(n - 1, k);
      assert n * k == (n - 1) * k + k;
    }
  }

  lemma MulMonotone(a: int, b: int, k: nat)
    requires a <= b
    ensures a * k <= b * k
  {
  }

  // ---------------------------------------------------------------- the table

  /** The 32 stored bits of an entry; the top four are reserved. */
  function RawEntry(g: Geometry, d: seq<byte>, c: nat): (v: nat)
    requires ValidDisk(g, d) && c < g.Entries()
    ensures v < TWO32
  {
    FromLe(d[EntryAt(g, c)..EntryAt(g, c) + 4])
  }

  function FatOf(g: Geometry, d: seq<byte>): (fat: Fat)
    requires ValidDisk(g, d)
    ensures |fat| == g.Entries()
  {
    seq(g.Entries(), c requires 0 <= c < g.Entries() => RawEntry(g, d, c) % TWO28)
  }

  /** `d'` is `d` up to the 28 used bits of the entries of the table. */
  ghost predicate SameButFat(g: Geometry, d: seq<byte>, d': seq<byte>)
    requires ValidDisk(g, d)
  {
    && |d'| == |d|
    && (forall i :: 0 <= i < |d| && !(EntryAt(g, 0) <= i < EntryAt(g, g.Entries())) ==> d'[i] == d[i])
    && (forall c :: 0 <= c < g.Entries() ==> RawEntry(g, d', c) / TWO28 == RawEntry(g, d, c) / TWO28)
  }

  /** Outside the data clusters and the 28 used bits of the entries of the table, `d'` is `d`: the
      reserved sectors, the other copies of the table, and what lies behind the last cluster. */
  ghost predicate OutsideKept(g: Geometry, d: seq<byte>, d': seq<byte>)
    requires ValidDisk(g, d)
  {
    && |d'| == |d|
    && (forall i :: 0 <= i < |d| && !InTable(g, i) && !InData(g, i) ==> d'[i] == d[i])
    && (forall c :: 0 <= c < g.Entries() ==> RawEntry(g, d', c) / TWO28 == RawEntry(g, d, c) / TWO28)
  }

  predicate InTable(g: Geometry, i: nat) { EntryAt(g, 0) <= i < EntryAt(g, g.Entries()) }

  predicate InData(g: Geometry, i: nat)
  {
    g.dataStart * 512 <= i < g.dataStart * 512 + Times(g.clusterCount, g.ClusterBytes())
  }

  lemma OutsideTransitive(g: Geometry, a: seq<byte>, b: seq<byte>, c: seq<byte>)
    requires ValidDisk(g, a) && OutsideKept(g, a, b) && OutsideKept(g, b, c)
    ensures OutsideKept(g, a, c)
  {
    hide InTable, InData, RawEntry;
  }

  lemma FatChangeKeepsOutside(g: Geometry, d: seq<byte>, d': seq<byte>)
    requires ValidDisk(g, d) && SameButFat(g, d, d')
    ensures OutsideKept(g, d, d')
  {
    hide RawEntry;
  }

  /** The bytes of a volume are determined by its table and the rest of it. */
  lemma SameFatSameDisk(g: Geometry, d: seq<byte>, d': seq<byte>)
    requires ValidDisk(g, d) && SameButFat(g, d, d') && FatOf(g, d') == FatOf(g, d)
    ensures d' == d
  {
    forall i | 0 <= i < |d| ensures d'[i] == d[i] {
      if EntryAt(g, 0) <= i < EntryAt(g, g.Entries()) {
        var c := (i - EntryAt(g, 0)) / 4;
        var lo := EntryAt(g, c);
        assert FatOf(g, d')[c] == FatOf(g, d)[c];
        assert RawEntry(g, d', c) == RawEntry(g, d, c);
        FromLeInjective(d'[lo..lo + 4], d[lo..lo + 4]);
        assert d'[i] == d'[lo..lo + 4][i - lo] && d[i] == d[lo..lo + 4][i - lo];
      }
    }
  }

  /** The volume after the entry of `c` is given the 28 bits of `v`. */
  function PutEntry(g: Geometry, d: seq<byte>, c: nat, v: nat): (d': seq<byte>)
    requires ValidDisk(g, d) && c < g.Entries()
    ensures |d'| == |d|
  {
    Splice(d, EntryAt(g, c), ToLe(NewWord(RawEntry(g, d, c), v)))
  }

  /** The word that `link_clusters` stores: the new 28 bits under the old reserved ones. */
  function NewWord(old_: nat, v: nat): (w: nat)
    requires old_ < TWO32
    ensures w < TWO32 && w % TWO28 == v % TWO28 && w / TWO28 == old_ / TWO28
  {
    v % TWO28 + old_ / TWO28 * TWO28
  }

  lemma PutEntryRaw(g: Geometry, d: seq<byte>, c: nat, v: nat, e: nat)
    requires ValidDisk(g, d) && c < g.Entries() && e < g.Entries()
    ensures RawEntry(g, PutEntry(g, d, c, v), e)
         == if e == c then NewWord(RawEntry(g, d, c), v) else RawEntry(g, d, e)
  {
    hide FromLe, ToLe, NewWord, Splice;
    var lo, w := EntryAt(g, e), ToLe(NewWord(RawEntry(g, d, c), v));
    if e == c {
      SpliceReads(d, lo, w);
    } else {
      SpliceKeeps(d, EntryAt(g, c), w, lo, lo + 4);
    }
  }

  lemma PutEntryFat(g: Geometry, d: seq<byte>, c: nat, v: nat)
    requires ValidDisk(g, d) && c < g.Entries()
    ensures FatOf(g, PutEntry(g, d, c, v)) == FatOf(g, d)[c := v % TWO28]
    ensures SameButFat(g, d, PutEntry(g, d, c, v))
  {
    var d' := PutEntry(g, d, c, v);
    forall e | 0 <= e < g.Entries()
      ensures RawEntry(g, d', e) == if e == c then NewWord(RawEntry(g, d, c), v) else RawEntry(g, d, e)
    {
      PutEntryRaw(g, d, c, v, e);
    }
  }

  /** The sector that holds an entry, and the entry's place in it. */
  lemma EntrySector(g: Geometry, c: nat)
    requires g.Valid() && c < g.Entries()
    ensures var sector, offset := g.fatStart + c * 4 / 512, c * 4 % 512;
      && sector * 512 + offset == EntryAt(g, c)
      && offset + 4 <= 512
      && sector + 1 <= g.totalSectors
  {
    var q, r := c / 128, c % 128;
    assert c == 128 * q + r;
    assert c * 4 == 512 * q + 4 * r;
    assert c * 4 / 512 == q && c * 4 % 512 == 4 * r;
  }

  /** Patching an entry inside its sector and writing the sector back is `PutEntry`. */
  lemma PatchSector(g: Geometry, d: seq<byte>, c: nat, v: nat, lba: nat, offset: nat)
    requires ValidDisk(g, d) && c < g.Entries()
    requires lba == g.fatStart + c * 4 / 512 && offset == c * 4 % 512
    ensures lba * 512 + 512 <= |d| && offset + 4 <= 512
    ensures var sector := d[lba * 512..lba * 512 + 512];
      && FromLe(sector[offset..offset + 4]) == RawEntry(g, d, c)
      && Splice(d, lba * 512, Splice(sector, offset, ToLe(NewWord(RawEntry(g, d, c), v)))) == PutEntry(g, d, c, v)
  {
    hide FromLe, ToLe, NewWord;
    EntrySector(g, c);
    var sector := d[lba * 512..lba * 512 + 512];
    WindowSlice(d, lba * 512, lba * 512 + 512, offset, offset + 4);
    SpliceWindow(d, lba * 512, lba * 512 + 512, offset, ToLe(NewWord(RawEntry(g, d, c), v)));
  }

  lemma SameButFatReflexive(g: Geometry, d: seq<byte>)
    requires ValidDisk(g, d)
    ensures SameButFat(g, d, d)
  {
  }

  lemma SameButFatTransitive(g: Geometry, a: seq<byte>, b: seq<byte>, c: seq<byte>)
    requires ValidDisk(g, a) && SameButFat(g, a, b) && SameButFat(g, b, c)
    ensures SameButFat(g, a, c)
  {
  }

  /** Two changes of the table of `d` that give the same table give the same volume. */
  lemma SameTableSameDisk(g: Geometry, d: seq<byte>, a: seq<byte>, b: seq<byte>)
    requires ValidDisk(g, d) && SameButFat(g, d, a) && SameButFat(g, d, b) && FatOf(g, a) == FatOf(g, b)
    ensures a == b
  {
    hide FatOf, RawEntry;
    assert SameButFat(g, b, a);
    SameFatSameDisk(g, b, a);
  }

  /** The volume after the clusters of `ch` are linked, in the order the driver does it. */
  function LinkDisk(g: Geometry, d: seq<byte>, ch: seq<nat>): (d': seq<byte>)
    requires ValidDisk(g, d) && forall i :: 0 <= i < |ch| ==> ch[i] < g.Entries()
    ensures |d'| == |d|
  {
    if |ch| == 0 then d
    else if |ch| == 1 then PutEntry(g, d, ch[0], EOC)
    else
      var n := |ch| - 1;
      PutEntry(g, PutEntry(g, LinkDisk(g, d, ch[..n]), ch[n - 1], ch[n]), ch[n], EOC)
  }

  function FreeDisk(g: Geometry, d: seq<byte>, ch: seq<nat>): (d': seq<byte>)
    requires ValidDisk(g, d) && forall i :: 0 <= i < |ch| ==> ch[i] < g.Entries()
    ensures |d'| == |d|
  {
    if |ch| == 0 then d
    else
      var n := |ch| - 1;
      PutEntry(g, FreeDisk(g, d, ch[..n]), ch[n], 0)
  }

  lemma {:induction false} LinkDiskFat(g: Geometry, d: seq<byte>, ch: seq<nat>)
    requires ValidDisk(g, d) && forall i :: 0 <= i < |ch| ==> ch[i] < g.Entries()
    ensures FatOf(g, LinkDisk(g, d, ch)) == Link(FatOf(g, d), ch)
  {
    hide PutEntry, SameButFat, FatOf, RawEntry, EntryAt;
    if |ch| == 1 {
      PutEntryFat(g, d, ch[0], EOC);
    } else if |ch| > 1 {
      var n := |ch| - 1;
      LinkDiskFat(g, d, ch[..n]);
      var a := LinkDisk(g, d, ch[..n]);
      PutEntryFat(g, a, ch[n - 1], ch[n]);
      PutEntryFat(g, PutEntry(g, a, ch[n - 1], ch[n]), ch[n], EOC);
    }
  }

  lemma {:induction false} LinkDiskSame(g: Geometry, d: seq<byte>, ch: seq<nat>)
    requires ValidDisk(g, d) && forall i :: 0 <= i < |ch| ==> ch[i] < g.Entries()
    ensures SameButFat(g, d, LinkDisk(g, d, ch))
  {
    hide PutEntry, SameButFat, FatOf;
    SameButFatReflexive(g, d);
    if |ch| == 1 {
      PutEntryFat(g, d, ch[0], EOC);
    } else if |ch| > 1 {
      var n := |ch| - 1;
      LinkDiskSame(g, d, ch[..n]);
      var a := LinkDisk(g, d, ch[..n]);
      var b := PutEntry(g, a, ch[n - 1], ch[n]);
      PutEntryFat(g, a, ch[n - 1], ch[n]);
      PutEntryFat(g, b, ch[n], EOC);
      SameButFatTransitive(g, d, a, b);
      SameButFatTransitive(g, d, b, PutEntry(g, b, ch[n], EOC));
    }
  }

  lemma {:induction false} FreeDiskFat(g: Geometry, d: seq<byte>, ch: seq<nat>)
    requires ValidDisk(g, d) && forall i :: 0 <= i < |ch| ==> ch[i] < g.Entries()
    ensures FatOf(g, FreeDisk(g, d, ch)) == Unlink(FatOf(g, d), ch)
  {
    hide PutEntry, SameButFat, FatOf, Unlink;
    if |ch| > 0 {
      var n := |ch| - 1;
      FreeDiskFat(g, d, ch[..n]);
      PutEntryFat(g, FreeDisk(g, d, ch[..n]), ch[n], 0);
      UnlinkSnoc(FatOf(g, d), ch[..n], ch[n]);
      assert ch == ch[..n] + [ch[n]];
    } else {
      UnlinkNothing(FatOf(g, d), ch);
    }
  }

  lemma {:induction false} FreeDiskSame(g: Geometry, d: seq<byte>, ch: seq<nat>)
    requires ValidDisk(g, d) && forall i :: 0 <= i < |ch| ==> ch[i] < g.Entries()
    ensures SameButFat(g, d, FreeDisk(g, d, ch))
  {
    hide PutEntry, SameButFat, FatOf;
    SameButFatReflexive(g, d);
    if |ch| > 0 {
      var n := |ch| - 1;
      var a := FreeDisk(g, d, ch[..n]);
      FreeDiskSame(g, d, ch[..n]);
      PutEntryFat(g, a, ch[n], 0);
      SameButFatTransitive(g, d, a, PutEntry(g, a, ch[n], 0));
    }
  }

  /** Writing an entry its own value changes nothing. */
  lemma PutEntrySame(g: Geometry, d: seq<byte>, c: nat, v: nat)
    requires ValidDisk(g, d) && c < g.Entries() && FatOf(g, d)[c] == v % TWO28
    ensures PutEntry(g, d, c, v) == d
  {
    PutEntryFat(g, d, c, v);
    SameFatSameDisk(g, d, PutEntry(g, d, c, v));
  }

  /** Freeing a chain built from free clusters restores the volume byte for byte, the
      reserved top bits of the entries included. */
  lemma FreeAfterLink(g: Geometry, d: seq<byte>, ch: seq<nat>)
    requires ValidDisk(g, d) && Distinct(ch)
    requires forall i :: 0 <= i < |ch| ==> ch[i] < g.Entries() && FatOf(g, d)[ch[i]] == 0
    ensures FreeDisk(g, LinkDisk(g, d, ch), ch) == d
  {
    hide LinkDisk, FreeDisk, Link, Unlink, SameButFat, FatOf;
    LinkDiskFat(g, d, ch);
    LinkDiskSame(g, d, ch);
    FreeDiskFat(g, LinkDisk(g, d, ch), ch);
    FreeDiskSame(g, LinkDisk(g, d, ch), ch);
    UnlinkLink(FatOf(g, d), ch);
    SameButFatTransitive(g, d, LinkDisk(g, d, ch), FreeDisk(g, LinkDisk(g, d, ch), ch));
    SameFatSameDisk(g, d, FreeDisk(g, LinkDisk(g, d, ch), ch));
  }

  // ---------------------------------------------------------------- cluster contents

  function ClusterData(g: Geometry, d: seq<byte>, c: nat): (r: seq<byte>)
    requires ValidDisk(g, d) && g.IsCluster(c)
    ensures |r| == g.ClusterBytes()
  {
    ClusterRange(g, c);
    d[ClusterAt(g, c)..ClusterAt(g, c) + g.ClusterBytes()]
  }

  ghost predicate AreClusters(g: Geometry, ch: seq<nat>)
    requires g.Valid()
  {
    forall i :: 0 <= i < |ch| ==> g.IsCluster(ch[i])
  }

  /** The bytes of the clusters of `ch`, one after the other. */
  ghost function Flat(g: Geometry, d: seq<byte>, ch: seq<nat>): (r: seq<byte>)
    requires ValidDisk(g, d) && AreClusters(g, ch)
    ensures |r| == Times(|ch|, g.ClusterBytes())
  {
    if ch == [] then [] else ClusterData(g, d, ch[0]) + Flat(g, d, ch[1..])
  }

  lemma {:induction false} FlatConcat(g: Geometry, d: seq<byte>, a: seq<nat>, b: seq<nat>)
    requires ValidDisk(g, d) && AreClusters(g, a) && AreClusters(g, b)
    ensures AreClusters(g, a + b) && Flat(g, d, a + b) == Flat(g, d, a) + Flat(g, d, b)
  {
    hide ClusterData;
    if a == [] {
      assert a + b == b;
    } else {
      FlatConcat(g, d, a[1..], b);
      assert (a + b)[1..] == a[1..] + b;
      ConcatAssociative(ClusterData(g, d, a[0]), Flat(g, d, a[1..]), Flat(g, d, b));
    }
  }

  lemma {:induction false} FlatFrame(g: Geometry, d: seq<byte>, d': seq<byte>, ch: seq<nat>)
    requires ValidDisk(g, d) && ValidDisk(g, d') && AreClusters(g, ch)
    requires forall i :: 0 <= i < |ch| ==> ClusterData(g, d', ch[i]) == ClusterData(g, d, ch[i])
    ensures Flat(g, d', ch) == Flat(g, d, ch)
  {
    if ch != [] {
      FlatFrame(g, d, d', ch[1..]);
    }
  }

  /** Changing the table changes no cluster. */
  lemma FatChangeKeepsCluster(g: Geometry, d: seq<byte>, d': seq<byte>, c: nat)
    requires ValidDisk(g, d) && SameButFat(g, d, d') && g.IsCluster(c)
    ensures ClusterData(g, d', c) == ClusterData(g, d, c)
  {
    ClusterRange(g, c);
  }

  /** The volume after `data` is written at offset `at` of cluster `c`. */
  function PutData(g: Geometry, d: seq<byte>, c: nat, at: nat, data: seq<byte>): (d': seq<byte>)
    requires ValidDisk(g, d) && g.IsCluster(c) && at + |data| <= g.ClusterBytes()
    ensures |d'| == |d|
  {
    ClusterRange(g, c);
    Splice(d, ClusterAt(g, c) + at, data)
  }

  /** A write inside one cluster changes that cluster only, and not the table. */
  lemma PutDataCluster(g: Geometry, d: seq<byte>, c: nat, at: nat, data: seq<byte>, e: nat)
    requires ValidDisk(g, d) && g.IsCluster(c) && at + |data| <= g.ClusterBytes() && g.IsCluster(e)
    ensures ClusterData(g, PutData(g, d, c, at, data), e)
         == if e == c then Splice(ClusterData(g, d, c), at, data) else ClusterData(g, d, e)
  {
    hide Splice, Times;
    ClusterRange(g, c);
    ClusterRange(g, e);
    var lo, hi := ClusterAt(g, e), ClusterAt(g, e) + g.ClusterBytes();
    if e == c {
      SpliceInside(d, lo, hi, at, data);
    } else {
      if e < c { ClustersApart(g, e, c); } else { ClustersApart(g, c, e); }
      SpliceKeeps(d, ClusterAt(g, c) + at, data, lo, hi);
    }
  }

  lemma PutDataFat(g: Geometry, d: seq<byte>, c: nat, at: nat, data: seq<byte>)
    requires ValidDisk(g, d) && g.IsCluster(c) && at + |data| <= g.ClusterBytes()
    ensures FatOf(g, PutData(g, d, c, at, data)) == FatOf(g, d)
  {
    var d' := PutData(g, d, c, at, data);
    ClusterRange(g, c);
    hide FromLe, Splice, Times;
    forall e | 0 <= e < g.Entries() ensures RawEntry(g, d', e) == RawEntry(g, d, e) {
      SpliceKeeps(d, ClusterAt(g, c) + at, data, EntryAt(g, e), EntryAt(g, e) + 4);
    }
  }

  lemma PutDataOutside(g: Geometry, d: seq<byte>, c: nat, at: nat, data: seq<byte>)
    requires ValidDisk(g, d) && g.IsCluster(c) && at + |data| <= g.ClusterBytes()
    ensures OutsideKept(g, d, PutData(g, d, c, at, data))
  {
    hide FromLe, Splice, Times;
    var d' := PutData(g, d, c, at, data);
    ClusterRange(g, c);
    TimesFits(c - 2, g.clusterCount, g.ClusterBytes());
    SpliceAt(d, ClusterAt(g, c) + at, data);
    forall e | 0 <= e < g.Entries() ensures RawEntry(g, d', e) == RawEntry(g, d, e) {
      SpliceKeeps(d, ClusterAt(g, c) + at, data, EntryAt(g, e), EntryAt(g, e) + 4);
    }
  }

  /** A write at offset `at` of the `j`-th cluster of a chain is a write at the matching
      position of the chain's bytes. */
  lemma {:induction false} PutDataFlat(g: Geometry, d: seq<byte>, ch: seq<nat>, j: nat, at: nat, data: seq<byte>)
    requires ValidDisk(g, d) && AreClusters(g, ch) && Distinct(ch)
    requires j < |ch| && at + |data| <= g.ClusterBytes()
    ensures Times(j, g.ClusterBytes()) + at + |data| <= Times(|ch|, g.ClusterBytes())
    ensures Flat(g, PutData(g, d, ch[j], at, data), ch)
         == Splice(Flat(g, d, ch), Times(j, g.ClusterBytes()) + at, data)
  {
    hide PutData, ClusterData, Flat;
    TimesFits(j, |ch|, g.ClusterBytes());
    if j == 0 {
      PutDataFirst(g, d, ch, at, data);
    } else {
      PutDataFlat(g, d, ch[1..], j - 1, at, data);
      PutDataLater(g, d, ch, j, at, data);
    }
  }

  lemma PutDataLater(g: Geometry, d: seq<byte>, ch: seq<nat>, j: nat, at: nat, data: seq<byte>)
    requires ValidDisk(g, d) && AreClusters(g, ch) && Distinct(ch)
    requires 0 < j < |ch| && at + |data| <= g.ClusterBytes()
    requires Times(j, g.ClusterBytes()) + at + |data| <= Times(|ch|, g.ClusterBytes())
    requires Flat(g, PutData(g, d, ch[j], at, data), ch[1..])
          == Splice(Flat(g, d, ch[1..]), Times(j - 1, g.ClusterBytes()) + at, data)
    ensures Flat(g, PutData(g, d, ch[j], at, data), ch)
         == Splice(Flat(g, d, ch), Times(j, g.ClusterBytes()) + at, data)
  {
    hide PutData, ClusterData;
    PutDataCluster(g, d, ch[j], at, data, ch[0]);
    SpliceRight(ClusterData(g, d, ch[0]), Flat(g, d, ch[1..]), Times(j - 1, g.ClusterBytes()) + at, data);
  }

  lemma PutDataFirst(g: Geometry, d: seq<byte>, ch: seq<nat>, at: nat, data: seq<byte>)
    requires ValidDisk(g, d) && AreClusters(g, ch) && Distinct(ch) && |ch| > 0
    requires at + |data| <= g.ClusterBytes() <= Times(|ch|, g.ClusterBytes())
    ensures Flat(g, PutData(g, d, ch[0], at, data), ch) == Splice(Flat(g, d, ch), at, data)
  {
    hide PutData, ClusterData;
    var d' := PutData(g, d, ch[0], at, data);
    var rest := ch[1..];
    PutDataCluster(g, d, ch[0], at, data, ch[0]);
    forall i | 0 <= i < |rest| ensures ClusterData(g, d', rest[i]) == ClusterData(g, d, rest[i]) {
      assert rest[i] == ch[i + 1];
      PutDataCluster(g, d, ch[0], at, data, rest[i]);
    }
    FlatFrame(g, d, d', rest);
    SpliceLeft(ClusterData(g, d, ch[0]), Flat(g, d, rest), at, data);
  }
}
