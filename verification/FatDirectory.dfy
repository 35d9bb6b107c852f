/** Directories of a FAT32 volume: 8.3 names, listing, lookup and creation of a file. */
module FatDirectory {
  import opened Wrappers
  import opened Bytes
  import opened FatChains
  import opened FatVolume
  import opened FatEntry
  import opened Fat32Driver

  // ---------------------------------------------------------------- 8.3 names

  const DOT: byte := 0x2E
  const SPACE: byte := 0x20

  type Ascii = x: byte | 0 <= x < 128

  /** A file name is given by its ASCII bytes. */
  type FileName = seq<Ascii>

  function ToUpper(c: Ascii): Ascii { if 0x61 <= c <= 0x7A then c - 0x20 else c }

  function Upper(s: FileName): (r: FileName)
    ensures |r| == |s| && forall i :: 0 <= i < |s| ==> r[i] == ToUpper(s[i])
  {
    seq(|s|, i requires 0 <= i < |s| => ToUpper(s[i]))
  }

  /** `split_once(".")`: the parts around the first dot. */
  function SplitFirst(s: FileName): (r: Option<(FileName, FileName)>)
    ensures match r
      case None => DOT !in s
      case Some((a, b)) => s == a + [DOT] + b && DOT !in a
  {
    if s == [] then None
    else if s[0] == DOT then Some(([], s[1..]))
    else match SplitFirst(s[1..])
      case None => None
      case Some((a, b)) => Some(([s[0]] + a, b))
  }

  /** `rsplit_once(".")`: the parts around the last dot. */
  function SplitLast(s: FileName): (r: Option<(FileName, FileName)>)
    ensures match r
      case None => DOT !in s
      case Some((a, b)) => s == a + [DOT] + b && DOT !in b
  {
    if s == [] then None
    else
      var n := |s| - 1;
      if s[n] == DOT then Some((s[..n], []))
      else match SplitLast(s[..n])
        case None => None
        case Some((a, b)) => Some((a, b + [s[n]]))
  }

  /** One past the last byte that is not a space. */
  function TrimmedLength(b: seq<byte>): (n: nat)
    ensures n <= |b|
    ensures n > 0 ==> b[n - 1] != SPACE
    ensures forall i :: n <= i < |b| ==> b[i] == SPACE
  {
    if b == [] then 0
    else if b[|b| - 1] != SPACE then |b|
    else TrimmedLength(b[..|b| - 1])
  }

  predicate CompareStringBytes(s: FileName, b: seq<byte>)
  {
    |s| == TrimmedLength(b) && Upper(s) == b[..TrimmedLength(b)]
  }

  predicate CompareDirent(name: FileName, e: DirEntry)
  {
    match SplitFirst(name)
    case Some((filename, ext)) => CompareStringBytes(filename, e.name) && CompareStringBytes(ext, e.ext)
    case None => CompareStringBytes(name, e.name) && forall i :: 0 <= i < 3 ==> e.ext[i] == SPACE
  }

  /** The name and extension that `create_file` stores for `name`. */
  function StoredParts(name: FileName): (FileName, FileName)
  {
    match SplitLast(name)
    case Some((n, e)) => (n, e)
    case None => (name, [])
  }

  /** The first `width` characters in upper case, padded with spaces. */
  function Padded(s: FileName, width: nat): (b: seq<byte>)
    ensures |b| == width
  {
    var n := Min(|s|, width);
    Upper(s[..n]) + seq(width - n, _ => SPACE)
  }

  /** The entry `create_file` writes. */
  function NewEntry(name: FileName, time: u16, date: u16): (e: DirEntry)
    requires |StoredParts(name).1| <= 3
  {
    DirEntry(Padded(StoredParts(name).0, 8), Padded(StoredParts(name).1, 3), FAT_ATTR_ARCHIVE,
             0, 0, time, date, date, 0, time, date, 0, 0)
  }

  /** The names that survive the round trip through a directory entry: at most one dot, at most
      eight and three characters around it, neither part ending in a space. */
  predicate GoodName(name: FileName)
  {
    var (n, e) := StoredParts(name);
    && DOT !in n
    && |n| <= 8 && |e| <= 3
    && (n == [] || n[|n| - 1] != SPACE)
    && (e == [] || e[|e| - 1] != SPACE)
  }

  lemma PaddedMatches(s: FileName, width: nat)
    ensures CompareStringBytes(s, Padded(s, width)) <==> |s| <= width && (s == [] || s[|s| - 1] != SPACE)
    ensures TrimmedLength(Padded(s, width)) <= |s|
  {
    var b := Padded(s, width);
    var n := Min(|s|, width);
    var t := TrimmedLength(b);
    assert forall i :: n <= i < width ==> b[i] == SPACE;
    assert forall i :: 0 <= i < n ==> b[i] == ToUpper(s[i]);
    assert t <= n;
    if |s| <= width && (s == [] || s[|s| - 1] != SPACE) {
      assert s[..n] == s;
      assert t == n;
      assert b[..t] == Upper(s);
    } else if |s| <= width {
      assert b[n - 1] == ToUpper(s[n - 1]) == SPACE;
    }
  }

  lemma SplitsAgree(name: FileName)
    ensures SplitFirst(name).None? <==> SplitLast(name).None?
    ensures SplitFirst(name).Some? ==>
      var (a, b) := SplitFirst(name).value; var (n, e) := SplitLast(name).value;
      if DOT !in n then a == n && b == e else |e| < |b|
  {
    if SplitFirst(name).Some? {
      var (a, b) := SplitFirst(name).value;
      var (n, e) := SplitLast(name).value;
      assert name[|a|] == DOT && name[|n|] == DOT;
      assert |a| <= |n|;
      if |a| < |n| {
        assert n[|a|] == DOT;
      } else {
        assert a == name[..|a|] == n && b == name[|a| + 1..] == e;
      }
    }
  }

  lemma BlankPadding()
    ensures forall i :: 0 <= i < 3 ==> Padded([], 3)[i] == SPACE
  {
  }

  lemma LongerNeverMatches(e: FileName)
    requires |e| <= 3
    ensures forall b: FileName :: |b| > |e| ==> !CompareStringBytes(b, Padded(e, 3))
  {
    PaddedMatches(e, 3);
  }

  /** A name finds the entry it was stored under exactly when it is a good 8.3 name. */
  lemma NameRoundTrip(name: FileName, time: u16, date: u16)
    requires |StoredParts(name).1| <= 3
    ensures CompareDirent(name, NewEntry(name, time, date)) <==> GoodName(name)
  {
    hide CompareStringBytes, Padded, SplitFirst, SplitLast;
    var (n, e) := StoredParts(name);
    SplitsAgree(name);
    PaddedMatches(n, 8);
    PaddedMatches(e, 3);
    BlankPadding();
    LongerNeverMatches(e);
  }

  /** Two names that match one entry match the same entries. */
  lemma SameMatches(a: FileName, b: FileName, e: DirEntry, e': DirEntry)
    requires CompareDirent(a, e) && CompareDirent(b, e)
    ensures CompareDirent(a, e') ==> CompareDirent(b, e')
  {
    if CompareDirent(a, e') {
      PartsOf(a, e);
      PartsOf(b, e);
      PartsOf(a, e');
      PartsMatch(b, e, e');
    }
  }

  /** What a match says: name and extension of the entry, cut at their padding. */
  ghost function Key(e: DirEntry): (seq<byte>, seq<byte>)
  {
    (e.name[..TrimmedLength(e.name)], e.ext[..TrimmedLength(e.ext)])
  }

  function NameKey(a: FileName): (seq<byte>, seq<byte>)
  {
    match SplitFirst(a)
    case Some((filename, ext)) => (Upper(filename), Upper(ext))
    case None => (Upper(a), [])
  }

  lemma PartsOf(a: FileName, e: DirEntry)
    requires CompareDirent(a, e)
    ensures Key(e) == NameKey(a)
  {
    assert SplitFirst(a).None? ==> TrimmedLength(e.ext) == 0;
  }

  lemma PartsMatch(b: FileName, e: DirEntry, e': DirEntry)
    requires CompareDirent(b, e) && Key(e) == Key(e')
    ensures CompareDirent(b, e')
  {
    assert |e.name[..TrimmedLength(e.name)]| == |e'.name[..TrimmedLength(e'.name)]|;
    assert |e.ext[..TrimmedLength(e.ext)]| == |e'.ext[..TrimmedLength(e'.ext)]|;
    if SplitFirst(b).None? {
      PartsOf(b, e);
    }
  }

  // ---------------------------------------------------------------- letters

  /** Byte `b` is character `c`, a small letter made a capital one. */
  predicate Folded(c: Ascii, b: byte) { if 'a' as int <= c <= 'z' as int then b == c - 'a' as int + 'A' as int else b == c }

  /** A part of a name matches a field exactly when the field holds its characters folded, then blanks. */
  lemma FieldExact(s: FileName, b: seq<byte>)
    ensures CompareStringBytes(s, b) <==>
      && |s| <= |b| && (s == [] || s[|s| - 1] != SPACE)
      && (forall i :: 0 <= i < |s| ==> Folded(s[i], b[i])) && forall i :: |s| <= i < |b| ==> b[i] == SPACE
  {
    var n := TrimmedLength(b);
    if CompareStringBytes(s, b) {
      forall i | 0 <= i < |s| ensures Folded(s[i], b[i]) { assert Upper(s)[i] == b[..n][i]; }
    }
    if && |s| <= |b| && (s == [] || s[|s| - 1] != SPACE)
       && (forall i :: 0 <= i < |s| ==> Folded(s[i], b[i])) && forall i :: |s| <= i < |b| ==> b[i] == SPACE {
      if s != [] { assert Folded(s[|s| - 1], b[|s| - 1]); }
      assert n == |s|;
      assert Upper(s) == b[..n];
    }
  }

  /** The two characters are the same up to the case of a letter. */
  predicate SameLetter(c: Ascii, d: Ascii)
  {
    || c == d
    || ('a' as int <= c <= 'z' as int && d == c - 'a' as int + 'A' as int)
    || ('a' as int <= d <= 'z' as int && c == d - 'a' as int + 'A' as int)
  }

  ghost predicate SameButCase(a: FileName, b: FileName)
  {
    |a| == |b| && forall i :: 0 <= i < |a| ==> SameLetter(a[i], b[i])
  }

  lemma {:induction false} SplitSame(a: FileName, b: FileName)
    requires SameButCase(a, b)
    ensures match SplitFirst(a)
      case None => SplitFirst(b).None?
      case Some((x, y)) => SplitFirst(b).Some? && SameButCase(x, SplitFirst(b).value.0) && SameButCase(y, SplitFirst(b).value.1)
  {
    if a != [] {
      assert SameLetter(a[0], b[0]);
      SplitSame(a[1..], b[1..]);
    }
  }

  lemma FieldSame(a: FileName, b: FileName, f: seq<byte>)
    requires SameButCase(a, b)
    ensures CompareStringBytes(a, f) <==> CompareStringBytes(b, f)
  {
    assert Upper(a) == Upper(b);
  }

  /** Names that differ only in the case of letters match the same entries. */
  lemma CaseBlind(a: FileName, b: FileName, e: DirEntry)
    requires SameButCase(a, b)
    ensures CompareDirent(a, e) <==> CompareDirent(b, e)
  {
    hide CompareStringBytes, SameButCase;
    SplitSame(a, b);
    FieldSame(a, b, e.name);
    FieldSame(a, b, e.ext);
    if SplitFirst(a).Some? {
      FieldSame(SplitFirst(a).value.0, SplitFirst(b).value.0, e.name);
      FieldSame(SplitFirst(a).value.1, SplitFirst(b).value.1, e.ext);
    }
  }

  /** What `create_file` stores: the characters of each part folded and cut to the field, then blanks, so
      never a small letter. */
  lemma StoredExact(name: FileName, time: u16, date: u16)
    requires |StoredParts(name).1| <= 3
    ensures var (n, x) := StoredParts(name); var e := NewEntry(name, time, date);
      && (forall i :: 0 <= i < 8 ==> if i < |n| then Folded(n[i], e.name[i]) else e.name[i] == SPACE)
      && (forall i :: 0 <= i < 3 ==> if i < |x| then Folded(x[i], e.ext[i]) else e.ext[i] == SPACE)
      && (forall i :: 0 <= i < 8 ==> !('a' as int <= e.name[i] <= 'z' as int))
      && (forall i :: 0 <= i < 3 ==> !('a' as int <= e.ext[i] <= 'z' as int))
      && e.fileSize == 0 && e.FirstCluster() == 0 && e.attr == 0x20 && e.ntReserved == 0 && e.creationTimeTenth == 0
      && e.creationTime == e.writeTime == time && e.creationDate == e.writeDate == e.lastAccessDate == date
  {
    hide SplitLast;
  }

  // ---------------------------------------------------------------- listing

  predicate Slots(data: seq<byte>, i: nat) { |data| % 32 == 0 && 32 * i <= |data| }

  /** The entries of one directory cluster from slot `i` on: up to the first unused slot,
      without the deleted ones. */
  function SlotEntries(cluster: nat, data: seq<byte>, i: nat): seq<DirEntryWithLoc>
    requires Slots(data, i)
    decreases |data| - 32 * i
  {
    if 32 * i == |data| || data[32 * i] == 0 then []
    else if data[32 * i] == DELETED then SlotEntries(cluster, data, i + 1)
    else [SlotEntry(cluster, data, i)] + SlotEntries(cluster, data, i + 1)
  }

  function SlotEntry(cluster: nat, data: seq<byte>, i: nat): DirEntryWithLoc
    requires Slots(data, i + 1)
  {
    DirEntryWithLoc(Parse(data[32 * i..32 * i + 32]), ClusterOffset(cluster, 32 * i))
  }

  /** The entries of a directory, cluster by cluster. */
  ghost function DirEntries(g: Geometry, d: seq<byte>, ch: seq<nat>): seq<DirEntryWithLoc>
    requires ValidDisk(g, d) && AreClusters(g, ch)
  {
    if ch == [] then []
    else SlotEntries(ch[0], ClusterData(g, d, ch[0]), 0) + DirEntries(g, d, ch[1..])
  }

  function FirstMatch(name: FileName, es: seq<DirEntryWithLoc>): (r: Option<DirEntryWithLoc>)
    ensures match r
      case None => forall i :: 0 <= i < |es| ==> !CompareDirent(name, es[i].entry)
      case Some(x) => x in es && CompareDirent(name, x.entry)
  {
    if es == [] then None
    else if CompareDirent(name, es[0].entry) then Some(es[0])
    else FirstMatch(name, es[1..])
  }

  /** The first free slot of a cluster, from slot `i` on. */
  function FreeSlot(data: seq<byte>, i: nat): (r: Option<nat>)
    requires Slots(data, i)
    ensures r.Some? ==> i <= r.value && Slots(data, r.value + 1)
    decreases |data| - 32 * i
  {
    if 32 * i == |data| then None
    else if data[32 * i] == 0 || data[32 * i] == DELETED then Some(i)
    else FreeSlot(data, i + 1)
  }

  /** The first free slot of a directory. */
  ghost function FreePosition(g: Geometry, d: seq<byte>, ch: seq<nat>): (r: Option<ClusterOffset>)
    requires ValidDisk(g, d) && AreClusters(g, ch)
    ensures r.Some? ==> r.value.cluster in ch && r.value.offset + 32 <= g.ClusterBytes()
  {
    if ch == [] then None
    else match FreeSlot(ClusterData(g, d, ch[0]), 0)
      case Some(i) => Some(ClusterOffset(ch[0], 32 * i))
      case None => FreePosition(g, d, ch[1..])
  }

  /** A lookup finds the first listed entry that matches. */
  lemma {:induction false} FirstMatchExact(name: FileName, es: seq<DirEntryWithLoc>, k: nat)
    requires k < |es| && CompareDirent(name, es[k].entry) && forall i :: 0 <= i < k ==> !CompareDirent(name, es[i].entry)
    ensures FirstMatch(name, es) == Some(es[k])
    decreases |es|
  {
    hide CompareDirent;
    if k > 0 { FirstMatchExact(name, es[1..], k - 1); }
  }

  /** Slot `i` of cluster `c` holds an entry that is neither unused nor deleted. */
  ghost predicate Taken(g: Geometry, d: seq<byte>, c: nat, i: nat)
    requires ValidDisk(g, d) && g.IsCluster(c) && 32 * i < g.ClusterBytes()
  {
    var first := ClusterData(g, d, c)[32 * i]; first != 0x00 && first != 0xE5
  }

  ghost predicate AllTaken(g: Geometry, d: seq<byte>, c: nat, n: nat)
    requires ValidDisk(g, d) && g.IsCluster(c) && 32 * n <= g.ClusterBytes()
  {
    forall i :: 0 <= i < n ==> Taken(g, d, c, i)
  }

  lemma {:induction false} FreeSlotExact(g: Geometry, d: seq<byte>, c: nat, i: nat)
    requires ValidDisk(g, d) && g.IsCluster(c) && Slots(ClusterData(g, d, c), i) && AllTaken(g, d, c, i)
    ensures match FreeSlot(ClusterData(g, d, c), i)
      case None => AllTaken(g, d, c, g.ClusterBytes() / 32)
      case Some(k) => 32 * k + 32 <= g.ClusterBytes() && !Taken(g, d, c, k) && AllTaken(g, d, c, k)
    decreases g.ClusterBytes() - 32 * i
  {
    hide ClusterData;
    if 32 * i < g.ClusterBytes() && Taken(g, d, c, i) { FreeSlotExact(g, d, c, i + 1); }
  }

  /** `k` is the first free slot of cluster `j` of the chain, and the clusters before are full. */
  ghost predicate FirstFreeAt(g: Geometry, d: seq<byte>, ch: seq<nat>, j: nat, k: nat)
    requires ValidDisk(g, d) && AreClusters(g, ch)
  {
    && j < |ch| && 32 * k + 32 <= g.ClusterBytes() && !Taken(g, d, ch[j], k) && AllTaken(g, d, ch[j], k)
    && forall i :: 0 <= i < j ==> AllTaken(g, d, ch[i], g.ClusterBytes() / 32)
  }

  /** A new entry goes to the first slot of the directory that is unused or deleted; there is none exactly
      when every slot is taken. */
  lemma {:induction false} FreePositionExact(g: Geometry, d: seq<byte>, ch: seq<nat>)
    requires ValidDisk(g, d) && AreClusters(g, ch)
    ensures match FreePosition(g, d, ch)
      case None => forall j :: 0 <= j < |ch| ==> AllTaken(g, d, ch[j], g.ClusterBytes() / 32)
      case Some(pos) => exists j: nat, k: nat :: FirstFreeAt(g, d, ch, j, k) && pos == ClusterOffset(ch[j], 32 * k)
  {
    hide ClusterData, Taken, AllTaken, FreeSlot;
    if ch != [] {
      NothingTaken(g, d, ch[0]);
      FreeSlotExact(g, d, ch[0], 0);
      match FreeSlot(ClusterData(g, d, ch[0]), 0)
      case Some(k) => assert FirstFreeAt(g, d, ch, 0, k);
      case None =>
        FreePositionExact(g, d, ch[1..]);
        if FreePosition(g, d, ch[1..]).Some? {
          var j: nat, k: nat :| FirstFreeAt(g, d, ch[1..], j, k) && FreePosition(g, d, ch[1..]).value == ClusterOffset(ch[1..][j], 32 * k);
          assert FirstFreeAt(g, d, ch, j + 1, k);
        }
    }
  }

  lemma NothingTaken(g: Geometry, d: seq<byte>, c: nat)
    requires ValidDisk(g, d) && g.IsCluster(c)
    ensures AllTaken(g, d, c, 0)
  {
  }

  method ReadSlots(cluster: nat, buffer: seq<byte>) returns (entries: seq<DirEntryWithLoc>)
    requires Slots(buffer, 0)
    ensures entries == SlotEntries(cluster, buffer, 0)
  {
    entries := [];
    var i := 0;
    while i < |buffer| / 32
      invariant 0 <= i && Slots(buffer, i)
      invariant entries + SlotEntries(cluster, buffer, i) == SlotEntries(cluster, buffer, 0)
    {
      if buffer[32 * i] == 0 {
        break;
      }
      if buffer[32 * i] != DELETED {
        entries := entries + [SlotEntry(cluster, buffer, i)];
      }
      i := i + 1;
    }
  }

  method ReadDirFromCluster(fs: Fat32, start: nat, ghost ch: seq<nat>) returns (entries: seq<DirEntryWithLoc>)
    requires fs.Valid() && IsChain(fs.Table(), ch) && start == ch[0]
    ensures AreClusters(fs.g, ch) && entries == DirEntries(fs.g, fs.disk, ch)
  {
    hide FatOf, ClusterData, SlotEntries;
    entries := [];
    var cluster := start;
    ghost var j := 0;
    while IsValidNext(cluster)
      invariant 0 <= j <= |ch|
      invariant if j < |ch| then cluster == ch[j] else IsEoc(cluster)
      invariant entries + DirEntries(fs.g, fs.disk, ch[j..]) == DirEntries(fs.g, fs.disk, ch)
      decreases |ch| - j
    {
      var buffer := fs.ReadCluster(cluster);
      var here := ReadSlots(cluster, buffer);
      assert ch[j..][1..] == ch[j + 1..];
      assert entries + (here + DirEntries(fs.g, fs.disk, ch[j + 1..])) == (entries + here) + DirEntries(fs.g, fs.disk, ch[j + 1..]);
      entries := entries + here;
      cluster := fs.GetNextCluster(cluster);
      j := j + 1;
    }
    assert ch[j..] == [];
  }

  method Find(fs: Fat32, parent: nat, name: FileName, ghost ch: seq<nat>) returns (r: Option<DirEntryWithLoc>)
    requires fs.Valid() && IsChain(fs.Table(), ch) && parent == ch[0]
    ensures AreClusters(fs.g, ch) && r == FirstMatch(name, DirEntries(fs.g, fs.disk, ch))
  {
    hide FatOf, DirEntries, CompareDirent;
    var entries := ReadDirFromCluster(fs, parent, ch);
    var k := 0;
    while k < |entries|
      invariant 0 <= k <= |entries|
      invariant FirstMatch(name, entries) == FirstMatch(name, entries[k..])
    {
      if CompareDirent(name, entries[k].entry) {
        return Some(entries[k]);
      }
      k := k + 1;
    }
    return None;
  }

  method GetFreeDirentPos(fs: Fat32, first: nat, ghost ch: seq<nat>) returns (r: Option<ClusterOffset>)
    requires fs.Valid() && IsChain(fs.Table(), ch) && first == ch[0]
    ensures AreClusters(fs.g, ch) && r == FreePosition(fs.g, fs.disk, ch)
  {
    hide FatOf, ClusterData;
    var cluster := first;
    ghost var j := 0;
    while !IsEoc(cluster)
      invariant 0 <= j <= |ch|
      invariant if j < |ch| then cluster == ch[j] else IsEoc(cluster)
      invariant FreePosition(fs.g, fs.disk, ch[j..]) == FreePosition(fs.g, fs.disk, ch)
      decreases |ch| - j
    {
      var buffer := fs.ReadCluster(cluster);
      var slot := ScanSlots(buffer);
      assert ch[j..][1..] == ch[j + 1..];
      if slot.Some? {
        return Some(ClusterOffset(cluster, 32 * slot.value));
      }
      cluster := fs.GetNextCluster(cluster);
      j := j + 1;
    }
    assert ch[j..] == [];
    return None;
  }

  method ScanSlots(buffer: seq<byte>) returns (r: Option<nat>)
    requires Slots(buffer, 0)
    ensures r == FreeSlot(buffer, 0)
  {
    var i := 0;
    while i < |buffer| / 32
      invariant 0 <= i && Slots(buffer, i)
      invariant FreeSlot(buffer, 0) == FreeSlot(buffer, i)
    {
      if buffer[32 * i] == 0 || buffer[32 * i] == DELETED {
        return Some(i);
      }
      i := i + 1;
    }
    return None;
  }

  /** Stores a new empty file in the first free slot; the driver panics when the directory is
      full or the extension is longer than its field. */
  method CreateFile(fs: Fat32, parent: nat, name: FileName, time: u16, date: u16, ghost ch: seq<nat>)
    returns (r: Outcome<()>)
    requires fs.Valid() && IsChain(fs.Table(), ch) && parent == ch[0]
    modifies fs
    ensures fs.Valid() && AreClusters(fs.g, ch)
    ensures r.Panicked? <==> FreePosition(fs.g, old(fs.disk), ch).None? || |StoredParts(name).1| > 3
    ensures r.Panicked? ==> fs.disk == old(fs.disk)
    ensures r.Returned? ==> fs.disk == CreatedDisk(fs.g, old(fs.disk), ch, name, time, date)
  {
    hide FatOf, ClusterData, PutData, Serialize;
    var pos := GetFreeDirentPos(fs, parent, ch);
    if pos.None? || |StoredParts(name).1| > 3 {
      return Panicked;
    }
    fs.UpdateDir(DirEntryWithLoc(NewEntry(name, time, date), pos.value));
    return Returned(());
  }

  ghost function CreatedDisk(g: Geometry, d: seq<byte>, ch: seq<nat>, name: FileName, time: u16, date: u16): (d': seq<byte>)
    requires ValidDisk(g, d) && AreClusters(g, ch) && FreePosition(g, d, ch).Some? && |StoredParts(name).1| <= 3
    ensures |d'| == |d|
  {
    var pos := FreePosition(g, d, ch).value;
    PutData(g, d, pos.cluster, pos.offset, Serialize(NewEntry(name, time, date)))
  }

  // ---------------------------------------------------------------- creation and lookup

  /** After an unused slot, every slot of the cluster is unused. */
  ghost predicate EndMarked(data: seq<byte>)
  {
    forall i {:trigger Slots(data, i)} ::
      0 <= i && Slots(data, i) && 32 * i + 32 < |data| && data[32 * i] == 0 ==> data[32 * i + 32] == 0
  }

  ghost predicate WellFormedDir(g: Geometry, d: seq<byte>, ch: seq<nat>)
    requires ValidDisk(g, d) && AreClusters(g, ch)
  {
    forall j :: 0 <= j < |ch| ==> EndMarked(ClusterData(g, d, ch[j]))
  }

  /** `es'` is `es` with `x` put in at index `p`. */
  ghost predicate InsertedAt(es: seq<DirEntryWithLoc>, es': seq<DirEntryWithLoc>, x: DirEntryWithLoc, p: nat)
  {
    p <= |es| && es' == es[..p] + [x] + es[p..]
  }

  lemma InsertedBehind(a: seq<DirEntryWithLoc>, es: seq<DirEntryWithLoc>, es': seq<DirEntryWithLoc>, x: DirEntryWithLoc, p: nat)
    requires InsertedAt(es, es', x, p)
    ensures InsertedAt(a + es, a + es', x, |a| + p)
  {
    var q := |a| + p;
    assert (a + es)[..q] == a + es[..p] && (a + es)[q..] == es[p..];
    assert a + es' == (a + es)[..q] + [x] + (a + es)[q..];
  }

  lemma InsertedBefore(es: seq<DirEntryWithLoc>, es': seq<DirEntryWithLoc>, b: seq<DirEntryWithLoc>, x: DirEntryWithLoc, p: nat)
    requires InsertedAt(es, es', x, p)
    ensures InsertedAt(es + b, es' + b, x, p)
  {
    assert (es + b)[..p] == es[..p] && (es + b)[p..] == es[p..] + b;
    assert es' + b == (es + b)[..p] + [x] + (es + b)[p..];
  }

  /** How many listed entries stand before the first free slot. */
  ghost function FreeIndex(g: Geometry, d: seq<byte>, ch: seq<nat>): nat
    requires ValidDisk(g, d) && AreClusters(g, ch)
  {
    if ch == [] then 0
    else match FreeSlot(ClusterData(g, d, ch[0]), 0)
      case Some(i) => i
      case None => |SlotEntries(ch[0], ClusterData(g, d, ch[0]), 0)| + FreeIndex(g, d, ch[1..])
  }

  /** The slots a write to slot `i` does not touch read as before. */
  lemma OtherSlot(data: seq<byte>, i: nat, bytes: seq<byte>, k: nat)
    requires Slots(data, i + 1) && Slots(data, k + 1) && |bytes| == 32 && k != i
    ensures Splice(data, 32 * i, bytes)[32 * k..32 * k + 32] == data[32 * k..32 * k + 32]
    ensures Splice(data, 32 * i, bytes)[32 * k] == data[32 * k]
  {
    SpliceAt(data, 32 * i, bytes);
  }

  lemma {:induction false} LaterSlots(cluster: nat, data: seq<byte>, i: nat, bytes: seq<byte>, k: nat)
    requires Slots(data, i + 1) && i < k && Slots(data, k) && |bytes| == 32
    ensures SlotEntries(cluster, Splice(data, 32 * i, bytes), k) == SlotEntries(cluster, data, k)
    decreases |data| - 32 * k
  {
    hide Splice, Parse;
    if 32 * k < |data| {
      OtherSlot(data, i, bytes, k);
      LaterSlots(cluster, data, i, bytes, k + 1);
    }
  }

  lemma NextSlot(cluster: nat, data: seq<byte>, k: nat)
    requires LiveSlot(data, k)
    ensures SlotEntries(cluster, data, k) == [SlotEntry(cluster, data, k)] + SlotEntries(cluster, data, k + 1)
  {
  }

  /** Filling the first free slot of a cluster inserts one entry in its listing. */
  lemma {:induction false} SlotFilled(cluster: nat, data: seq<byte>, k: nat, i: nat, e: DirEntry)
    requires Slots(data, k) && FreeSlot(data, k) == Some(i) && EndMarked(data)
    requires e.name[0] != 0 && e.name[0] != DELETED
    ensures k <= i && InsertedAt(SlotEntries(cluster, data, k), SlotEntries(cluster, Splice(data, 32 * i, Serialize(e)), k),
                                 DirEntryWithLoc(e, ClusterOffset(cluster, 32 * i)), i - k)
    decreases i - k
  {
    hide Splice, Parse, Serialize, EndMarked, InsertedAt, SlotEntries;
    if k < i {
      var data' := Splice(data, 32 * i, Serialize(e));
      OtherSlot(data, i, Serialize(e), k);
      SlotFilled(cluster, data, k + 1, i, e);
      NextSlot(cluster, data, k);
      NextSlot(cluster, data', k);
      InsertedBehind([SlotEntry(cluster, data, k)], SlotEntries(cluster, data, k + 1), SlotEntries(cluster, data', k + 1),
                     DirEntryWithLoc(e, ClusterOffset(cluster, 32 * i)), i - k - 1);
    } else {
      SlotFilledHere(cluster, data, i, e);
    }
  }

  lemma SlotFilledHere(cluster: nat, data: seq<byte>, i: nat, e: DirEntry)
    requires Slots(data, i + 1) && EndMarked(data) && (data[32 * i] == 0 || data[32 * i] == DELETED)
    requires e.name[0] != 0 && e.name[0] != DELETED
    ensures InsertedAt(SlotEntries(cluster, data, i), SlotEntries(cluster, Splice(data, 32 * i, Serialize(e)), i),
                       DirEntryWithLoc(e, ClusterOffset(cluster, 32 * i)), 0)
  {
    hide Splice, Parse, Serialize;
    var data' := Splice(data, 32 * i, Serialize(e));
    var x := DirEntryWithLoc(e, ClusterOffset(cluster, 32 * i));
    WrittenSlot(cluster, data, i, e);
    LaterSlots(cluster, data, i, Serialize(e), i + 1);
    assert Slots(data, i);
    assert SlotEntries(cluster, data, i) == SlotEntries(cluster, data, i + 1);
    assert SlotEntries(cluster, data', i) == [x] + SlotEntries(cluster, data, i + 1);
    var es := SlotEntries(cluster, data, i);
    assert [x] + es == es[..0] + [x] + es[0..];
  }

  lemma WrittenSlot(cluster: nat, data: seq<byte>, i: nat, e: DirEntry)
    requires Slots(data, i + 1)
    ensures var data' := Splice(data, 32 * i, Serialize(e));
      data'[32 * i] == e.name[0] && SlotEntry(cluster, data', i) == DirEntryWithLoc(e, ClusterOffset(cluster, 32 * i))
  {
    hide Parse;
    var data' := Splice(data, 32 * i, Serialize(e));
    assert data'[32 * i..32 * i + 32] == Serialize(e);
    assert data'[32 * i] == Serialize(e)[0];
    ParseSerialize(e);
  }

  lemma {:induction false} DirFrame(g: Geometry, d: seq<byte>, d': seq<byte>, ch: seq<nat>)
    requires ValidDisk(g, d) && ValidDisk(g, d') && AreClusters(g, ch)
    requires forall j :: 0 <= j < |ch| ==> ClusterData(g, d', ch[j]) == ClusterData(g, d, ch[j])
    ensures DirEntries(g, d', ch) == DirEntries(g, d, ch)
  {
    hide ClusterData, SlotEntries;
    if ch != [] { DirFrame(g, d, d', ch[1..]); }
  }

  /** The volume after entry `e` is written to the first free slot of the directory. */
  ghost function Filled(g: Geometry, d: seq<byte>, ch: seq<nat>, e: DirEntry): (d': seq<byte>)
    requires ValidDisk(g, d) && AreClusters(g, ch) && FreePosition(g, d, ch).Some?
    ensures |d'| == |d|
  {
    var pos := FreePosition(g, d, ch).value;
    PutData(g, d, pos.cluster, pos.offset, Serialize(e))
  }

  lemma FilledCluster(g: Geometry, d: seq<byte>, ch: seq<nat>, e: DirEntry, c: nat)
    requires ValidDisk(g, d) && AreClusters(g, ch) && FreePosition(g, d, ch).Some? && g.IsCluster(c)
    ensures var pos := FreePosition(g, d, ch).value;
      ClusterData(g, Filled(g, d, ch, e), c)
      == if c == pos.cluster then Splice(ClusterData(g, d, c), pos.offset, Serialize(e)) else ClusterData(g, d, c)
  {
    hide ClusterData, PutData, Splice, Serialize;
    var pos := FreePosition(g, d, ch).value;
    PutDataCluster(g, d, pos.cluster, pos.offset, Serialize(e), c);
  }

  lemma {:induction false} DirFilled(g: Geometry, d: seq<byte>, ch: seq<nat>, e: DirEntry)
    requires ValidDisk(g, d) && AreClusters(g, ch) && Distinct(ch) && WellFormedDir(g, d, ch)
    requires FreePosition(g, d, ch).Some? && e.name[0] != 0 && e.name[0] != DELETED
    ensures InsertedAt(DirEntries(g, d, ch), DirEntries(g, Filled(g, d, ch, e), ch),
                       DirEntryWithLoc(e, FreePosition(g, d, ch).value), FreeIndex(g, d, ch))
  {
    hide ClusterData, Filled, Splice, Serialize, SlotEntries, InsertedAt, FreeSlot;
    var d' := Filled(g, d, ch, e);
    var x := DirEntryWithLoc(e, FreePosition(g, d, ch).value);
    var data := ClusterData(g, d, ch[0]);
    var rest := ch[1..];
    FilledCluster(g, d, ch, e, ch[0]);
    if FreeSlot(data, 0).Some? {
      var i := FreeSlot(data, 0).value;
      forall j | 0 <= j < |rest| ensures ClusterData(g, d', rest[j]) == ClusterData(g, d, rest[j]) {
        assert rest[j] == ch[j + 1];
        FilledCluster(g, d, ch, e, rest[j]);
      }
      DirFrame(g, d, d', rest);
      SlotFilled(ch[0], data, 0, i, e);
      InsertedBefore(SlotEntries(ch[0], data, 0), SlotEntries(ch[0], ClusterData(g, d', ch[0]), 0), DirEntries(g, d, rest), x, i);
    } else {
      SameFill(g, d, ch, e);
      DirFilled(g, d, rest, e);
      InsertedBehind(SlotEntries(ch[0], data, 0), DirEntries(g, d, rest), DirEntries(g, d', rest), x, FreeIndex(g, d, rest));
    }
  }

  /** With no free slot in the first cluster, the entry goes to the rest of the directory. */
  lemma SameFill(g: Geometry, d: seq<byte>, ch: seq<nat>, e: DirEntry)
    requires ValidDisk(g, d) && AreClusters(g, ch) && Distinct(ch) && FreePosition(g, d, ch).Some?
    requires FreeSlot(ClusterData(g, d, ch[0]), 0).None?
    ensures FreePosition(g, d, ch) == FreePosition(g, d, ch[1..])
    ensures Filled(g, d, ch[1..], e) == Filled(g, d, ch, e)
    ensures ClusterData(g, Filled(g, d, ch, e), ch[0]) == ClusterData(g, d, ch[0])
  {
    hide ClusterData, Splice, Serialize, FreeSlot;
    FilledCluster(g, d, ch, e, ch[0]);
  }

  /** The first match after an insertion: the new entry takes over exactly when it matches and nothing
      before it does. */
  lemma {:induction false} FirstMatchInserted(name: FileName, es: seq<DirEntryWithLoc>, p: nat, x: DirEntryWithLoc)
    requires p <= |es|
    ensures FirstMatch(name, es[..p] + [x] + es[p..])
         == if CompareDirent(name, x.entry) && FirstMatch(name, es[..p]).None? then Some(x) else FirstMatch(name, es)
  {
    hide CompareDirent;
    var es' := es[..p] + [x] + es[p..];
    if p == 0 {
      assert es' == [x] + es;
      assert es'[1..] == es;
    } else {
      FirstMatchInserted(name, es[1..], p - 1, x);
      assert es'[1..] == es[1..][..p - 1] + [x] + es[1..][p - 1..];
      assert es[..p][1..] == es[1..][..p - 1];
    }
  }

  /** An entry whose first byte is zero hides itself and what follows it in its cluster. */
  lemma {:induction false} SlotHidden(cluster: nat, data: seq<byte>, k: nat, i: nat, e: DirEntry)
    requires Slots(data, k) && FreeSlot(data, k) == Some(i) && e.name[0] == 0
    ensures SlotEntries(cluster, Splice(data, 32 * i, Serialize(e)), k) <= SlotEntries(cluster, data, k)
    decreases i - k
  {
    hide Splice, Parse, Serialize;
    if k < i {
      OtherSlot(data, i, Serialize(e), k);
      SlotHidden(cluster, data, k + 1, i, e);
    } else {
      WrittenSlot(cluster, data, i, e);
    }
  }

  lemma {:induction false} DirHidden(g: Geometry, d: seq<byte>, ch: seq<nat>, e: DirEntry)
    requires ValidDisk(g, d) && AreClusters(g, ch) && Distinct(ch)
    requires FreePosition(g, d, ch).Some? && e.name[0] == 0
    ensures forall y :: y in DirEntries(g, Filled(g, d, ch, e), ch) ==> y in DirEntries(g, d, ch)
  {
    hide ClusterData, Filled, Splice, Serialize, SlotEntries, FreeSlot;
    var d' := Filled(g, d, ch, e);
    var data := ClusterData(g, d, ch[0]);
    var rest := ch[1..];
    FilledCluster(g, d, ch, e, ch[0]);
    if FreeSlot(data, 0).Some? {
      forall j | 0 <= j < |rest| ensures ClusterData(g, d', rest[j]) == ClusterData(g, d, rest[j]) {
        assert rest[j] == ch[j + 1];
        FilledCluster(g, d, ch, e, rest[j]);
      }
      DirFrame(g, d, d', rest);
      SlotHidden(ch[0], data, 0, FreeSlot(data, 0).value, e);
    } else {
      SameFill(g, d, ch, e);
      DirHidden(g, d, rest, e);
    }
  }

  /** Can the stored entry be seen in a listing? Not if the name starts with a NUL. */
  predicate Visible(name: FileName) { var n := StoredParts(name).0; n == [] || n[0] != 0 }

  lemma StoredFirstByte(name: FileName, time: u16, date: u16)
    requires |StoredParts(name).1| <= 3
    ensures NewEntry(name, time, date).name[0] != DELETED
    ensures NewEntry(name, time, date).name[0] != 0 <==> Visible(name)
  {
    var n := StoredParts(name).0;
    if n != [] {
      assert Padded(n, 8)[0] == ToUpper(n[0]);
    } else {
      assert Padded(n, 8)[0] == SPACE;
    }
  }

  /** The listing after `create_file` with a visible name, whatever is in the directory: a lookup
      finds the new entry exactly when it matches and nothing before the filled slot does, and what
      it found before otherwise. */
  lemma FindAfterCreate(g: Geometry, d: seq<byte>, ch: seq<nat>, name: FileName, time: u16, date: u16, other: FileName)
    requires ValidDisk(g, d) && IsChain(FatOf(g, d), ch) && AreClusters(g, ch) && WellFormedDir(g, d, ch)
    requires FreePosition(g, d, ch).Some? && |StoredParts(name).1| <= 3 && Visible(name)
    ensures var x := DirEntryWithLoc(NewEntry(name, time, date), FreePosition(g, d, ch).value);
            var was, now := DirEntries(g, d, ch), DirEntries(g, CreatedDisk(g, d, ch, name, time, date), ch);
      && FreeIndex(g, d, ch) <= |was|
      && FirstMatch(other, now) == (if CompareDirent(other, x.entry) && FirstMatch(other, was[..FreeIndex(g, d, ch)]).None?
                                    then Some(x) else FirstMatch(other, was))
  {
    hide FatOf, ClusterData, PutData, Serialize, DirEntries, CompareDirent, WellFormedDir, FreePosition, Visible, FirstMatch;
    var e := NewEntry(name, time, date);
    assert CreatedDisk(g, d, ch, name, time, date) == Filled(g, d, ch, e);
    ChainDistinct(FatOf(g, d), ch);
    StoredFirstByte(name, time, date);
    DirFilled(g, d, ch, e);
    FirstMatchInserted(other, DirEntries(g, d, ch), FreeIndex(g, d, ch), DirEntryWithLoc(e, FreePosition(g, d, ch).value));
  }

  /** A new entry hides an older one exactly when the name looked up matches the new one, for example
      because the new name was cut to eight characters, and the older one stands behind it. */
  lemma ShadowExact(g: Geometry, d: seq<byte>, ch: seq<nat>, name: FileName, time: u16, date: u16, other: FileName)
    requires ValidDisk(g, d) && IsChain(FatOf(g, d), ch) && AreClusters(g, ch) && WellFormedDir(g, d, ch)
    requires FreePosition(g, d, ch).Some? && |StoredParts(name).1| <= 3 && Visible(name)
    requires FirstMatch(other, DirEntries(g, d, ch)).Some?
    ensures var was, now := DirEntries(g, d, ch), DirEntries(g, CreatedDisk(g, d, ch, name, time, date), ch);
      && FreeIndex(g, d, ch) <= |was|
      && (FirstMatch(other, now) != FirstMatch(other, was) <==>
            CompareDirent(other, NewEntry(name, time, date)) && FirstMatch(other, was[..FreeIndex(g, d, ch)]).None?)
  {
    hide FatOf, ClusterData, CreatedDisk, CompareDirent, WellFormedDir, FreePosition, Visible, FirstMatch, DirEntries;
    FindAfterCreate(g, d, ch, name, time, date, other);
    var y := FirstMatch(other, DirEntries(g, d, ch)).value;
    MatchListed(other, DirEntries(g, d, ch));
    ChainDistinct(FatOf(g, d), ch);
    ListedNotFree(g, d, ch, y);
  }

  lemma MatchListed(name: FileName, es: seq<DirEntryWithLoc>)
    requires FirstMatch(name, es).Some?
    ensures FirstMatch(name, es).value in es
  {
  }

  predicate LiveSlot(data: seq<byte>, j: nat)
  {
    Slots(data, j + 1) && data[32 * j] != 0 && data[32 * j] != DELETED
  }

  lemma {:induction false} SlotListed(cluster: nat, data: seq<byte>, k: nat, y: DirEntryWithLoc)
    requires Slots(data, k) && y in SlotEntries(cluster, data, k)
    ensures y.loc.cluster == cluster && exists j :: k <= j && LiveSlot(data, j) && y.loc.offset == 32 * j
    decreases |data| - 32 * k
  {
    hide Parse;
    if y in SlotEntries(cluster, data, k + 1) {
      SlotListed(cluster, data, k + 1, y);
    } else {
      assert LiveSlot(data, k);
    }
  }

  lemma {:induction false} FreeSlotByte(data: seq<byte>, k: nat)
    requires Slots(data, k) && FreeSlot(data, k).Some?
    ensures var i := FreeSlot(data, k).value; data[32 * i] == 0 || data[32 * i] == DELETED
    ensures forall j :: k <= j < FreeSlot(data, k).value ==> data[32 * j] != 0 && data[32 * j] != DELETED
    decreases |data| - 32 * k
  {
    if data[32 * k] != 0 && data[32 * k] != DELETED { FreeSlotByte(data, k + 1); }
  }

  /** No listed entry lies in the slot that is free. */
  lemma {:induction false} ListedNotFree(g: Geometry, d: seq<byte>, ch: seq<nat>, y: DirEntryWithLoc)
    requires ValidDisk(g, d) && AreClusters(g, ch) && Distinct(ch) && FreePosition(g, d, ch).Some?
    requires y in DirEntries(g, d, ch)
    ensures y.loc != FreePosition(g, d, ch).value
  {
    hide ClusterData, SlotEntries, FreeSlot;
    var data := ClusterData(g, d, ch[0]);
    if y in SlotEntries(ch[0], data, 0) {
      SlotListed(ch[0], data, 0, y);
      if FreeSlot(data, 0).Some? { FreeSlotByte(data, 0); } else { PositionLater(g, d, ch); }
    } else {
      ListedInChain(g, d, ch[1..], y);
      if FreeSlot(data, 0).None? { ListedNotFree(g, d, ch[1..], y); }
    }
  }

  lemma PositionLater(g: Geometry, d: seq<byte>, ch: seq<nat>)
    requires ValidDisk(g, d) && AreClusters(g, ch) && Distinct(ch) && ch != [] && FreePosition(g, d, ch).Some?
    requires FreeSlot(ClusterData(g, d, ch[0]), 0).None?
    ensures FreePosition(g, d, ch).value.cluster != ch[0]
  {
    hide ClusterData, FreeSlot;
    assert FreePosition(g, d, ch[1..]).value.cluster in ch[1..];
  }

  lemma {:induction false} ListedInChain(g: Geometry, d: seq<byte>, ch: seq<nat>, y: DirEntryWithLoc)
    requires ValidDisk(g, d) && AreClusters(g, ch) && y in DirEntries(g, d, ch)
    ensures y.loc.cluster in ch
  {
    hide ClusterData, SlotEntries;
    if y in SlotEntries(ch[0], ClusterData(g, d, ch[0]), 0) {
      SlotListed(ch[0], ClusterData(g, d, ch[0]), 0, y);
    } else {
      ListedInChain(g, d, ch[1..], y);
    }
  }

  /** `create_file` with a name no entry matches: the name finds the new entry at its place exactly
      when it is a good 8.3 name; then every other name finds what it found before. */
  lemma CreateThenFind(g: Geometry, d: seq<byte>, ch: seq<nat>, name: FileName, time: u16, date: u16)
    requires ValidDisk(g, d) && IsChain(FatOf(g, d), ch) && AreClusters(g, ch) && WellFormedDir(g, d, ch)
    requires FreePosition(g, d, ch).Some? && |StoredParts(name).1| <= 3
    requires FirstMatch(name, DirEntries(g, d, ch)).None?
    ensures var x := DirEntryWithLoc(NewEntry(name, time, date), FreePosition(g, d, ch).value);
            var was, now := DirEntries(g, d, ch), DirEntries(g, CreatedDisk(g, d, ch, name, time, date), ch);
      && (FirstMatch(name, now) == Some(x) <==> GoodName(name) && Visible(name))
      && (Visible(name) ==> forall other: FileName :: !CompareDirent(other, x.entry) ==> FirstMatch(other, now) == FirstMatch(other, was))
      && (GoodName(name) && Visible(name) ==> forall other: FileName ::
            CompareDirent(other, x.entry) ==> FirstMatch(other, now) == Some(x))
  {
    hide FatOf, ClusterData, PutData, Serialize, DirEntries, CompareDirent, GoodName, WellFormedDir, FreePosition, Visible, FirstMatch;
    var e := NewEntry(name, time, date);
    var was, now := DirEntries(g, d, ch), DirEntries(g, CreatedDisk(g, d, ch, name, time, date), ch);
    var x := DirEntryWithLoc(e, FreePosition(g, d, ch).value);
    NameRoundTrip(name, time, date);
    StoredFirstByte(name, time, date);
    if Visible(name) {
      FindAfterCreate(g, d, ch, name, time, date, name);
      forall other: FileName ensures FirstMatch(other, now)
        == if CompareDirent(other, e) && FirstMatch(other, was[..FreeIndex(g, d, ch)]).None? then Some(x) else FirstMatch(other, was)
      {
        FindAfterCreate(g, d, ch, name, time, date, other);
      }
      var before := was[..FreeIndex(g, d, ch)];
      FewerMatch(name, was, before);
      if GoodName(name) {
        forall other: FileName | CompareDirent(other, e) ensures FirstMatch(other, before).None? {
          FreshForOthers(name, other, e, was);
          FewerMatch(other, was, before);
        }
      }
    } else {
      assert CreatedDisk(g, d, ch, name, time, date) == Filled(g, d, ch, e);
      ChainDistinct(FatOf(g, d), ch);
      DirHidden(g, d, ch, e);
      FewerMatch(name, was, now);
    }
  }

  lemma FreshForOthers(name: FileName, other: FileName, e: DirEntry, es: seq<DirEntryWithLoc>)
    requires CompareDirent(name, e) && FirstMatch(name, es).None?
    ensures CompareDirent(other, e) ==> FirstMatch(other, es).None?
  {
    hide CompareDirent;
    if CompareDirent(other, e) {
      forall i | 0 <= i < |es| ensures !CompareDirent(other, es[i].entry) {
        SameMatches(other, name, e, es[i].entry);
      }
    }
  }

  lemma FewerMatch(name: FileName, was: seq<DirEntryWithLoc>, now: seq<DirEntryWithLoc>)
    requires forall y :: y in now ==> y in was
    ensures FirstMatch(name, was).None? ==> FirstMatch(name, now).None?
  {
    hide CompareDirent;
  }
}
