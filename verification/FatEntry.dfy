/** The 32-byte directory entry of a FAT32 volume and its packed byte layout. */
module FatEntry {
  import opened Bytes

  type u16 = x: int | 0 <= x < 0x1_0000
  type u32 = x: int | 0 <= x < 0x1_0000_0000

  type Name = s: seq<byte> | |s| == 8 witness seq(8, _ => 0x20)
  type Ext = s: seq<byte> | |s| == 3 witness seq(3, _ => 0x20)

  const FAT_ATTR_ARCHIVE: byte := 0x20

  /** The first byte of the name of a deleted entry. */
  const DELETED: byte := 0xE5

  datatype DirEntry = DirEntry(
    name: Name,
    ext: Ext,
    attr: byte,
    ntReserved: byte,
    creationTimeTenth: byte,
    creationTime: u16,
    creationDate: u16,
    lastAccessDate: u16,
    firstClusterHigh: u16,
    writeTime: u16,
    writeDate: u16,
    firstClusterLow: u16,
    fileSize: u32)
  {
    function FirstCluster(): (c: u32) { firstClusterHigh * 0x1_0000 + firstClusterLow }

    function SetFirstCluster(c: u32): (e: DirEntry)
      ensures e.FirstCluster() == c
    {
      this.(firstClusterLow := c % 0x1_0000, firstClusterHigh := c / 0x1_0000)
    }
  }

  /** Where an entry is stored: a cluster of its directory and a byte offset in it. */
  datatype ClusterOffset = ClusterOffset(cluster: nat, offset: nat)

  datatype DirEntryWithLoc = DirEntryWithLoc(entry: DirEntry, loc: ClusterOffset)

  function Le16(v: u16): (b: seq<byte>)
    ensures |b| == 2
  {
    [v % 256, v / 256]
  }

  function FromLe16(lo: byte, hi: byte): (v: u16) { Digit(lo, hi) }

  /** The entry as stored, field after field with no padding. */
  function Serialize(e: DirEntry): (b: seq<byte>)
    ensures |b| == 32
  {
    e.name + e.ext + [e.attr, e.ntReserved, e.creationTimeTenth]
    + Le16(e.creationTime) + Le16(e.creationDate) + Le16(e.lastAccessDate) + Le16(e.firstClusterHigh)
    + Le16(e.writeTime) + Le16(e.writeDate) + Le16(e.firstClusterLow) + ToLe(e.fileSize)
  }

  function Parse(b: seq<byte>): (e: DirEntry)
    requires |b| == 32
  {
    DirEntry(b[..8], b[8..11], b[11], b[12], b[13],
             FromLe16(b[14], b[15]), FromLe16(b[16], b[17]), FromLe16(b[18], b[19]), FromLe16(b[20], b[21]),
             FromLe16(b[22], b[23]), FromLe16(b[24], b[25]), FromLe16(b[26], b[27]), FromLe(b[28..32]))
  }

  lemma ParseSerialize(e: DirEntry)
    ensures Parse(Serialize(e)) == e
  {
    var b := Serialize(e);
    assert b[..8] == e.name;
    assert b[8..11] == e.ext;
    assert b[28..32] == ToLe(e.fileSize);
  }

  /** The 16-bit word at offset `at`, low byte first. */
  function WordAt(b: seq<byte>, at: nat): nat
    requires at + 1 < |b|
  {
    b[at] as int + 0x100 * b[at + 1] as int
  }

  /** The offsets of the fields of a directory entry in the FAT32 on-disk format. */
  lemma EntryLayout(e: DirEntry)
    ensures var b := Serialize(e);
      && (forall i :: 0 <= i < 8 ==> b[i] == e.name[i]) && (forall i :: 0 <= i < 3 ==> b[8 + i] == e.ext[i])
      && b[11] == e.attr && b[12] == e.ntReserved && b[13] == e.creationTimeTenth
      && WordAt(b, 14) == e.creationTime && WordAt(b, 16) == e.creationDate && WordAt(b, 18) == e.lastAccessDate
      && WordAt(b, 22) == e.writeTime && WordAt(b, 24) == e.writeDate
      && WordAt(b, 26) + 0x1_0000 * WordAt(b, 20) == e.FirstCluster()
      && WordAt(b, 28) + 0x1_0000 * WordAt(b, 30) == e.fileSize
  {
    hide ToLe, Le16, FromLe;
    var b := Serialize(e);
    Word16(e.creationTime);
    Word16(e.creationDate);
    Word16(e.lastAccessDate);
    Word16(e.firstClusterHigh);
    Word16(e.writeTime);
    Word16(e.writeDate);
    Word16(e.firstClusterLow);
    LittleEndian(ToLe(e.fileSize));
    assert b[28..32] == ToLe(e.fileSize);
    assert forall i :: 0 <= i < 4 ==> b[28 + i] == b[28..32][i];
  }

  lemma Word16(v: u16)
    ensures Le16(v)[0] as int + 0x100 * Le16(v)[1] as int == v
  {
  }
}
