/** Byte strings: overwriting a range in place and little-endian 32-bit words. */
module Bytes {

  type byte = x: int | 0 <= x < 256

  const TWO28 := 0x1000_0000
  const TWO32 := 0x1_0000_0000

  /** `s` with the bytes from position `at` on overwritten by `data`. */
  function Splice(s: seq<byte>, at: nat, data: seq<byte>): (r: seq<byte>)
    requires at + |data| <= |s|
    ensures |r| == |s|
  {
    s[..at] + data + s[at + |data|..]
  }

  lemma SpliceAt(s: seq<byte>, at: nat, data: seq<byte>)
    requires at + |data| <= |s|
    ensures forall i :: 0 <= i < |s| ==>
      Splice(s, at, data)[i] == if at <= i < at + |data| then data[i - at] else s[i]
  {
  }

  /** What a range away from the overwrite, the overwritten range itself, and a range around it hold. */
  lemma SpliceKeeps(s: seq<byte>, at: nat, data: seq<byte>, lo: nat, hi: nat)
    requires at + |data| <= |s| && lo <= hi <= |s| && (hi <= at || at + |data| <= lo)
    ensures Splice(s, at, data)[lo..hi] == s[lo..hi]
  {
    hide Splice;
    SpliceAt(s, at, data);
  }

  lemma SpliceReads(s: seq<byte>, at: nat, data: seq<byte>)
    requires at + |data| <= |s|
    ensures Splice(s, at, data)[at..at + |data|] == data
  {
    hide Splice;
    SpliceAt(s, at, data);
  }

  lemma SpliceInside(s: seq<byte>, lo: nat, hi: nat, at: nat, data: seq<byte>)
    requires lo <= hi <= |s| && lo + at + |data| <= hi
    ensures Splice(s, lo + at, data)[lo..hi] == Splice(s[lo..hi], at, data)
  {
    hide Splice;
    SpliceAt(s, lo + at, data);
    SpliceAt(s[lo..hi], at, data);
  }

  /** Two overwrites that abut are one overwrite. */
  lemma SpliceAdjacent(s: seq<byte>, at: nat, a: seq<byte>, b: seq<byte>)
    requires at + |a| + |b| <= |s|
    ensures Splice(Splice(s, at, a), at + |a|, b) == Splice(s, at, a + b)
  {
  }

  /** Overwriting with `data` in consecutive pieces. */
  lemma SpliceNext(s: seq<byte>, at: nat, data: seq<byte>, i: nat, j: nat)
    requires at + |data| <= |s| && i <= j <= |data|
    ensures Splice(Splice(s, at, data[..i]), at + i, data[i..j]) == Splice(s, at, data[..j])
  {
    SpliceAdjacent(s, at, data[..i], data[i..j]);
    assert data[..i] + data[i..j] == data[..j];
  }

  lemma SpliceNothing(s: seq<byte>, at: nat, data: seq<byte>)
    requires at + |data| <= |s|
    ensures Splice(s, at, data[..0]) == s && Splice(s, at, data[..|data|]) == Splice(s, at, data)
  {
    assert data[..|data|] == data;
  }

  /** Overwriting inside a window of `s` is overwriting `s` at the shifted position. */
  lemma SpliceWindow(s: seq<byte>, from: nat, to: nat, at: nat, data: seq<byte>)
    requires from <= to <= |s| && at + |data| <= to - from
    ensures Splice(s, from, Splice(s[from..to], at, data)) == Splice(s, from + at, data)
  {
  }

  lemma WindowSlice(s: seq<byte>, from: nat, to: nat, lo: nat, hi: nat)
    requires from <= to <= |s| && lo <= hi <= to - from
    ensures s[from..to][lo..hi] == s[from + lo..from + hi]
  {
    var w, t := s[from..to][lo..hi], s[from + lo..from + hi];
    forall i | 0 <= i < hi - lo ensures w[i] == t[i] {
      assert w[i] == s[from..to][lo + i] == s[from + lo + i] == t[i];
    }
  }

  lemma SpliceLeft(a: seq<byte>, b: seq<byte>, at: nat, data: seq<byte>)
    requires at + |data| <= |a|
    ensures Splice(a + b, at, data) == Splice(a, at, data) + b
  {
  }

  lemma SpliceRight(a: seq<byte>, b: seq<byte>, at: nat, data: seq<byte>)
    requires at + |data| <= |b|
    ensures Splice(a + b, |a| + at, data) == a + Splice(b, at, data)
  {
  }

  /** `u32::from_le_bytes` */
  function FromLe(b: seq<byte>): (v: nat)
    requires |b| == 4
    ensures v < TWO32
  {
    Digit(b[0], Digit(b[1], Digit(b[2], b[3])))
  }

  /** `u32::to_le_bytes` */
  function ToLe(v: nat): (b: seq<byte>)
    requires v < TWO32
    ensures |b| == 4
    ensures FromLe(b) == v
  {
    var v1 := v / 256;
    var v2 := v1 / 256;
    var v3 := v2 / 256;
    [v % 256, v1 % 256, v2 % 256, v3]
  }

  function Digit(low: int, rest: int): int { low + 256 * rest }

  /** The lowest byte comes first. */
  lemma LittleEndian(b: seq<byte>)
    requires |b| == 4
    ensures FromLe(b) == b[0] as int + 0x100 * b[1] as int + 0x1_0000 * b[2] as int + 0x100_0000 * b[3] as int
  {
  }

  lemma FromLeInjective(a: seq<byte>, b: seq<byte>)
    requires |a| == |b| == 4 && FromLe(a) == FromLe(b)
    ensures a == b
  {
    hide Digit;
    DigitInjective(a[0], Digit(a[1], Digit(a[2], a[3])), b[0], Digit(b[1], Digit(b[2], b[3])));
    DigitInjective(a[1], Digit(a[2], a[3]), b[1], Digit(b[2], b[3]));
    DigitInjective(a[2], a[3], b[2], b[3]);
  }

  lemma DigitInjective(low: byte, rest: int, low': byte, rest': int)
    requires Digit(low, rest) == Digit(low', rest')
    ensures low == low' && rest == rest'
  {
  }
}
