/** Path strings: their segments, the full path of a list of segments, and the mount that serves a path. */
module Paths {

  const SLASH := '/'

  /** The non-empty pieces of `acc + s` between slashes, where `acc` holds no slash. */
  function Split(s: string, acc: string): seq<string>
    decreases |s|
  {
    if s == "" then Piece(acc)
    else if s[0] == SLASH then Piece(acc) + Split(s[1..], "")
    else Split(s[1..], acc + [s[0]])
  }

  function Piece(acc: string): seq<string> { if acc == "" then [] else [acc] }

  /** `split('/')` without the empty pieces. */
  function Segments(s: string): seq<string> { Split(s, "") }

  function Join(segs: seq<string>): string
  {
    if |segs| == 0 then ""
    else if |segs| == 1 then segs[0]
    else segs[0] + [SLASH] + Join(segs[1..])
  }

  function FullPathOf(segs: seq<string>): string { [SLASH] + Join(segs) }

  ghost predicate GoodSegment(s: string) { s != "" && SLASH !in s }

  ghost predicate GoodSegments(segs: seq<string>) { forall i :: 0 <= i < |segs| ==> GoodSegment(segs[i]) }

  lemma {:induction false} SplitGood(s: string, acc: string)
    requires SLASH !in acc
    ensures GoodSegments(Split(s, acc))
    decreases |s|
  {
    if s != "" {
      if s[0] == SLASH { SplitGood(s[1..], ""); } else { SplitGood(s[1..], acc + [s[0]]); }
    }
  }

  /** A run without slashes joins the piece before it. */
  lemma {:induction false} SplitRun(run: string, s: string, acc: string)
    requires SLASH !in run
    ensures Split(run + s, acc) == Split(s, acc + run)
    decreases |run|
  {
    if run == "" {
      assert run + s == s && acc + run == acc;
    } else {
      var rest := run[1..];
      assert (run + s)[1..] == rest + s && (run + s)[0] == run[0];
      SplitRun(rest, s, acc + [run[0]]);
      assert acc + [run[0]] + rest == acc + run;
    }
  }

  /** A slash separates. */
  lemma {:induction false} SplitSlash(a: string, b: string, acc: string)
    ensures Split(a + [SLASH] + b, acc) == Split(a, acc) + Split(b, "")
    decreases |a|
  {
    var all := a + [SLASH] + b;
    if a == "" {
      assert all == [SLASH] + b && all[1..] == b;
    } else {
      assert all[0] == a[0] && all[1..] == a[1..] + [SLASH] + b;
      if a[0] == SLASH { SplitSlash(a[1..], b, ""); } else { SplitSlash(a[1..], b, acc + [a[0]]); }
    }
  }

  /** The segments of a joined path are what was joined. */
  lemma {:induction false} SegmentsJoin(segs: seq<string>)
    requires GoodSegments(segs)
    ensures Segments(Join(segs)) == segs
    decreases |segs|
  {
    if |segs| == 1 {
      SplitRun(segs[0], "", "");
      assert segs[0] + "" == segs[0] && "" + segs[0] == segs[0];
    } else if |segs| > 1 {
      var s := segs[0];
      SplitSlash(s, Join(segs[1..]), "");
      SplitRun(s, "", "");
      assert s + "" == s && "" + s == s;
      SegmentsJoin(segs[1..]);
    }
  }

  /** A full path has the segments it was made from. */
  lemma FullPathSegments(segs: seq<string>)
    requires GoodSegments(segs)
    ensures Segments(FullPathOf(segs)) == segs
  {
    var p := FullPathOf(segs);
    assert p[0] == SLASH && p[1..] == Join(segs);
    SegmentsJoin(segs);
  }

  // ---------------------------------------------------------------- absolute paths

  predicate Absolute(path: string) { path != "" && path[0] == SLASH }

  predicate IsSpace(c: char) { c == ' ' || '\t' <= c <= '\r' }

  function Trim(s: string): string
    decreases |s|
  {
    if s == "" then ""
    else if IsSpace(s[0]) then Trim(s[1..])
    else if IsSpace(s[|s| - 1]) then Trim(s[..|s| - 1])
    else s
  }

  /** The path a lookup resolves, given the full path of the working directory. */
  function AbsolutePath(path: string, cwd: string): (r: string)
    requires Absolute(cwd)
    ensures Absolute(r)
  {
    var p := Trim(path);
    if Absolute(p) then p else if cwd == "/" then cwd + p else cwd + [SLASH] + p
  }

  /** White space is blank, tab, line feed, vertical tab, form feed and carriage return. */
  lemma SpaceExact(c: char)
    ensures IsSpace(c) <==> c as int in [0x20, 0x09, 0x0A, 0x0B, 0x0C, 0x0D]
  {
    assert ' ' as int == 0x20 && '\t' as int == 0x09 && '\r' as int == 0x0D;
    assert forall n :: n in [0x20, 0x09, 0x0A, 0x0B, 0x0C, 0x0D] <==> n == 0x20 || 0x09 <= n <= 0x0D;
  }

  /** Trimming takes white space off both ends, and all of it. */
  lemma {:induction false} TrimExact(s: string) returns (lo: nat, hi: nat)
    ensures lo <= hi <= |s| && Trim(s) == s[lo..hi]
    ensures forall i :: 0 <= i < lo || hi <= i < |s| ==> IsSpace(s[i])
    ensures lo < hi ==> !IsSpace(s[lo]) && !IsSpace(s[hi - 1])
    decreases |s|
  {
    lo, hi := 0, |s|;
    if s != "" {
      if IsSpace(s[0]) {
        lo, hi := TrimExact(s[1..]);
        assert s[1..][lo..hi] == s[lo + 1..hi + 1];
        assert forall i :: 0 < i < |s| ==> s[i] == s[1..][i - 1];
        lo, hi := lo + 1, hi + 1;
      } else if IsSpace(s[|s| - 1]) {
        lo, hi := TrimExact(s[..|s| - 1]);
        assert s[..|s| - 1][lo..hi] == s[lo..hi];
      }
    }
  }

  /** A relative path is resolved from the working directory, an absolute one from the root. */
  lemma AbsoluteSegments(path: string, cwd: string)
    requires Absolute(cwd)
    ensures Segments(AbsolutePath(path, cwd)) ==
      if Absolute(Trim(path)) then Segments(Trim(path)) else Segments(cwd) + Segments(Trim(path))
  {
    var p := Trim(path);
    if !Absolute(p) {
      if cwd == "/" {
        assert cwd + p == "" + [SLASH] + p;
        SplitSlash("", p, "");
        SplitSlash("", "", "");
        assert "" + [SLASH] + "" == cwd;
      } else {
        SplitSlash(cwd, p, "");
      }
    }
  }

  /** The characters of a path that are not slashes. */
  function NonSlash(s: string): nat
  {
    if s == "" then 0 else (if s[0] == SLASH then 0 else 1) + NonSlash(s[1..])
  }

  function TotalLength(segs: seq<string>): nat
  {
    if segs == [] then 0 else |segs[0]| + TotalLength(segs[1..])
  }

  lemma {:induction false} TotalConcat(a: seq<string>, b: seq<string>)
    ensures TotalLength(a + b) == TotalLength(a) + TotalLength(b)
  {
    if a == [] {
      assert a + b == b;
    } else {
      assert (a + b)[1..] == a[1..] + b;
      TotalConcat(a[1..], b);
    }
  }

  /** The segments hold every character but the slashes. */
  lemma {:induction false} SplitTotal(s: string, acc: string)
    ensures TotalLength(Split(s, acc)) == |acc| + NonSlash(s)
    decreases |s|
  {
    if s != "" {
      if s[0] == SLASH {
        SplitTotal(s[1..], "");
        TotalConcat(Piece(acc), Split(s[1..], ""));
      } else {
        SplitTotal(s[1..], acc + [s[0]]);
      }
    }
  }

  lemma {:induction false} NonSlashLast(s: string)
    requires s != ""
    ensures NonSlash(s) == NonSlash(s[..|s| - 1]) + if s[|s| - 1] == SLASH then 0 else 1
  {
    if |s| > 1 {
      assert s[1..][..|s| - 2] == s[..|s| - 1][1..];
      NonSlashLast(s[1..]);
    } else {
      assert s[1..] == "";
    }
  }

  /** Trimming an absolute path that ends in white space costs characters that are not slashes. */
  lemma {:induction false} TrimShortens(s: string)
    requires Absolute(s)
    ensures Absolute(Trim(s)) && NonSlash(Trim(s)) <= NonSlash(s)
    ensures Trim(s) == s <==> NonSlash(Trim(s)) == NonSlash(s)
    decreases |s|
  {
    if IsSpace(s[|s| - 1]) {
      NonSlashLast(s);
      TrimShortens(s[..|s| - 1]);
    }
  }

  // ---------------------------------------------------------------- mount points

  /** `path[..i]` is a mount point above the rest of the path. */
  predicate MountAt<T>(mounts: map<string, T>, path: string, i: int)
  {
    0 <= i < |path| && path[i] == SLASH && path[..i] in mounts
  }

  /** `key` is the longest mount point above `path`, or "/" where there is none. */
  ghost predicate IsMountKey<T>(mounts: map<string, T>, path: string, key: string)
  {
    if exists i :: MountAt(mounts, path, i) then
      |key| < |path| && key == path[..|key|] && MountAt(mounts, path, |key|)
      && forall i :: |key| < i ==> !MountAt(mounts, path, i)
    else key == "/"
  }

  method LastSlash(s: string) returns (i: nat)
    requires Absolute(s)
    ensures i < |s| && s[i] == SLASH && forall j :: i < j < |s| ==> s[j] != SLASH
  {
    i := |s| - 1;
    while s[i] != SLASH
      invariant i < |s| && forall j :: i < j < |s| ==> s[j] != SLASH
      decreases i
    {
      i := i - 1;
    }
  }

  /** Walks up the path one slash at a time. */
  method FindMountpoint<T>(mounts: map<string, T>, path: string) returns (key: string)
    requires Absolute(path) && "/" in mounts
    ensures IsMountKey(mounts, path, key) && key in mounts
  {
    var curr := path;
    while curr != ""
      invariant |curr| <= |path| && curr == path[..|curr|]
      invariant forall i :: |curr| <= i ==> !MountAt(mounts, path, i)
      decreases |curr|
    {
      var lastSlash := LastSlash(curr);
      var parent := curr[..lastSlash];
      assert parent == path[..lastSlash];
      if parent in mounts {
        assert MountAt(mounts, path, lastSlash);
        return parent;
      }
      curr := parent;
    }
    key := "/";
  }

  /** Only one mount serves a path. */
  lemma MountKeyUnique<T>(mounts: map<string, T>, path: string, a: string, b: string)
    requires IsMountKey(mounts, path, a) && IsMountKey(mounts, path, b)
    ensures a == b
  {
    assert |a| >= |b|;
    assert |b| >= |a|;
  }

  /** The part of the path that is resolved inside the mount. */
  function RelPath(path: string, key: string): string
  {
    if key == "/" then path else if |key| <= |path| && path[..|key|] == key then path[|key|..] else path
  }

  /** The segments of a path are those of the mount point and those below it. */
  lemma MountSegments<T>(mounts: map<string, T>, path: string, key: string)
    requires IsMountKey(mounts, path, key)
    ensures Segments(path) == Segments(key) + Segments(RelPath(path, key))
  {
    if key == "/" {
      assert Segments("/") == [] by { assert "/"[1..] == ""; }
    } else {
      var rest := path[|key| + 1..];
      assert path == key + [SLASH] + rest;
      assert path[|key|..] == [] + [SLASH] + rest;
      SplitSlash(key, rest, "");
      SplitSlash("", rest, "");
    }
  }

  /** The full path of what a lookup finds is the normalised path exactly when the mount point itself
      has no segments: anything below another mount loses the mount point's name. */
  lemma FullPathExact<T>(mounts: map<string, T>, path: string, key: string)
    requires IsMountKey(mounts, path, key)
    ensures FullPathOf(Segments(RelPath(path, key))) == FullPathOf(Segments(path)) <==> Segments(key) == []
  {
    var above, below := Segments(key), Segments(RelPath(path, key));
    MountSegments(mounts, path, key);
    SplitGood(path, "");
    SplitGood(RelPath(path, key), "");
    FullPathSegments(below);
    FullPathSegments(Segments(path));
    if above == [] {
      assert above + below == below;
    } else {
      assert |above + below| > |below|;
    }
  }
}
