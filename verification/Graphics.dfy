/** Drawing into the back buffer: the row-wise fills against drawing pixel by pixel, for modes with
    two bytes per pixel and an even number of bytes per line. */
module Graphics {
  import opened Bytes

  type color = c: int | 0 <= c < 0x1_0000

  datatype Point = Point(x: int, y: int)

  datatype Pixel = Pixel(at: Point, color: color)

  datatype Rect = Rect(x: int, y: int, w: nat, h: nat)
  {
    predicate Contains(p: Point) { x <= p.x < x + w && y <= p.y < y + h }
  }

  datatype Mode = Mode(width: nat, height: nat, bytesPerPixel: nat, bytesPerLine: nat)
  {
    ghost predicate Ok() { bytesPerPixel == 2 && bytesPerLine % 2 == 0 && 2 * width <= bytesPerLine }

    function Size(): nat { bytesPerLine * height }

    function Offset(x: nat, y: nat): nat { y * bytesPerLine + x * bytesPerPixel }
  }

  // ---------------------------------------------------------------- where a pixel lies

  lemma OffsetFits(m: Mode, x: nat, y: nat)
    requires m.Ok() && x < m.width && y < m.height
    ensures m.Offset(x, y) + 1 < m.Size()
  {
    assert (y + 1) * m.bytesPerLine <= m.height * m.bytesPerLine by { Grows(y + 1, m.height, m.bytesPerLine); }
  }

  lemma Grows(a: nat, b: nat, k: nat)
    requires a <= b
    ensures a * k <= b * k
  {
  }

  lemma EvenLine(y: nat, k: nat)
    requires k % 2 == 0
    ensures (y * k) % 2 == 0
  {
    assert y * k == 2 * (y * (k / 2));
  }

  /** The index of a pixel in the 16-bit view of the buffer is half its byte offset. */
  lemma WordOffset(m: Mode, x: nat, y: nat, k: nat)
    requires m.Ok()
    ensures 2 * (y * m.bytesPerLine / 2 + x * m.bytesPerPixel / 2 + k) == m.Offset(x + k, y)
  {
    EvenLine(y, m.bytesPerLine);
  }

  // ---------------------------------------------------------------- pixel by pixel

  predicate OffScreen(m: Mode, p: Point) { p.x < 0 || p.x >= m.width || p.y < 0 || p.y >= m.height }

  /** One pixel; a position off the screen changes nothing. */
  function SetPixel(m: Mode, buf: seq<byte>, p: Pixel): (r: seq<byte>)
    requires m.Ok() && |buf| == m.Size()
    ensures |r| == |buf|
  {
    if OffScreen(m, p.at) then buf
    else
      OffsetFits(m, p.at.x, p.at.y);
      var at := m.Offset(p.at.x, p.at.y);
      buf[at := p.color % 256][at + 1 := p.color / 256]
  }

  function DrawIter(m: Mode, buf: seq<byte>, ps: seq<Pixel>): (r: seq<byte>)
    requires m.Ok() && |buf| == m.Size()
    ensures |r| == |buf|
    decreases |ps|
  {
    if ps == [] then buf else DrawIter(m, SetPixel(m, buf, ps[0]), ps[1..])
  }

  function RowPoints(x: int, y: int, w: nat): (r: seq<Point>)
    ensures |r| == w
    decreases w
  {
    if w == 0 then [] else [Point(x, y)] + RowPoints(x + 1, y, w - 1)
  }

  /** The points of a rectangle, row by row. */
  function AreaPoints(a: Rect): seq<Point>
    decreases a.h
  {
    if a.h == 0 then [] else RowPoints(a.x, a.y, a.w) + AreaPoints(Rect(a.x, a.y + 1, a.w, a.h - 1))
  }

  /** The points with their colours, as long as there are colours. */
  function Coloured(pts: seq<Point>, colors: seq<color>): seq<Pixel>
  {
    seq(if |pts| < |colors| then |pts| else |colors|,
        i requires 0 <= i < |pts| && i < |colors| => Pixel(pts[i], colors[i]))
  }

  function Solid(pts: seq<Point>, c: color): seq<Pixel> { seq(|pts|, i requires 0 <= i < |pts| => Pixel(pts[i], c)) }

  // ---------------------------------------------------------------- what a pixel shows

  /** Where the two bytes of a pixel begin. */
  function Spot(m: Mode, x: nat, y: nat): nat { y * m.bytesPerLine + 2 * x }

  /** The 16-bit word of a pixel, low byte first. */
  function Shown(m: Mode, buf: seq<byte>, x: nat, y: nat): nat
    requires m.Ok() && |buf| == m.Size() && x < m.width && y < m.height
  {
    SpotFits(m, x, y);
    WordAt(buf, Spot(m, x, y))
  }

  function WordAt(buf: seq<byte>, at: nat): nat
    requires at + 1 < |buf|
  {
    buf[at] as int + 256 * buf[at + 1] as int
  }

  lemma SpotFits(m: Mode, x: nat, y: nat)
    requires m.Ok() && x < m.width && y < m.height
    ensures Spot(m, x, y) + 1 < m.Size() && Spot(m, x, y) == m.Offset(x, y)
  {
    OffsetFits(m, x, y);
  }

  lemma WordPut(buf: seq<byte>, at: nat, c: color, o: nat)
    requires at + 1 < |buf| && o + 1 < |buf| && (at == o || at + 1 < o || o + 1 < at)
    ensures WordAt(buf[at := c % 256][at + 1 := c / 256], o) == if o == at then c else WordAt(buf, o)
  {
  }

  /** Different pixels have different bytes. */
  lemma PixelsApart(m: Mode, x: nat, y: nat, x': nat, y': nat)
    requires m.Ok() && x < m.width && x' < m.width && (x, y) != (x', y')
    ensures Spot(m, x, y) + 1 < Spot(m, x', y') || Spot(m, x', y') + 1 < Spot(m, x, y)
  {
    if y < y' { LinesApart(y, y', m.bytesPerLine); } else if y' < y { LinesApart(y', y, m.bytesPerLine); }
  }

  lemma LinesApart(y: nat, y': nat, k: nat)
    requires y < y'
    ensures y * k + k <= y' * k
  {
    Grows(y + 1, y', k);
    NextRow(y + 1, k);
  }

  /** Drawing a pixel shows its colour there and changes no other pixel. */
  lemma SetPixelShows(m: Mode, buf: seq<byte>, p: Pixel, x: nat, y: nat)
    requires m.Ok() && |buf| == m.Size() && x < m.width && y < m.height
    ensures Shown(m, SetPixel(m, buf, p), x, y) == if p.at == Point(x, y) then p.color else Shown(m, buf, x, y)
  {
    hide WordAt, Mode.Offset, Mode.Size, Spot;
    SpotFits(m, x, y);
    if 0 <= p.at.x < m.width && 0 <= p.at.y < m.height {
      SpotFits(m, p.at.x, p.at.y);
      if p.at != Point(x, y) { PixelsApart(m, x, y, p.at.x, p.at.y); }
      WordPut(buf, Spot(m, p.at.x, p.at.y), p.color, Spot(m, x, y));
    }
  }

  /** The colour of the last of the pixels drawn at `at`, or `was` if there is none. */
  function LastColor(ps: seq<Pixel>, at: Point, was: nat): nat
  {
    if ps == [] then was else LastColor(ps[1..], at, if ps[0].at == at then ps[0].color else was)
  }

  lemma {:induction false} DrawShows(m: Mode, buf: seq<byte>, ps: seq<Pixel>, x: nat, y: nat)
    requires m.Ok() && |buf| == m.Size() && x < m.width && y < m.height
    ensures Shown(m, DrawIter(m, buf, ps), x, y) == LastColor(ps, Point(x, y), Shown(m, buf, x, y))
    decreases |ps|
  {
    hide Shown, SetPixel;
    if ps != [] {
      SetPixelShows(m, buf, ps[0], x, y);
      DrawShows(m, SetPixel(m, buf, ps[0]), ps[1..], x, y);
    }
  }

  lemma {:induction false} OnceColor(ps: seq<Pixel>, at: Point, was: nat, k: nat)
    requires k < |ps| && ps[k].at == at && forall i :: 0 <= i < |ps| && i != k ==> ps[i].at != at
    ensures LastColor(ps, at, was) == ps[k].color
    decreases |ps|
  {
    if k == 0 { NoColor(ps[1..], at, ps[0].color); } else { OnceColor(ps[1..], at, was, k - 1); }
  }

  lemma {:induction false} NoColor(ps: seq<Pixel>, at: Point, was: nat)
    requires forall i :: 0 <= i < |ps| ==> ps[i].at != at
    ensures LastColor(ps, at, was) == was
  {
    if ps != [] { NoColor(ps[1..], at, was); }
  }

  /** Where a point comes among the points of an area. */
  function Place(a: Rect, p: Point): int { (p.y - a.y) * a.w + (p.x - a.x) }

  lemma {:induction false} AreaPlace(a: Rect, p: Point)
    requires a.Contains(p)
    ensures 0 <= Place(a, p) < |AreaPoints(a)| && AreaPoints(a)[Place(a, p)] == p
    decreases a.h
  {
    var rest := Rect(a.x, a.y + 1, a.w, a.h - 1);
    if p.y == a.y {
      RowPointAt(a.x, a.y, a.w, p.x - a.x);
    } else {
      AreaPlace(rest, p);
      NextRow(p.y - a.y, a.w);
    }
  }

  lemma NextRow(n: int, k: nat)
    ensures n * k == (n - 1) * k + k
  {
  }

  lemma {:induction false} AreaAt(a: Rect, i: nat)
    requires i < |AreaPoints(a)|
    ensures a.Contains(AreaPoints(a)[i]) && Place(a, AreaPoints(a)[i]) == i
    decreases a.h
  {
    var rest := Rect(a.x, a.y + 1, a.w, a.h - 1);
    if i < a.w {
      RowPointAt(a.x, a.y, a.w, i);
    } else {
      AreaAt(rest, i - a.w);
      NextRow(AreaPoints(a)[i].y - a.y, a.w);
    }
  }

  /** A solid fill shows its colour on the pixels of the area and nothing new elsewhere. */
  lemma SolidShows(m: Mode, buf: seq<byte>, a: Rect, c: color, x: nat, y: nat)
    requires m.Ok() && |buf| == m.Size() && x < m.width && y < m.height
    ensures Shown(m, DrawIter(m, buf, Solid(AreaPoints(a), c)), x, y) ==
      if a.x <= x < a.x + a.w && a.y <= y < a.y + a.h then c else Shown(m, buf, x, y)
  {
    hide Shown, DrawIter, AreaPoints, Place;
    var ps, at := Solid(AreaPoints(a), c), Point(x, y);
    DrawShows(m, buf, ps, x, y);
    forall i | 0 <= i < |ps| ensures a.Contains(ps[i].at) && Place(a, ps[i].at) == i { AreaAt(a, i); }
    if a.Contains(at) {
      AreaPlace(a, at);
      OnceColor(ps, at, Shown(m, buf, x, y), Place(a, at));
    } else {
      NoColor(ps, at, Shown(m, buf, x, y));
    }
  }

  /** A fill with a list of colours shows, on each pixel of the area, the colour at its place in the list,
      and leaves the pixels the list does not reach. */
  lemma ColoursShow(m: Mode, buf: seq<byte>, a: Rect, colors: seq<color>, x: nat, y: nat)
    requires m.Ok() && |buf| == m.Size() && x < m.width && y < m.height
    ensures var k := (y - a.y) * a.w + (x - a.x);
      Shown(m, DrawIter(m, buf, Coloured(AreaPoints(a), colors)), x, y) ==
        if a.x <= x < a.x + a.w && a.y <= y < a.y + a.h && 0 <= k < |colors| then colors[k] else Shown(m, buf, x, y)
  {
    hide Shown, DrawIter, AreaPoints;
    var ps, at := Coloured(AreaPoints(a), colors), Point(x, y);
    DrawShows(m, buf, ps, x, y);
    forall i | 0 <= i < |ps| ensures a.Contains(ps[i].at) && Place(a, ps[i].at) == i { AreaAt(a, i); }
    if a.Contains(at) { AreaPlace(a, at); }
    if a.Contains(at) && Place(a, at) < |colors| {
      OnceColor(ps, at, Shown(m, buf, x, y), Place(a, at));
    } else {
      NoColor(ps, at, Shown(m, buf, x, y));
    }
  }

  // ---------------------------------------------------------------- clipping

  function Greatest(a: int, b: int): int { if a < b then b else a }

  function Least(a: int, b: int): int { if a < b then a else b }

  /** The part of `a` on the screen. */
  function Clip(m: Mode, a: Rect): Rect
  {
    var x, y := Greatest(a.x, 0), Greatest(a.y, 0);
    var w, h := Least(a.x + a.w, m.width) - x, Least(a.y + a.h, m.height) - y;
    if w > 0 && h > 0 then Rect(x, y, w, h) else Rect(0, 0, 0, 0)
  }

  function Inside(ps: seq<Pixel>, r: Rect): seq<Pixel>
  {
    if ps == [] then []
    else (if r.Contains(ps[0].at) then [ps[0]] else []) + Inside(ps[1..], r)
  }

  function InsidePoints(pts: seq<Point>, r: Rect): seq<Point>
  {
    if pts == [] then []
    else (if r.Contains(pts[0]) then [pts[0]] else []) + InsidePoints(pts[1..], r)
  }

  /** The pixels lie on the first of these points, in order. */
  ghost predicate Along(ps: seq<Pixel>, pts: seq<Point>)
  {
    |ps| <= |pts| && forall i :: 0 <= i < |ps| ==> ps[i].at == pts[i]
  }

  lemma {:induction false} InsideAlong(ps: seq<Pixel>, pts: seq<Point>, r: Rect)
    requires Along(ps, pts)
    ensures Along(Inside(ps, r), InsidePoints(pts, r))
    ensures |ps| == |pts| ==> |Inside(ps, r)| == |InsidePoints(pts, r)|
    decreases |ps|
  {
    if ps != [] {
      assert ps[0].at == pts[0];
      InsideAlong(ps[1..], pts[1..], r);
    }
  }

  lemma {:induction false} InsideConcat(a: seq<Point>, b: seq<Point>, r: Rect)
    ensures InsidePoints(a + b, r) == InsidePoints(a, r) + InsidePoints(b, r)
    decreases |a|
  {
    if a == [] {
      assert a + b == b;
    } else {
      assert (a + b)[1..] == a[1..] + b;
      InsideConcat(a[1..], b, r);
    }
  }

  lemma InsideHead(pts: seq<Point>, r: Rect)
    requires pts != []
    ensures InsidePoints(pts, r) == (if r.Contains(pts[0]) then [pts[0]] else []) + InsidePoints(pts[1..], r)
  {
  }

  function Overlap(a: int, n: nat, b: int, k: nat): nat { Greatest(0, Least(a + n, b + k) - Greatest(a, b)) }

  lemma {:induction false} RowInside(x: int, y: int, w: nat, r: Rect)
    ensures InsidePoints(RowPoints(x, y, w), r) ==
      if r.y <= y < r.y + r.h then RowPoints(Greatest(x, r.x), y, Overlap(x, w, r.x, r.w)) else []
    decreases w
  {
    hide InsidePoints;
    var row := RowPoints(x, y, w);
    if w == 0 {
      InsideNothing(r);
    } else {
      var rest := RowPoints(x + 1, y, w - 1);
      assert row[0] == Point(x, y) && row[1..] == rest;
      InsideHead(row, r);
      RowInside(x + 1, y, w - 1, r);
      if r.Contains(row[0]) {
        assert Overlap(x, w, r.x, r.w) == 1 + Overlap(x + 1, w - 1, r.x, r.w);
      } else if r.y <= y < r.y + r.h {
        assert Overlap(x, w, r.x, r.w) == Overlap(x + 1, w - 1, r.x, r.w);
      }
    }
  }

  /** Clipping the points of an area, row by row, gives the points of the clipped area. */
  lemma {:induction false} AreaInside(a: Rect, r: Rect)
    requires a.x <= r.x && r.x + r.w <= a.x + a.w
    ensures InsidePoints(AreaPoints(a), r) == AreaPoints(Rect(r.x, Greatest(a.y, r.y), r.w, Overlap(a.y, a.h, r.y, r.h)))
    decreases a.h
  {
    hide InsidePoints, RowPoints;
    if a.h == 0 {
      InsideNothing(r);
    } else {
      var rest := Rect(a.x, a.y + 1, a.w, a.h - 1);
      InsideConcat(RowPoints(a.x, a.y, a.w), AreaPoints(rest), r);
      RowInside(a.x, a.y, a.w, r);
      AreaInside(rest, r);
    }
  }

  lemma InsideNothing(r: Rect)
    ensures InsidePoints([], r) == []
  {
  }

  lemma {:induction false} NoneInside(pts: seq<Point>, r: Rect)
    requires forall i :: 0 <= i < |pts| ==> !r.Contains(pts[i])
    ensures InsidePoints(pts, r) == []
  {
    if pts != [] { NoneInside(pts[1..], r); }
  }

  lemma ClipInside(m: Mode, a: Rect)
    ensures InsidePoints(AreaPoints(a), Clip(m, a)) == AreaPoints(Clip(m, a))
  {
    hide InsidePoints, AreaPoints;
    var r := Clip(m, a);
    if r.h == 0 {
      NoneInside(AreaPoints(a), r);
      NoPoints(r);
    } else {
      AreaInside(a, r);
    }
  }

  lemma NoPoints(a: Rect)
    requires a.h == 0
    ensures AreaPoints(a) == []
  {
  }

  lemma {:induction false} RowPointAt(x: int, y: int, w: nat, i: nat)
    requires i < w
    ensures RowPoints(x, y, w)[i] == Point(x + i, y)
    decreases w
  {
    if i > 0 { RowPointAt(x + 1, y, w - 1, i - 1); }
  }

  /** Leaving out the pixels that are off the screen changes nothing. */
  lemma {:induction false} DrawInside(m: Mode, buf: seq<byte>, ps: seq<Pixel>, r: Rect)
    requires m.Ok() && |buf| == m.Size()
    requires forall i :: 0 <= i < |ps| && !r.Contains(ps[i].at) ==> OffScreen(m, ps[i].at)
    ensures DrawIter(m, buf, Inside(ps, r)) == DrawIter(m, buf, ps)
    decreases |ps|
  {
    if ps != [] {
      var next := SetPixel(m, buf, ps[0]);
      DrawInside(m, next, ps[1..], r);
      if r.Contains(ps[0].at) {
        assert Inside(ps, r)[0] == ps[0] && Inside(ps, r)[1..] == Inside(ps[1..], r);
      } else {
        assert Inside(ps, r) == Inside(ps[1..], r);
      }
    }
  }

  /** What the fills rely on: the clipped pixels draw the same picture, and lie along the clipped area. */
  lemma Clipped(m: Mode, buf: seq<byte>, a: Rect, ps: seq<Pixel>)
    requires m.Ok() && |buf| == m.Size() && Along(ps, AreaPoints(a))
    ensures var r := Clip(m, a);
      && DrawIter(m, buf, Inside(ps, r)) == DrawIter(m, buf, ps)
      && Along(Inside(ps, r), AreaPoints(r))
      && (|ps| == |AreaPoints(a)| ==> |Inside(ps, r)| == |AreaPoints(r)|)
  {
    hide AreaPoints, DrawIter, Inside, InsidePoints;
    var r := Clip(m, a);
    forall i | 0 <= i < |ps| && !r.Contains(ps[i].at) ensures OffScreen(m, ps[i].at) {
      AreaAt(a, i);
    }
    DrawInside(m, buf, ps, r);
    InsideAlong(ps, AreaPoints(a), r);
    ClipInside(m, a);
  }

  lemma {:induction false} AllInside(ps: seq<Pixel>, r: Rect)
    requires forall i :: 0 <= i < |ps| ==> r.Contains(ps[i].at)
    ensures Inside(ps, r) == ps
  {
    if ps != [] { AllInside(ps[1..], r); }
  }

  lemma UnclippedInside(a: Rect, ps: seq<Pixel>)
    requires Along(ps, AreaPoints(a))
    ensures Inside(ps, a) == ps
  {
    forall i | 0 <= i < |ps| ensures a.Contains(ps[i].at) { AreaAt(a, i); }
    AllInside(ps, a);
  }

  // ---------------------------------------------------------------- the screen

  class Screen {
    const mode: Mode
    const backLfb: array<byte>

    ghost predicate Valid() { mode.Ok() && backLfb.Length == mode.Size() }

    method SetPixelIn(p: Pixel)
      requires Valid()
      modifies backLfb
      ensures backLfb[..] == SetPixel(mode, old(backLfb[..]), p)
    {
      if p.at.x < 0 || p.at.x >= mode.width || p.at.y < 0 || p.at.y >= mode.height {
        return;
      }
      OffsetFits(mode, p.at.x, p.at.y);
      var byteOffset := p.at.y * mode.bytesPerLine + p.at.x * mode.bytesPerPixel;
      backLfb[byteOffset] := p.color % 256;
      backLfb[byteOffset + 1] := p.color / 256;
    }

    method DrawPixels(ps: seq<Pixel>)
      requires Valid()
      modifies backLfb
      ensures backLfb[..] == DrawIter(mode, old(backLfb[..]), ps)
    {
      for i := 0 to |ps|
        invariant DrawIter(mode, backLfb[..], ps[i..]) == DrawIter(mode, old(backLfb[..]), ps)
      {
        assert ps[i..][0] == ps[i] && ps[i..][1..] == ps[i + 1..];
        SetPixelIn(ps[i]);
      }
    }

    /** A store through the 16-bit view at the word of pixel `(x + k, y)` is that pixel. */
    method PutWord(x: nat, y: nat, k: nat, c: color)
      requires Valid() && x + k < mode.width && y < mode.height
      modifies backLfb
      ensures backLfb[..] == SetPixel(mode, old(backLfb[..]), Pixel(Point(x + k, y), c))
    {
      OffsetFits(mode, x + k, y);
      WordOffset(mode, x, y, k);
      var word := y * mode.bytesPerLine / 2 + x * mode.bytesPerPixel / 2 + k;
      backLfb[2 * word] := c % 256;
      backLfb[2 * word + 1] := c / 256;
    }

    /** One row of the clipped area: it takes colours while there are any. */
    method FillRow(r: Rect, y: nat, pixels: seq<Pixel>) returns (rest: seq<Pixel>)
      requires Valid() && r.h > 0 && 0 <= r.x && r.x + r.w <= mode.width && y < mode.height
      requires r.y == y && Along(pixels, AreaPoints(r))
      modifies backLfb
      ensures DrawIter(mode, backLfb[..], rest) == DrawIter(mode, old(backLfb[..]), pixels)
      ensures Along(rest, AreaPoints(Rect(r.x, r.y + 1, r.w, r.h - 1)))
    {
      hide AreaPoints, SetPixel, OffScreen;
      ghost var later := AreaPoints(Rect(r.x, r.y + 1, r.w, r.h - 1));
      FirstRow(r);
      rest := pixels;
      var col := 0;
      while col < r.w && rest != []
        invariant 0 <= col <= r.w
        invariant Along(rest, RowPoints(r.x + col, y, r.w - col) + later)
        invariant DrawIter(mode, backLfb[..], rest) == DrawIter(mode, old(backLfb[..]), pixels)
      {
        NextAlong(rest, r.x + col, y, r.w - col, later);
        PutWord(r.x, y, col, rest[0].color);
        rest := rest[1..];
        col := col + 1;
      }
    }

    method FillContiguous(area: Rect, colors: seq<color>)
      requires Valid()
      modifies backLfb
      ensures backLfb[..] == DrawIter(mode, old(backLfb[..]), Coloured(AreaPoints(area), colors))
    {
      hide AreaPoints, DrawIter, Inside;
      ghost var before := backLfb[..];
      var drawable := Clip(mode, area);
      var all := Coloured(AreaPoints(area), colors);
      Clipped(mode, before, area, all);
      if drawable.w == 0 && drawable.h == 0 {
        NoPoints(drawable);
        DrawNothing(mode, before);
        return;
      }
      var rest := all;
      if drawable != area {
        rest := Inside(all, drawable);
      } else {
        UnclippedInside(area, all);
      }
      assert DrawIter(mode, before, rest) == DrawIter(mode, before, all);
      var i := 0;
      while i < drawable.h
        invariant 0 <= i <= drawable.h
        invariant Along(rest, AreaPoints(Rect(drawable.x, drawable.y + i, drawable.w, drawable.h - i)))
        invariant DrawIter(mode, backLfb[..], rest) == DrawIter(mode, before, all)
      {
        rest := FillRow(Rect(drawable.x, drawable.y + i, drawable.w, drawable.h - i), drawable.y + i, rest);
        i := i + 1;
      }
      NoPoints(Rect(drawable.x, drawable.y + i, drawable.w, 0));
      DrawNothing(mode, backLfb[..]);
    }

    /** One row in a single colour. */
    method FillRowSolid(r: Rect, y: nat, c: color, ghost pixels: seq<Pixel>) returns (ghost rest: seq<Pixel>)
      requires Valid() && r.h > 0 && 0 <= r.x && r.x + r.w <= mode.width && y < mode.height
      requires r.y == y && Along(pixels, AreaPoints(r)) && |pixels| == |AreaPoints(r)|
      requires forall i :: 0 <= i < |pixels| ==> pixels[i].color == c
      modifies backLfb
      ensures DrawIter(mode, backLfb[..], rest) == DrawIter(mode, old(backLfb[..]), pixels)
      ensures var later := AreaPoints(Rect(r.x, r.y + 1, r.w, r.h - 1)); Along(rest, later) && |rest| == |later|
      ensures forall i :: 0 <= i < |rest| ==> rest[i].color == c
    {
      hide AreaPoints, SetPixel, OffScreen;
      ghost var later := AreaPoints(Rect(r.x, r.y + 1, r.w, r.h - 1));
      FirstRow(r);
      rest := pixels;
      for col := 0 to r.w
        invariant Along(rest, RowPoints(r.x + col, y, r.w - col) + later) && |rest| == r.w - col + |later|
        invariant forall i :: 0 <= i < |rest| ==> rest[i].color == c
        invariant DrawIter(mode, backLfb[..], rest) == DrawIter(mode, old(backLfb[..]), pixels)
      {
        NextAlong(rest, r.x + col, y, r.w - col, later);
        PutWord(r.x, y, col, c);
        rest := rest[1..];
      }
    }

    method FillSolid(area: Rect, c: color)
      requires Valid()
      modifies backLfb
      ensures backLfb[..] == DrawIter(mode, old(backLfb[..]), Solid(AreaPoints(area), c))
    {
      hide AreaPoints, DrawIter, Inside;
      ghost var before, all := backLfb[..], Solid(AreaPoints(area), c);
      var drawable := Clip(mode, area);
      Clipped(mode, before, area, all);
      InsideColor(all, drawable, c);
      if drawable.w == 0 && drawable.h == 0 {
        NoPoints(drawable);
        DrawNothing(mode, before);
        return;
      }
      ghost var rest := Inside(all, drawable);
      var i := 0;
      while i < drawable.h
        invariant 0 <= i <= drawable.h
        invariant Along(rest, AreaPoints(Rect(drawable.x, drawable.y + i, drawable.w, drawable.h - i)))
        invariant |rest| == |AreaPoints(Rect(drawable.x, drawable.y + i, drawable.w, drawable.h - i))|
        invariant forall i :: 0 <= i < |rest| ==> rest[i].color == c
        invariant DrawIter(mode, backLfb[..], rest) == DrawIter(mode, before, all)
      {
        rest := FillRowSolid(Rect(drawable.x, drawable.y + i, drawable.w, drawable.h - i), drawable.y + i, c, rest);
        i := i + 1;
      }
      NoPoints(Rect(drawable.x, drawable.y + i, drawable.w, 0));
      DrawNothing(mode, backLfb[..]);
    }
  }

  lemma FirstRow(r: Rect)
    requires r.h > 0
    ensures AreaPoints(r) == RowPoints(r.x, r.y, r.w) + AreaPoints(Rect(r.x, r.y + 1, r.w, r.h - 1))
  {
  }

  lemma NextAlong(ps: seq<Pixel>, x: int, y: int, w: nat, later: seq<Point>)
    requires ps != [] && w > 0 && Along(ps, RowPoints(x, y, w) + later)
    ensures ps[0].at == Point(x, y) && Along(ps[1..], RowPoints(x + 1, y, w - 1) + later)
  {
    var pts := RowPoints(x, y, w) + later;
    assert pts[0] == Point(x, y) && pts[1..] == RowPoints(x + 1, y, w - 1) + later;
  }

  lemma DrawNothing(m: Mode, buf: seq<byte>)
    requires m.Ok() && |buf| == m.Size()
    ensures DrawIter(m, buf, []) == buf
  {
  }

  lemma {:induction false} InsideColor(ps: seq<Pixel>, r: Rect, c: color)
    requires forall i :: 0 <= i < |ps| ==> ps[i].color == c
    ensures forall i :: 0 <= i < |Inside(ps, r)| ==> Inside(ps, r)[i].color == c
  {
    if ps != [] { InsideColor(ps[1..], r, c); }
  }
}
