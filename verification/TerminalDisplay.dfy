/** Repainting only the rows marked dirty, against repainting the whole terminal. The renderer runs
    some time after a batch of bytes was written; it scrolls the picture at most once. */
module TerminalDisplay {
  import opened Bytes
  import opened Terminal

  /** What a cell looks like: the character, or a space for what the font cannot show. */
  function Glyph(c: Cell): byte { if c.ascii < 32 || c.ascii >= 127 then 32 else c.ascii }

  /** Control characters, delete, and bytes that are no UTF-8 string of their own show as a blank; every
      other byte shows as itself. */
  lemma GlyphExact(c: Cell)
    ensures Glyph(c) == if c.ascii <= 0x1F || c.ascii == 0x7F || c.ascii >= 0x80 then ' ' as int else c.ascii
  {
    assert ' ' as int == 32;
  }

  /** A text line as it is on the screen. */
  type Line = s: seq<byte> | |s| == WIDTH witness seq(WIDTH, _ => 32)

  function Look(row: Row): Line { seq(WIDTH, c requires 0 <= c < WIDTH => Glyph(row[c])) }

  function LookAll(rows: seq<Row>): (r: seq<Line>)
    ensures |r| == |rows|
  {
    seq(|rows|, i requires 0 <= i < |rows| => Look(rows[i]))
  }

  /** The screen after the optional scroll; `below` is what moves into the last line. */
  function Shifted(t: Term, shown: seq<Line>, below: Line): (r: seq<Line>)
    requires |shown| == HEIGHT
    ensures |r| == HEIGHT
  {
    if t.needsScroll then shown[1..] + [below] else shown
  }

  /** The screen after `paint_dirty`. */
  function Painted(t: Term, shown: seq<Line>, below: Line): (r: seq<Line>)
    requires t.Ok() && |shown| == HEIGHT
    ensures |r| == HEIGHT
  {
    var base := Shifted(t, shown, below);
    seq(HEIGHT, i requires 0 <= i < HEIGHT => if t.dirty[i] then Look(t.rows[i]) else base[i])
  }

  /** The renderer's loop: it paints as `Painted` says and leaves no row dirty. */
  method PaintDirty(vt: VirtualTerminal, shown: seq<Line>, below: Line) returns (screen: seq<Line>)
    requires vt.Valid() && |shown| == HEIGHT
    modifies vt, vt.dirtyRow
    ensures vt.Valid() && screen == Painted(old(vt.term), shown, below)
    ensures vt.term == old(vt.term).(dirty := seq(HEIGHT, _ => false), needsScroll := false)
  {
    ghost var t := vt.term;
    screen := shown;
    if vt.needsScroll {
      screen := shown[1..] + [below];
      vt.needsScroll := false;
    }
    for row := 0 to HEIGHT
      invariant |screen| == HEIGHT && vt.needsScroll == false && vt.rowPosition == t.row && vt.columnPosition == t.col
      invariant vt.term == t
      invariant forall r :: 0 <= r < HEIGHT ==> vt.dirtyRow[r] == (t.dirty[r] && r >= row)
      invariant forall r :: 0 <= r < HEIGHT ==>
        screen[r] == if r < row then Painted(t, shown, below)[r] else Shifted(t, shown, below)[r]
    {
      if vt.dirtyRow[row] {
        var line := PaintRow(vt, row);
        screen := screen[row := line];
        vt.dirtyRow[row] := false;
      }
    }
    vt.term := t.(dirty := seq(HEIGHT, _ => false), needsScroll := false);
  }

  method PaintRow(vt: VirtualTerminal, row: nat) returns (line: Line)
    requires vt.buffer.Length0 == HEIGHT && vt.buffer.Length1 == WIDTH && row < HEIGHT
    ensures forall c :: 0 <= c < WIDTH ==> line[c] == Glyph(vt.buffer[row, c])
  {
    line := seq(WIDTH, _ => 32);
    for col := 0 to WIDTH
      invariant forall c :: 0 <= c < col ==> line[c] == Glyph(vt.buffer[row, c])
    {
      line := line[col := Glyph(vt.buffer[row, col])];
    }
  }

  // ---------------------------------------------------------------- a batch of bytes, then a repaint

  /** A terminal that has just been painted, with its cursor at `row` and `col`. */
  function Clean(rows: seq<Row>, row: nat, col: nat): Term
  {
    Term(rows, seq(HEIGHT, _ => false), row, col, false)
  }

  /** After the batch and the repaint the screen shows the buffer. */
  ghost predicate Faithful(rows: seq<Row>, row: nat, col: nat, bs: seq<byte>, below: Line)
    requires |rows| == HEIGHT && row < HEIGHT && col <= WIDTH
  {
    var t := WroteAll(Clean(rows, row, col), bs);
    Painted(t, LookAll(rows), below) == LookAll(t.rows)
  }

  /** The walk of the cursor through a batch, which does not depend on what the buffer holds. */
  datatype Walk = Walk(start: nat, row: nat, col: nat, scrolls: nat, stored: Stored)

  /** The last byte stored on the line the walk started on. */
  datatype Stored = Nothing | Byte(col: nat, value: byte)

  function Down(w: Walk): Walk
  {
    if w.row == HEIGHT - 1 then w.(col := 0, scrolls := w.scrolls + 1) else w.(row := w.row + 1, col := 0)
  }

  function Store(w: Walk, b: byte): Walk
  {
    w.(col := w.col + 1, stored := if w.row == w.start && w.scrolls == 0 then Byte(w.col, b) else w.stored)
  }

  function Next(w: Walk, b: byte): Walk
  {
    if b == NEWLINE then Down(w)
    else if b == BACKSPACE then w.(col := if w.col == 0 then 0 else w.col - 1)
    else if w.col >= WIDTH then Store(Down(w), b)
    else Store(w, b)
  }

  function NextAll(w: Walk, bs: seq<byte>): Walk
    decreases |bs|
  {
    if bs == [] then w else NextAll(Next(w, bs[0]), bs[1..])
  }

  /** No scroll; or a walk from the top line, which marks every row; or one scroll with nothing stored
      on the first line before it was left, unless that is the bottom line. */
  predicate OneRepaintSuffices(w: Walk)
  {
    || w.scrolls == 0
    || w.start == 0
    || (w.scrolls == 1 && (w.start == HEIGHT - 1 || w.stored == Nothing))
  }

  function FirstMarked(w: Walk): nat { if w.start < HEIGHT - 2 then w.start else HEIGHT - 2 }

  /** How the terminal stands to the rows it started from, at any point of the walk. */
  ghost predicate Tracks(rows: seq<Row>, w: Walk, t: Term)
    requires |rows| == HEIGHT
  {
    && t.Ok() && w.start <= w.row && t.row == w.row && t.col == w.col && w.start < HEIGHT
    && (if w.scrolls == 0 then Before(rows, w, t) else After(rows, w, t))
  }

  ghost predicate Before(rows: seq<Row>, w: Walk, t: Term)
    requires |rows| == HEIGHT && t.Ok() && w.start <= w.row == t.row
  {
    && !t.needsScroll
    && (forall r :: 0 <= r < HEIGHT && !t.dirty[r] ==> t.rows[r] == rows[r])
    && (forall r :: w.start <= r < w.row ==> t.dirty[r])
    && (forall r :: 0 <= r < w.start ==> !t.dirty[r])
    && (w.stored.Nothing? ==> t.rows[w.start] == rows[w.start])
    && (w.stored.Byte? ==> w.stored.col < WIDTH && t.rows[w.start][w.stored.col].ascii == w.stored.value)
  }

  ghost predicate After(rows: seq<Row>, w: Walk, t: Term)
    requires |rows| == HEIGHT && t.Ok() && w.start < HEIGHT
  {
    && t.needsScroll && w.row == HEIGHT - 1
    && (forall r :: 0 <= r < HEIGHT ==> (t.dirty[r] <==> r >= FirstMarked(w)))
    && (w.scrolls == 1 ==> AfterOne(rows, w, t))
  }

  ghost predicate AfterOne(rows: seq<Row>, w: Walk, t: Term)
    requires |rows| == HEIGHT && t.Ok() && w.start < HEIGHT
  {
    && (forall r :: 0 <= r < FirstMarked(w) && r + 1 != w.start ==> t.rows[r] == rows[r + 1])
    && (0 < w.start < HEIGHT - 1 && w.stored.Nothing? ==> t.rows[w.start - 1] == rows[w.start])
    && (0 < w.start < HEIGHT - 1 && w.stored.Byte? ==>
          w.stored.col < WIDTH && t.rows[w.start - 1][w.stored.col].ascii == w.stored.value)
  }

  lemma TracksDown(rows: seq<Row>, w: Walk, t: Term)
    requires |rows| == HEIGHT && Tracks(rows, w, t)
    ensures Tracks(rows, Down(w), NewLine(t))
  {
    var n := NewLine(t);
    if w.row == HEIGHT - 1 && w.scrolls == 0 {
      forall r | 0 <= r < HEIGHT - 1 ensures n.rows[r] == t.rows[r + 1] {
      }
    }
  }

  lemma TracksStore(rows: seq<Row>, w: Walk, t: Term, b: byte)
    requires |rows| == HEIGHT && Tracks(rows, w, t) && t.col < WIDTH
    ensures Tracks(rows, Store(w, b), Put(t, b))
  {
  }

  lemma TracksStep(rows: seq<Row>, w: Walk, t: Term, b: byte)
    requires |rows| == HEIGHT && Tracks(rows, w, t)
    ensures Tracks(rows, Next(w, b), Wrote(t, b))
  {
    if b == NEWLINE || (b != BACKSPACE && w.col >= WIDTH) { TracksDown(rows, w, t); }
    if b != NEWLINE && b != BACKSPACE {
      if w.col >= WIDTH { TracksStore(rows, Down(w), NewLine(t), b); } else { TracksStore(rows, w, t, b); }
    }
  }

  lemma {:induction false} TracksAll(rows: seq<Row>, w: Walk, t: Term, bs: seq<byte>)
    requires |rows| == HEIGHT && Tracks(rows, w, t)
    ensures Tracks(rows, NextAll(w, bs), WroteAll(t, bs))
    decreases |bs|
  {
    if bs != [] {
      TracksStep(rows, w, t, bs[0]);
      TracksAll(rows, Next(w, bs[0]), Wrote(t, bs[0]), bs[1..]);
    }
  }

  function Begin(row: nat, col: nat): Walk { Walk(row, row, col, 0, Nothing) }

  lemma TracksBatch(rows: seq<Row>, row: nat, col: nat, bs: seq<byte>)
    requires |rows| == HEIGHT && row < HEIGHT && col <= WIDTH
    ensures Tracks(rows, NextAll(Begin(row, col), bs), WroteAll(Clean(rows, row, col), bs))
  {
    TracksAll(rows, Begin(row, col), Clean(rows, row, col), bs);
  }

  /** Where the condition holds the repaint shows the buffer, whatever it held before. */
  lemma Shows(rows: seq<Row>, row: nat, col: nat, bs: seq<byte>, below: Line)
    requires |rows| == HEIGHT && row < HEIGHT && col <= WIDTH
    requires OneRepaintSuffices(NextAll(Begin(row, col), bs))
    ensures Faithful(rows, row, col, bs, below)
  {
    hide Look;
    var w, t := NextAll(Begin(row, col), bs), WroteAll(Clean(rows, row, col), bs);
    TracksBatch(rows, row, col, bs);
    StartKept(Begin(row, col), bs);
    var screen := Painted(t, LookAll(rows), below);
    forall r | 0 <= r < HEIGHT ensures screen[r] == LookAll(t.rows)[r] {
      if !t.dirty[r] && w.scrolls > 0 { assert t.rows[r] == rows[r + 1]; }
    }
  }

  lemma {:induction false} StartKept(w: Walk, bs: seq<byte>)
    ensures NextAll(w, bs).start == w.start && NextAll(w, bs).scrolls >= w.scrolls
    decreases |bs|
  {
    if bs != [] { StartKept(Next(w, bs[0]), bs[1..]); }
  }

  function Filled(b: byte): Row { seq(WIDTH, _ => Cell(b, 0)) }

  /** One scroll, and a byte was stored on the line the batch started on: that line has moved up onto
      a row that is not repainted. */
  lemma StaleStored(row: nat, col: nat, bs: seq<byte>, below: Line, b: byte)
    requires row < HEIGHT && col <= WIDTH && 32 <= b < 127
    requires var w := NextAll(Begin(row, col), bs);
      w.scrolls == 1 && 0 < row < HEIGHT - 1 && w.stored.Byte? && Glyph(Cell(w.stored.value, 0)) != b
    ensures !Faithful(seq(HEIGHT, _ => Filled(b)), row, col, bs, below)
  {
    var rows: seq<Row> := seq(HEIGHT, _ => Filled(b));
    var w, t := NextAll(Begin(row, col), bs), WroteAll(Clean(rows, row, col), bs);
    TracksBatch(rows, row, col, bs);
    StartKept(Begin(row, col), bs);
    var screen, r, c := Painted(t, LookAll(rows), below), row - 1, w.stored.col;
    assert screen[r] == LookAll(rows)[row];
    assert screen[r][c] == b;
    assert LookAll(t.rows)[r][c] == Glyph(t.rows[r][c]) != b;
  }

  /** Two terminals that differ only in what was row 1 when the batch started. */
  ghost predicate Agree(w: Walk, s: Term, t: Term)
  {
    && s.Ok() && t.Ok() && s.row == t.row == w.row && s.col == t.col == w.col
    && forall r :: 0 <= r < HEIGHT && r + w.scrolls != 1 ==> s.rows[r] == t.rows[r]
  }

  lemma AgreeDown(w: Walk, s: Term, t: Term)
    requires Agree(w, s, t)
    ensures Agree(Down(w), NewLine(s), NewLine(t))
  {
    if w.row == HEIGHT - 1 {
      forall r | 0 <= r < HEIGHT && r + w.scrolls + 1 != 1 ensures NewLine(s).rows[r] == NewLine(t).rows[r] {
        if r < HEIGHT - 1 { assert s.rows[r + 1] == t.rows[r + 1]; }
      }
    }
  }

  lemma AgreeStore(w: Walk, s: Term, t: Term, b: byte)
    requires Agree(w, s, t) && w.col < WIDTH
    ensures Agree(Store(w, b), Put(s, b), Put(t, b))
  {
  }

  lemma AgreeStep(w: Walk, s: Term, t: Term, b: byte)
    requires Agree(w, s, t)
    ensures Agree(Next(w, b), Wrote(s, b), Wrote(t, b))
  {
    hide NewLine, Put, Store, Down;
    if b == NEWLINE || (b != BACKSPACE && w.col >= WIDTH) { AgreeDown(w, s, t); }
    if b != NEWLINE && b != BACKSPACE {
      if w.col >= WIDTH { AgreeStore(Down(w), NewLine(s), NewLine(t), b); } else { AgreeStore(w, s, t, b); }
    }
  }

  lemma {:induction false} AgreeAll(w: Walk, s: Term, t: Term, bs: seq<byte>)
    requires Agree(w, s, t)
    ensures Agree(NextAll(w, bs), WroteAll(s, bs), WroteAll(t, bs))
    decreases |bs|
  {
    if bs != [] {
      AgreeStep(w, s, t, bs[0]);
      AgreeAll(Next(w, bs[0]), Wrote(s, bs[0]), Wrote(t, bs[0]), bs[1..]);
    }
  }

  function RowOneFilled(b: byte): (r: seq<Row>)
    ensures |r| == HEIGHT
  {
    BlankRows(HEIGHT)[1 := Filled(b)]
  }

  /** Row 0 is not repainted, and the picture moved up by one line only: it shows what was row 1. */
  lemma TopShowsRowOne(b: byte, row: nat, col: nat, bs: seq<byte>, below: Line)
    requires row < HEIGHT && col <= WIDTH && 32 <= b < 127
    requires NextAll(Begin(row, col), bs).scrolls > 0 && row > 0
    requires Faithful(RowOneFilled(b), row, col, bs, below)
    ensures Glyph(WroteAll(Clean(RowOneFilled(b), row, col), bs).rows[0][0]) == b
  {
    var rows := RowOneFilled(b);
    var t := WroteAll(Clean(rows, row, col), bs);
    TracksBatch(rows, row, col, bs);
    StartKept(Begin(row, col), bs);
    var screen := Painted(t, LookAll(rows), below);
    assert screen[0] == LookAll(rows)[1];
    assert screen[0][0] == b;
    assert LookAll(t.rows)[0][0] == Glyph(t.rows[0][0]);
  }

  /** Two or more scrolls: row 0 cannot be right for both of two buffers. */
  lemma StaleScrolls(row: nat, col: nat, bs: seq<byte>, below: Line)
    requires 0 < row < HEIGHT && col <= WIDTH && NextAll(Begin(row, col), bs).scrolls >= 2
    ensures !Faithful(RowOneFilled(65), row, col, bs, below) || !Faithful(RowOneFilled(66), row, col, bs, below)
  {
    hide Faithful, Glyph;
    AgreeAll(Begin(row, col), Clean(RowOneFilled(65), row, col), Clean(RowOneFilled(66), row, col), bs);
    if Faithful(RowOneFilled(65), row, col, bs, below) && Faithful(RowOneFilled(66), row, col, bs, below) {
      TopShowsRowOne(65, row, col, bs, below);
      TopShowsRowOne(66, row, col, bs, below);
      assert false;
    }
  }

  /** Where the condition fails there is a buffer whose repaint is wrong. */
  lemma Stale(row: nat, col: nat, bs: seq<byte>, below: Line) returns (rows: seq<Row>)
    requires row < HEIGHT && col <= WIDTH && !OneRepaintSuffices(NextAll(Begin(row, col), bs))
    ensures |rows| == HEIGHT && !Faithful(rows, row, col, bs, below)
  {
    hide Faithful;
    var w := NextAll(Begin(row, col), bs);
    StartKept(Begin(row, col), bs);
    if w.scrolls == 1 {
      var b := if Glyph(Cell(w.stored.value, 0)) == 65 then 66 else 65;
      StaleStored(row, col, bs, below, b);
      rows := seq(HEIGHT, _ => Filled(b));
    } else {
      StaleScrolls(row, col, bs, below);
      rows := if Faithful(RowOneFilled(65), row, col, bs, below) then RowOneFilled(66) else RowOneFilled(65);
    }
  }

  /** Repainting only the dirty rows after a batch is right for every buffer exactly when one scroll of
      the picture accounts for the batch. */
  lemma DisplayExact(row: nat, col: nat, bs: seq<byte>, below: Line)
    requires row < HEIGHT && col <= WIDTH
    ensures (forall rows: seq<Row> :: |rows| == HEIGHT ==> Faithful(rows, row, col, bs, below)) <==>
            OneRepaintSuffices(NextAll(Begin(row, col), bs))
  {
    hide Faithful, OneRepaintSuffices;
    if OneRepaintSuffices(NextAll(Begin(row, col), bs)) {
      forall rows: seq<Row> | |rows| == HEIGHT ensures Faithful(rows, row, col, bs, below) {
        Shows(rows, row, col, bs, below);
      }
    } else {
      var rows := Stale(row, col, bs, below);
    }
  }

  /** Repainting after every single byte is always right. */
  lemma EachByteRepainted(rows: seq<Row>, row: nat, col: nat, b: byte, below: Line)
    requires |rows| == HEIGHT && row < HEIGHT && col <= WIDTH
    ensures Faithful(rows, row, col, [b], below)
  {
    var w := Begin(row, col);
    assert NextAll(w, [b]) == NextAll(Next(w, b), []) == Next(w, b);
    Shows(rows, row, col, [b], below);
  }

  /** A session: batches of bytes, each followed by a repaint. */
  function Session(t: Term, shown: seq<Line>, batches: seq<seq<byte>>, below: Line): (r: (Term, seq<Line>))
    requires t.Ok() && |shown| == HEIGHT
    ensures r.0.Ok() && |r.1| == HEIGHT
    decreases |batches|
  {
    if batches == [] then (t, shown)
    else
      var wrote := WroteAll(t, batches[0]);
      Session(Clean(wrote.rows, wrote.row, wrote.col), Painted(wrote, shown, below), batches[1..], below)
  }

  ghost predicate AllSuffice(row: nat, col: nat, batches: seq<seq<byte>>)
    decreases |batches|
  {
    batches == [] ||
    var w := NextAll(Begin(row, col), batches[0]);
    OneRepaintSuffices(w) && AllSuffice(w.row, w.col, batches[1..])
  }

  /** Over a whole session of such batches the screen always shows the buffer. */
  lemma {:induction false} SessionShown(t: Term, batches: seq<seq<byte>>, below: Line)
    requires t.Ok() && t == Clean(t.rows, t.row, t.col) && AllSuffice(t.row, t.col, batches)
    ensures var r := Session(t, LookAll(t.rows), batches, below); r.1 == LookAll(r.0.rows)
    decreases |batches|
  {
    hide OneRepaintSuffices, Painted, LookAll, WroteAll, NextAll;
    if batches != [] {
      var wrote := WroteAll(t, batches[0]);
      Shows(t.rows, t.row, t.col, batches[0], below);
      TracksBatch(t.rows, t.row, t.col, batches[0]);
      SessionShown(Clean(wrote.rows, wrote.row, wrote.col), batches[1..], below);
    }
  }

  /** Two short lines written at the last row but one, then repainted once: the first never shows. */
  lemma LineLost(below: Line)
    ensures !Faithful(BlankRows(HEIGHT), HEIGHT - 2, 0, [97, NEWLINE, 98, NEWLINE], below)
  {
    var bs := [97, NEWLINE, 98, NEWLINE];
    var w := Begin(HEIGHT - 2, 0);
    var w1 := Next(w, 97);
    var w2 := Next(w1, NEWLINE);
    var w3 := Next(w2, 98);
    assert bs[1..] == [NEWLINE, 98, NEWLINE] && bs[1..][1..] == [98, NEWLINE] && bs[1..][1..][1..] == [NEWLINE];
    assert NextAll(w, bs) == NextAll(w1, bs[1..]) == NextAll(w2, bs[1..][1..]) == NextAll(w3, [NEWLINE]);
    assert NextAll(w3, [NEWLINE]) == NextAll(Next(w3, NEWLINE), []) == Next(w3, NEWLINE);
    StaleStored(HEIGHT - 2, 0, bs, below, 32);
    assert Filled(32) == BlankRow();
    assert BlankRows(HEIGHT) == seq(HEIGHT, _ => Filled(32));
  }
}
