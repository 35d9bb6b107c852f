/** The text terminal: a 40 by 150 character buffer that scrolls, against an unbounded page of lines. */
module Terminal {
  import opened Bytes

  const HEIGHT := 40
  const WIDTH := 150

  datatype Cell = Cell(ascii: byte, color: byte)

  const DEFAULT_CELL := Cell(32, 0)

  /** Green on black, the colour of everything written. */
  const DEFAULT_COLOR: byte := 2

  const NEWLINE: byte := 10
  const BACKSPACE: byte := 8

  type Row = s: seq<Cell> | |s| == WIDTH witness seq(WIDTH, _ => DEFAULT_CELL)

  function BlankRow(): Row { seq(WIDTH, _ => DEFAULT_CELL) }

  function BlankRows(n: nat): seq<Row> { seq(n, _ => BlankRow()) }

  // ---------------------------------------------------------------- the terminal's state

  datatype Term = Term(rows: seq<Row>, dirty: seq<bool>, row: nat, col: nat, needsScroll: bool)
  {
    ghost predicate Ok() { |rows| == HEIGHT && |dirty| == HEIGHT && row < HEIGHT && col <= WIDTH }
  }

  function Fresh(): Term { Term(BlankRows(HEIGHT), seq(HEIGHT, _ => false), 0, 0, false) }

  function NewLine(t: Term): (r: Term)
    requires t.Ok()
    ensures r.Ok() && r.col == 0
  {
    var dirty := t.dirty[t.row := true];
    if t.row == HEIGHT - 1 then
      Term(t.rows[1..] + [BlankRow()], dirty[HEIGHT - 1 := true][HEIGHT - 2 := true], t.row, 0, true)
    else
      Term(t.rows, dirty, t.row + 1, 0, t.needsScroll)
  }

  function Put(t: Term, b: byte): (r: Term)
    requires t.Ok() && t.col < WIDTH
    ensures r.Ok()
  {
    var line := t.rows[t.row][t.col := Cell(b, DEFAULT_COLOR)];
    Term(t.rows[t.row := line], t.dirty[t.row := true], t.row, t.col + 1, t.needsScroll)
  }

  function Wrote(t: Term, b: byte): (r: Term)
    requires t.Ok()
    ensures r.Ok()
  {
    if b == NEWLINE then NewLine(t)
    else if b == BACKSPACE then t.(dirty := t.dirty[t.row := true], col := if t.col == 0 then 0 else t.col - 1)
    else if t.col >= WIDTH then Put(NewLine(t), b)
    else Put(t, b)
  }

  function WroteAll(t: Term, bs: seq<byte>): (r: Term)
    requires t.Ok()
    ensures r.Ok()
    decreases |bs|
  {
    if bs == [] then t else WroteAll(Wrote(t, bs[0]), bs[1..])
  }

  // ---------------------------------------------------------------- the buffer in place

  class VirtualTerminal {
    const buffer: array2<Cell>
    const dirtyRow: array<bool>
    var columnPosition: nat
    var rowPosition: nat
    var needsScroll: bool

    /** The state the arrays hold. */
    ghost var term: Term

    ghost predicate Valid()
      reads this, buffer, dirtyRow
    {
      && buffer.Length0 == HEIGHT && buffer.Length1 == WIDTH && dirtyRow.Length == HEIGHT
      && term.Ok()
      && (forall r, c :: 0 <= r < HEIGHT && 0 <= c < WIDTH ==> buffer[r, c] == term.rows[r][c])
      && dirtyRow[..] == term.dirty
      && rowPosition == term.row && columnPosition == term.col && needsScroll == term.needsScroll
    }

    constructor ()
      ensures Valid() && term == Fresh()
    {
      buffer := new Cell[HEIGHT, WIDTH]((r, c) => DEFAULT_CELL);
      dirtyRow := new bool[HEIGHT](i => false);
      columnPosition, rowPosition, needsScroll, term := 0, 0, false, Fresh();
    }

    /** The rows move up by one; the last row stays as it is. */
    method ScrollRows()
      requires Valid()
      modifies buffer
      ensures forall r, c :: 0 <= r < HEIGHT && 0 <= c < WIDTH ==>
        buffer[r, c] == term.rows[if r < HEIGHT - 1 then r + 1 else r][c]
    {
      for row := 1 to HEIGHT
        invariant forall r, c :: 0 <= r < HEIGHT && 0 <= c < WIDTH ==>
          buffer[r, c] == term.rows[if r < row - 1 then r + 1 else r][c]
      {
        for col := 0 to WIDTH
          invariant forall r, c :: 0 <= r < HEIGHT && 0 <= c < WIDTH ==>
            buffer[r, c] == term.rows[if r < row - 1 || (r == row - 1 && c < col) then r + 1 else r][c]
        {
          buffer[row - 1, col] := buffer[row, col];
        }
      }
    }

    method ClearRow(row: nat)
      requires row < HEIGHT == buffer.Length0 == dirtyRow.Length && buffer.Length1 == WIDTH
      modifies buffer, dirtyRow
      ensures dirtyRow[..] == old(dirtyRow[..])[row := true]
      ensures forall r, c :: 0 <= r < HEIGHT && 0 <= c < WIDTH ==>
        buffer[r, c] == if r == row then DEFAULT_CELL else old(buffer[r, c])
    {
      dirtyRow[row] := true;
      for col := 0 to WIDTH
        invariant dirtyRow[..] == old(dirtyRow[..])[row := true]
        invariant forall r, c :: 0 <= r < HEIGHT && 0 <= c < WIDTH ==>
          buffer[r, c] == if r == row && c < col then DEFAULT_CELL else old(buffer[r, c])
      {
        buffer[row, col] := DEFAULT_CELL;
      }
    }

    method NewLineIn()
      requires Valid()
      modifies this, buffer, dirtyRow
      ensures Valid() && term == NewLine(old(term))
    {
      dirtyRow[rowPosition] := true;
      if rowPosition == HEIGHT - 1 {
        term := term.(dirty := dirtyRow[..]);
        ScrollRows();
        ClearRow(HEIGHT - 1);
        needsScroll := true;
        dirtyRow[HEIGHT - 2] := true;
      } else {
        rowPosition := rowPosition + 1;
      }
      columnPosition := 0;
      term := NewLine(old(term));
    }

    /** Writing a byte in place is `Wrote`; neither index ever leaves the buffer. */
    method WriteByte(b: byte)
      requires Valid()
      modifies this, buffer, dirtyRow
      ensures Valid() && term == Wrote(old(term), b)
    {
      if b == NEWLINE {
        NewLineIn();
      } else if b == BACKSPACE {
        dirtyRow[rowPosition] := true;
        columnPosition := if columnPosition == 0 then 0 else columnPosition - 1;
        term := Wrote(term, b);
      } else {
        if columnPosition >= WIDTH {
          NewLineIn();
        }
        buffer[rowPosition, columnPosition] := Cell(b, DEFAULT_COLOR);
        columnPosition := columnPosition + 1;
        dirtyRow[rowPosition] := true;
        term := Put(term, b);
      }
    }

    method WriteBytes(bs: seq<byte>)
      requires Valid()
      modifies this, buffer, dirtyRow
      ensures Valid() && term == WroteAll(old(term), bs)
    {
      for i := 0 to |bs|
        invariant Valid() && WroteAll(term, bs[i..]) == WroteAll(old(term), bs)
      {
        assert bs[i..][0] == bs[i] && bs[i..][1..] == bs[i + 1..];
        WriteByte(bs[i]);
      }
    }
  }

  // ---------------------------------------------------------------- the unbounded page

  /** A page without a bottom; the cursor is on its last line. */
  datatype Page = Page(lines: seq<Row>, col: nat)
  {
    ghost predicate Ok() { lines != [] && col <= WIDTH }
  }

  function PageNewLine(p: Page): Page { Page(p.lines + [BlankRow()], 0) }

  function PagePut(p: Page, b: byte): (r: Page)
    requires p.Ok() && p.col < WIDTH
    ensures r.Ok() && |r.lines| == |p.lines|
  {
    var last := |p.lines| - 1;
    Page(p.lines[last := p.lines[last][p.col := Cell(b, DEFAULT_COLOR)]], p.col + 1)
  }

  function PageWrote(p: Page, b: byte): (r: Page)
    requires p.Ok()
    ensures r.Ok()
  {
    if b == NEWLINE then PageNewLine(p)
    else if b == BACKSPACE then p.(col := if p.col == 0 then 0 else p.col - 1)
    else if p.col == WIDTH then PagePut(PageNewLine(p), b)
    else PagePut(p, b)
  }

  function PageWroteAll(p: Page, bs: seq<byte>): (r: Page)
    requires p.Ok()
    ensures r.Ok()
    decreases |bs|
  {
    if bs == [] then p else PageWroteAll(PageWrote(p, bs[0]), bs[1..])
  }

  /** The last lines of the page, with blank rows below while it is shorter than the buffer. */
  function Window(lines: seq<Row>): (r: seq<Row>)
    ensures |r| == HEIGHT
  {
    if |lines| >= HEIGHT then lines[|lines| - HEIGHT..] else lines + BlankRows(HEIGHT - |lines|)
  }

  ghost predicate Refines(t: Term, p: Page)
  {
    && t.Ok() && p.Ok()
    && t.rows == Window(p.lines) && t.col == p.col
    && t.row == (if |p.lines| < HEIGHT then |p.lines| else HEIGHT) - 1
  }

  lemma NewLineRefines(t: Term, p: Page)
    requires Refines(t, p)
    ensures Refines(NewLine(t), PageNewLine(p))
  {
    var lines, more := p.lines, PageNewLine(p).lines;
    if |lines| >= HEIGHT {
      assert more[|more| - HEIGHT..] == lines[|lines| - HEIGHT..][1..] + [BlankRow()];
    } else {
      assert more + BlankRows(HEIGHT - |more|) == lines + BlankRows(HEIGHT - |lines|);
    }
  }

  lemma PutRefines(t: Term, p: Page, b: byte)
    requires Refines(t, p) && t.col < WIDTH
    ensures Refines(Put(t, b), PagePut(p, b))
  {
    assert t.rows[t.row] == p.lines[|p.lines| - 1];
    assert Put(t, b).rows == Window(PagePut(p, b).lines);
  }

  /** Over any byte stream the buffer is the window onto the last 40 lines of the unbounded page. */
  lemma {:induction false} TerminalRefinesPage(t: Term, p: Page, bs: seq<byte>)
    requires Refines(t, p)
    ensures Refines(WroteAll(t, bs), PageWroteAll(p, bs))
    decreases |bs|
  {
    if bs != [] {
      if t.col >= WIDTH || bs[0] == NEWLINE { NewLineRefines(t, p); }
      if bs[0] != NEWLINE && bs[0] != BACKSPACE {
        if t.col >= WIDTH { PutRefines(NewLine(t), PageNewLine(p), bs[0]); } else { PutRefines(t, p, bs[0]); }
      }
      TerminalRefinesPage(Wrote(t, bs[0]), PageWrote(p, bs[0]), bs[1..]);
    }
  }

  lemma TerminalShowsPage(bs: seq<byte>)
    ensures Refines(WroteAll(Fresh(), bs), PageWroteAll(Page([BlankRow()], 0), bs))
  {
    assert Fresh().rows == Window([BlankRow()]);
    TerminalRefinesPage(Fresh(), Page([BlankRow()], 0), bs);
  }
}
