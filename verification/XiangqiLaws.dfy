/** The moves of each kind of piece, in rows, columns and occupied squares: what the rules of
    `XiangqiRules` amount to, stated without the walks they inspect. Coordinates are written out; a red
    piece starts at the low rows. */
module XiangqiLaws {
  import opened Wrappers
  import opened XiangqiPosition
  import opened XiangqiRules

  // ---------------------------------------------------------------- squares

  /** What stands on a square. */
  function At(b: Points, row: int, col: int): Option<Piece>
  {
    if 0 <= row <= 9 && 0 <= col <= 8 then b[9 * row + col] else None
  }

  predicate Occupied(b: Points, row: int, col: int) { At(b, row, col).Some? }

  /** A square of the board on which no piece of colour `c` stands. */
  predicate Open(b: Points, to: Position, c: Color)
  {
    0 <= to.row <= 9 && 0 <= to.col <= 8 && (At(b, to.row, to.col).Some? ==> At(b, to.row, to.col).value.color != c)
  }

  predicate StrictlyBetween(a: int, x: int, z: int) { a < x < z || z < x < a }

  /** The occupied squares strictly between two squares of one row or one column. */
  ghost function Screens(b: Points, p: Position, q: Position): set<Position>
  {
    set row, col | 0 <= row <= 9 && 0 <= col <= 8 && Occupied(b, row, col)
      && ((p.col == col == q.col && StrictlyBetween(p.row, row, q.row))
          || (p.row == row == q.row && StrictlyBetween(p.col, col, q.col))) :: Position(row, col)
  }

  function Forward(c: Color): int { if c == Red then 1 else -1 }

  // ---------------------------------------------------------------- counting

  function OccupiedOf(b: Points, ps: seq<Position>): set<Position>
  {
    if ps == [] then {}
    else OccupiedOf(b, ps[1..]) + if Occupied(b, ps[0].row, ps[0].col) then {ps[0]} else {}
  }

  lemma {:induction false} OccupiedExact(b: Points, ps: seq<Position>, x: Position)
    ensures x in OccupiedOf(b, ps) <==> x in ps && Occupied(b, x.row, x.col)
  {
    hide Occupied;
    if ps != [] {
      OccupiedExact(b, ps[1..], x);
      assert ps == [ps[0]] + ps[1..];
    }
  }

  lemma {:induction false} CountIsSize(b: Points, ps: seq<Position>)
    requires AllOnBoard(ps) && Distinct(ps)
    ensures CountPieces(b, ps) == |OccupiedOf(b, ps)|
  {
    if ps != [] {
      CountIsSize(b, ps[1..]);
      OccupiedExact(b, ps[1..], ps[0]);
      assert ps[0] !in ps[1..];
    }
  }

  /** The squares a straight walk inspects are those strictly between, once each. */
  lemma WalkScreens(b: Points, p: Position, q: Position)
    requires p.OnBoard() && q.OnBoard() && p.IsOrthogonalTo(q)
    ensures var ps := Between(Orthogonals(p, q)); AllOnBoard(ps) && CountPieces(b, ps) == |Screens(b, p, q)|
  {
    hide CountPieces, OccupiedOf, Occupied, Orthogonals, Screens;
    OrthogonalsOnBoard(p, q);
    var ps := Between(Orthogonals(p, q));
    WalkDistinct(p, q);
    CountIsSize(b, ps);
    forall x: Position ensures x in OccupiedOf(b, ps) <==> x in Screens(b, p, q) {
      OccupiedExact(b, ps, x);
      WalkCovers(p, q, x);
      ScreenExact(b, p, q, x);
    }
    assert OccupiedOf(b, ps) == Screens(b, p, q);
  }

  lemma ScreenExact(b: Points, p: Position, q: Position, x: Position)
    requires p.OnBoard() && q.OnBoard()
    ensures x in Screens(b, p, q) <==>
      && Occupied(b, x.row, x.col)
      && ((p.col == x.col == q.col && StrictlyBetween(p.row, x.row, q.row))
          || (p.row == x.row == q.row && StrictlyBetween(p.col, x.col, q.col)))
  {
    assert x == Position(x.row, x.col);
  }

  lemma WalkDistinct(p: Position, q: Position)
    requires p.IsOrthogonalTo(q)
    ensures Distinct(Between(Orthogonals(p, q)))
  {
  }

  lemma WalkCovers(p: Position, q: Position, s: Position)
    requires p.OnBoard() && q.OnBoard() && p.IsOrthogonalTo(q)
    ensures s in Between(Orthogonals(p, q)) <==>
      || (p.col == s.col == q.col && StrictlyBetween(p.row, s.row, q.row))
      || (p.row == s.row == q.row && StrictlyBetween(p.col, s.col, q.col))
  {
    var ps := Between(Orthogonals(p, q));
    if || (p.col == s.col == q.col && StrictlyBetween(p.row, s.row, q.row))
       || (p.row == s.row == q.row && StrictlyBetween(p.col, s.col, q.col)) {
      var k := Abs(s.row - p.row) + Abs(s.col - p.col) - 1;
      assert ps[k] == s;
    }
  }

  // ---------------------------------------------------------------- the laws

  /** A rook goes along a row or a column with nothing in between. */
  lemma RookLaw(pc: Piece, to: Position, b: Points)
    requires pc.pos.OnBoard() && pc.pieceType == Rook
    ensures PieceMay(pc, to, b) <==>
      Open(b, to, pc.color) && (to.row == pc.pos.row || to.col == pc.pos.col) && Screens(b, pc.pos, to) == {}
  {
    hide CountPieces, Screens, Orthogonals;
    if to.OnBoard() && pc.pos.IsOrthogonalTo(to) { WalkScreens(b, pc.pos, to); }
  }

  /** A cannon captures over exactly one piece, and otherwise goes like a rook. */
  lemma CannonLaw(pc: Piece, to: Position, b: Points)
    requires pc.pos.OnBoard() && pc.pieceType == Cannon
    ensures PieceMay(pc, to, b) <==>
      && Open(b, to, pc.color) && (to.row == pc.pos.row || to.col == pc.pos.col)
      && |Screens(b, pc.pos, to)| == if Occupied(b, to.row, to.col) then 1 else 0
  {
    hide CountPieces, Screens, Orthogonals;
    if to.OnBoard() && pc.pos.IsOrthogonalTo(to) { WalkScreens(b, pc.pos, to); }
  }

  /** A horse goes two squares along one axis and one along the other, unless the neighbour along the
      longer leg is occupied. */
  lemma HorseLaw(pc: Piece, to: Position, b: Points)
    requires pc.pos.OnBoard() && pc.pieceType == Horse
    ensures var p := pc.pos;
      PieceMay(pc, to, b) <==>
        && Open(b, to, pc.color)
        && (|| (to.row == p.row + 2 && (to.col == p.col + 1 || to.col == p.col - 1) && !Occupied(b, p.row + 1, p.col))
            || (to.row == p.row - 2 && (to.col == p.col + 1 || to.col == p.col - 1) && !Occupied(b, p.row - 1, p.col))
            || (to.col == p.col + 2 && (to.row == p.row + 1 || to.row == p.row - 1) && !Occupied(b, p.row, p.col + 1))
            || (to.col == p.col - 2 && (to.row == p.row + 1 || to.row == p.row - 1) && !Occupied(b, p.row, p.col - 1)))
  {
  }

  /** A pawn goes one square forward, and from the other side of the river also one square sideways. */
  lemma PawnLaw(pc: Piece, to: Position, b: Points)
    requires pc.pos.OnBoard() && pc.pieceType == Pawn
    ensures var p := pc.pos;
      PieceMay(pc, to, b) <==>
        && Open(b, to, pc.color)
        && (|| (to.col == p.col && to.row == p.row + Forward(pc.color))
            || (to.row == p.row && (to.col == p.col + 1 || to.col == p.col - 1)
                && if pc.color == Red then p.row >= 5 else p.row <= 4))
  {
  }

  predicate InPalace(p: Position, c: Color)
  {
    3 <= p.col <= 5 && if c == Red then 0 <= p.row <= 2 else 7 <= p.row <= 9
  }

  /** An advisor goes one square diagonally and stays in its palace. */
  lemma AdvisorLaw(pc: Piece, to: Position, b: Points)
    requires pc.pos.OnBoard() && pc.pieceType == Advisor
    ensures var p := pc.pos;
      PieceMay(pc, to, b) <==>
        && Open(b, to, pc.color) && InPalace(to, pc.color)
        && (to.row == p.row + 1 || to.row == p.row - 1) && (to.col == p.col + 1 || to.col == p.col - 1)
  {
  }

  /** As coded, an elephant goes two or more squares diagonally and stays on its side of the river; the
      squares that must be empty are those of its own column in the rows it passes. */
  lemma ElephantLaw(pc: Piece, to: Position, b: Points)
    requires pc.pos.OnBoard() && pc.pieceType == Elephant
    ensures var p := pc.pos;
      PieceMay(pc, to, b) <==>
        && Open(b, to, pc.color) && (if pc.color == Red then to.row <= 4 else to.row >= 5)
        && (to.row - p.row == to.col - p.col || to.row - p.row == p.col - to.col) && (to.row >= p.row + 2 || to.row <= p.row - 2)
        && (forall row :: StrictlyBetween(p.row, row, to.row) ==> !Occupied(b, row, p.col))
  {
    hide CountPieces, Diagonals;
    var p := pc.pos;
    if to.OnBoard() && p.IsDiagonalTo(to) {
      DiagonalsAlongFile(p, to);
      PassedRows(b, p, to);
    }
  }

  lemma PassedRows(b: Points, p: Position, to: Position)
    requires p.OnBoard() && to.OnBoard() && p.IsDiagonalTo(to)
    ensures var ps := Between(Diagonals(p, to));
      AllOnBoard(ps) && (CountPieces(b, ps) == 0 <==> forall row :: StrictlyBetween(p.row, row, to.row) ==> !Occupied(b, row, p.col))
  {
    hide CountPieces;
    DiagonalsAlongFile(p, to);
    var ps := Between(Diagonals(p, to));
    NoneOccupied(b, ps);
    assert forall k :: 0 <= k < |ps| ==> ps[k] == Position(if to.row > p.row then p.row + k + 1 else p.row - k - 1, p.col);
    hide Diagonals, Occupied;
    if CountPieces(b, ps) == 0 {
      forall row | StrictlyBetween(p.row, row, to.row) ensures !Occupied(b, row, p.col) {
        assert ps[Abs(row - p.row) - 1] == Position(row, p.col);
      }
    }
    if forall row :: StrictlyBetween(p.row, row, to.row) ==> !Occupied(b, row, p.col) {
      forall k | 0 <= k < |ps| ensures !Occupied(b, ps[k].row, ps[k].col) {
        assert StrictlyBetween(p.row, ps[k].row, to.row);
      }
    }
  }

  lemma NoneOccupied(b: Points, ps: seq<Position>)
    requires AllOnBoard(ps)
    ensures CountPieces(b, ps) == 0 <==> forall k :: 0 <= k < |ps| ==> !Occupied(b, ps[k].row, ps[k].col)
  {
  }

  /** Looking along the column of `to` away from the side of `c`, the first piece is a general. */
  ghost predicate FacesGeneral(b: Points, to: Position, c: Color)
  {
    exists row :: SeesGeneral(b, to, c, row)
  }

  ghost predicate SeesGeneral(b: Points, to: Position, c: Color, row: int)
  {
    && (if c == Red then row > to.row else row < to.row)
    && At(b, row, to.col).Some? && At(b, row, to.col).value.pieceType == General
    && forall r :: StrictlyBetween(to.row, r, row) ==> !Occupied(b, r, to.col)
  }

  /** A general goes one square along a row or a column, stays in its palace, and does not come to see a
      general on its column, itself included. */
  lemma GeneralLaw(pc: Piece, to: Position, b: Points)
    requires pc.pos.OnBoard() && pc.pieceType == General
    ensures var p := pc.pos;
      PieceMay(pc, to, b) <==>
        && Open(b, to, pc.color) && InPalace(to, pc.color)
        && (|| (to.col == p.col && (to.row == p.row + 1 || to.row == p.row - 1))
            || (to.row == p.row && (to.col == p.col + 1 || to.col == p.col - 1)))
        && !FacesGeneral(b, to, pc.color)
  {
    hide MeetsGeneral, FacesGeneral;
    if to.OnBoard() {
      var end := FarEnd(to, pc.color);
      OrthogonalsOnBoard(to, end);
      FirstMet(b, to, pc.color);
    }
  }

  lemma FirstMet(b: Points, to: Position, c: Color)
    requires to.OnBoard()
    ensures var ps := Orthogonals(to, FarEnd(to, c)); AllOnBoard(ps) && (MeetsGeneral(b, ps) <==> FacesGeneral(b, to, c))
  {
    hide MeetsGeneral, SeesGeneral, Orthogonals;
    var ps := Orthogonals(to, FarEnd(to, c));
    FileAhead(to, c);
    MeetsExact(b, ps);
    forall k | 0 <= k < |ps| ensures FirstAt(b, ps, k) <==> SeesGeneral(b, to, c, ps[k].row) {
      SeenOnWalk(b, to, c, k);
    }
    if row :| SeesGeneral(b, to, c, row) {
      SeenOnBoard(b, to, c, row);
      assert ps[Abs(row - to.row) - 1].row == row;
    }
  }

  lemma SeenOnBoard(b: Points, to: Position, c: Color, row: int)
    requires SeesGeneral(b, to, c, row)
    ensures 0 <= row <= 9 && if c == Red then row > to.row else row < to.row
  {
  }

  ghost predicate FirstAt(b: Points, ps: seq<Position>, k: nat)
  {
    && k < |ps| && At(b, ps[k].row, ps[k].col).Some? && At(b, ps[k].row, ps[k].col).value.pieceType == General
    && forall j :: 0 <= j < k ==> !Occupied(b, ps[j].row, ps[j].col)
  }

  lemma {:induction false} MeetsExact(b: Points, ps: seq<Position>)
    requires AllOnBoard(ps)
    ensures MeetsGeneral(b, ps) <==> exists k: nat :: FirstAt(b, ps, k)
  {
    if ps != [] {
      var rest := ps[1..];
      MeetsExact(b, rest);
      if HasPiece(b, ps[0]) {
        assert FirstAt(b, ps, 0) <==> GetPiece(b, ps[0]).value.pieceType == General;
      } else {
        if k: nat :| FirstAt(b, rest, k) { assert FirstAt(b, ps, k + 1); }
        if k: nat :| FirstAt(b, ps, k) { assert FirstAt(b, rest, k - 1); }
      }
    }
  }

  lemma FileAhead(to: Position, c: Color)
    requires to.OnBoard()
    ensures var ps := Orthogonals(to, FarEnd(to, c));
      && |ps| == (if c == Red then 9 - to.row else to.row)
      && forall k :: 0 <= k < |ps| ==> ps[k] == Position(if c == Red then to.row + k + 1 else to.row - k - 1, to.col)
  {
  }

  lemma SeenOnWalk(b: Points, to: Position, c: Color, k: nat)
    requires to.OnBoard() && k < |Orthogonals(to, FarEnd(to, c))|
    ensures var ps := Orthogonals(to, FarEnd(to, c)); AllOnBoard(ps) && (FirstAt(b, ps, k) <==> SeesGeneral(b, to, c, ps[k].row))
  {
    hide Orthogonals, At, Occupied;
    var ps := Orthogonals(to, FarEnd(to, c));
    FileAhead(to, c);
    var row := ps[k].row;
    if FirstAt(b, ps, k) {
      forall r | StrictlyBetween(to.row, r, row) ensures !Occupied(b, r, to.col) {
        assert ps[Abs(r - to.row) - 1] == Position(r, to.col);
      }
    }
    if SeesGeneral(b, to, c, row) {
      forall j | 0 <= j < k ensures !Occupied(b, ps[j].row, ps[j].col) {
        assert StrictlyBetween(to.row, ps[j].row, row);
      }
    }
  }
}
