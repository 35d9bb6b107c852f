/** Squares of the xiangqi board: ten ranks of nine files, red at the bottom. */
module XiangqiPosition {

  datatype Color = Red | Black

  function Opponent(c: Color): Color { if c == Red then Black else Red }

  function Abs(x: int): nat { if x < 0 then -x else x }

  datatype Position = Position(row: int, col: int)
  {
    predicate OnBoard() { 0 <= row <= 9 && 0 <= col <= 8 }

    function NextRight(): Position { Position(row, col + 1) }
    function NextLeft(): Position { Position(row, col - 1) }
    function NextAbove(): Position { Position(row + 1, col) }
    function NextBelow(): Position { Position(row - 1, col) }

    predicate IsInPalace(c: Color)
    {
      match c
      case Red => 3 <= col <= 5 && row <= 2
      case Black => 3 <= col <= 5 && 7 <= row <= 9
    }

    function PawnUp(c: Color): Position { if c == Red then NextAbove() else NextBelow() }
    function PawnDown(c: Color): Position { if c == Red then NextBelow() else NextAbove() }

    predicate IsPastRiver(c: Color) { if c == Red then row >= 5 else row <= 4 }

    predicate IsAbove(other: Position) { row > other.row }
    predicate IsBelow(other: Position) { row < other.row }
    predicate IsRightOf(other: Position) { col > other.col }
    predicate IsLeftOf(other: Position) { col < other.col }

    predicate IsOrthogonalTo(other: Position) { col == other.col || row == other.row }
    predicate IsDiagonalTo(other: Position) { Abs(col - other.col) == Abs(row - other.row) }

    predicate IsHorseMove(other: Position)
    {
      || (Abs(row - other.row) == 2 && Abs(col - other.col) == 1)
      || (Abs(row - other.row) == 1 && Abs(col - other.col) == 2)
    }

    function OrthogonalDistance(other: Position): nat
    {
      if IsAbove(other) || IsBelow(other) then Abs(row - other.row) else Abs(col - other.col)
    }

    function DiagonalDistance(other: Position): nat { Abs(col - other.col) }

    /** The step the walk from here to `other` repeats: along the file if the ranks differ,
        along the rank otherwise. */
    function RowStep(other: Position): int
    {
      if IsAbove(other) then -1 else if IsBelow(other) then 1 else 0
    }

    function ColStep(other: Position): int
    {
      if IsAbove(other) || IsBelow(other) then 0
      else if IsRightOf(other) then -1 else if IsLeftOf(other) then 1 else 0
    }
  }

  /** The `n` squares reached from `p` by repeating one step. */
  function Ray(p: Position, rowStep: int, colStep: int, n: nat): (r: seq<Position>)
    ensures |r| == n
    ensures forall k :: 0 <= k < n ==> r[k] == Position(p.row + (k + 1) * rowStep, p.col + (k + 1) * colStep)
  {
    seq(n, k requires 0 <= k < n => Position(p.row + (k + 1) * rowStep, p.col + (k + 1) * colStep))
  }

  function Orthogonals(p: Position, q: Position): seq<Position>
  {
    if !p.IsOrthogonalTo(q) then [] else Ray(p, p.RowStep(q), p.ColStep(q), p.OrthogonalDistance(q))
  }

  function Diagonals(p: Position, q: Position): seq<Position>
  {
    if !p.IsDiagonalTo(q) then [] else Ray(p, p.RowStep(q), p.ColStep(q), p.DiagonalDistance(q))
  }

  /** The squares of `traveling` without the last one, as after `pop`. */
  function Between(traveling: seq<Position>): seq<Position>
  {
    if traveling == [] then [] else traveling[..|traveling| - 1]
  }

  method WalkRay(p: Position, rowStep: int, colStep: int, n: nat) returns (result: seq<Position>)
    ensures result == Ray(p, rowStep, colStep, n)
  {
    var row, col := p.row, p.col;
    result := [];
    for i := 0 to n
      invariant |result| == i
      invariant row == p.row + i * rowStep && col == p.col + i * colStep
      invariant forall k :: 0 <= k < i ==> result[k] == Position(p.row + (k + 1) * rowStep, p.col + (k + 1) * colStep)
    {
      col := col + colStep;
      row := row + rowStep;
      result := result + [Position(row, col)];
    }
  }

  method OrthogonalsTo(p: Position, q: Position) returns (result: seq<Position>)
    ensures result == Orthogonals(p, q)
  {
    if !p.IsOrthogonalTo(q) {
      return [];
    }
    result := WalkRay(p, p.RowStep(q), p.ColStep(q), p.OrthogonalDistance(q));
  }

  method DiagonalsTo(p: Position, q: Position) returns (result: seq<Position>)
    ensures result == Diagonals(p, q)
  {
    if !p.IsDiagonalTo(q) {
      return [];
    }
    result := WalkRay(p, p.RowStep(q), p.ColStep(q), p.DiagonalDistance(q));
  }

  /** A straight walk between squares of the board: it stays on the board, ends at its target, and
      visits exactly the squares of the segment other than its start. */
  lemma OrthogonalsOnBoard(p: Position, q: Position)
    requires p.OnBoard() && q.OnBoard() && p.IsOrthogonalTo(q)
    ensures var r := Orthogonals(p, q);
      && (forall k :: 0 <= k < |r| ==> r[k].OnBoard())
      && (p != q ==> |r| > 0 && r[|r| - 1] == q)
      && |r| <= 9
      && (forall s: Position :: s in r <==> s != p && OnSegment(p, s, q))
  {
    var r := Orthogonals(p, q);
    forall s: Position ensures s in r <==> s != p && OnSegment(p, s, q) {
      if s != p && OnSegment(p, s, q) {
        var k := Abs(s.row - p.row) + Abs(s.col - p.col) - 1;
        assert r[k] == s;
      }
    }
  }

  predicate OnSegment(p: Position, s: Position, q: Position)
  {
    || (p.col == s.col == q.col && (p.row <= s.row <= q.row || q.row <= s.row <= p.row))
    || (p.row == s.row == q.row && (p.col <= s.col <= q.col || q.col <= s.col <= p.col))
  }

  /** The squares the elephant rule inspects run along its own file, not along the diagonal. */
  lemma DiagonalsAlongFile(p: Position, q: Position)
    requires p.OnBoard() && q.OnBoard() && p.IsDiagonalTo(q)
    ensures var r := Diagonals(p, q);
      |r| <= 8 && forall k :: 0 <= k < |r| ==> r[k].OnBoard() && r[k].col == p.col
  {
  }
}
