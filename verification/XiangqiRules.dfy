/** Boards, pieces, and which moves a piece may make on a board, kings' safety aside. */
module XiangqiRules {
  import opened Wrappers
  import opened XiangqiPosition

  datatype PieceType = General | Advisor | Elephant | Horse | Rook | Cannon | Pawn

  datatype Piece = Piece(pieceType: PieceType, pos: Position, color: Color)

  const POINTS := 90

  /** The points of the board, rank by rank. */
  type Points = s: seq<Option<Piece>> | |s| == POINTS witness seq(POINTS, _ => None)

  datatype Board = Board(points: Points, turn: Color, fullMove: nat)

  /** Positions at which an array lookup does not panic. A file past the ninth is read as a
      square of the next rank. */
  predicate Indexable(p: Position) { 0 <= p.row && 0 <= p.col && 9 * p.row + p.col < POINTS }

  function PosToIndex(p: Position): nat
    requires Indexable(p)
  {
    9 * p.row + p.col
  }

  /** Every piece stands where its `pos` says, as `set_piece` and `move_piece` arrange. */
  ghost predicate WellPlaced(b: Points)
  {
    forall i :: 0 <= i < POINTS && b[i].Some? ==> b[i].value.pos.OnBoard() && PosToIndex(b[i].value.pos) == i
  }

  function GetPiece(b: Points, p: Position): Option<Piece>
    requires Indexable(p)
  {
    b[PosToIndex(p)]
  }

  predicate HasPiece(b: Points, p: Position)
    requires Indexable(p)
  {
    GetPiece(b, p).Some?
  }

  predicate HasAllyPiece(b: Points, p: Position, c: Color)
    requires Indexable(p)
  {
    GetPiece(b, p).Some? && GetPiece(b, p).value.color == c
  }

  predicate HasEnemyPiece(b: Points, p: Position, c: Color)
    requires Indexable(p)
  {
    GetPiece(b, p).Some? && GetPiece(b, p).value.color != c
  }

  ghost predicate AllOnBoard(ps: seq<Position>) { forall k :: 0 <= k < |ps| ==> ps[k].OnBoard() }

  function CountPieces(b: Points, ps: seq<Position>): (n: nat)
    requires AllOnBoard(ps)
    ensures n == 0 <==> forall k :: 0 <= k < |ps| ==> !HasPiece(b, ps[k])
  {
    if ps == [] then 0 else (if HasPiece(b, ps[0]) then 1 else 0) + CountPieces(b, ps[1..])
  }

  /** Is the first piece met on `ps` a general? */
  predicate MeetsGeneral(b: Points, ps: seq<Position>)
    requires AllOnBoard(ps)
  {
    if ps == [] then false
    else if HasPiece(b, ps[0]) then GetPiece(b, ps[0]).value.pieceType == General
    else MeetsGeneral(b, ps[1..])
  }

  // ---------------------------------------------------------------- the rules, piece by piece

  /** The far end of the file a general looks along. */
  function FarEnd(p: Position, c: Color): Position { Position(if c == Red then 9 else 0, p.col) }

  predicate OneStep(p: Position, to: Position, c: Color)
  {
    to == p.PawnUp(c) || to == p.PawnDown(c) || to == p.NextRight() || to == p.NextLeft()
  }

  predicate GeneralMay(pc: Piece, to: Position, b: Points)
    requires to.OnBoard()
  {
    OrthogonalsOnBoard(to, FarEnd(to, pc.color));
    && to.IsInPalace(pc.color)
    && !MeetsGeneral(b, Orthogonals(to, FarEnd(to, pc.color)))
    && OneStep(pc.pos, to, pc.color)
  }

  predicate PawnMay(pc: Piece, to: Position)
  {
    if pc.pos.IsPastRiver(pc.color)
    then to == pc.pos.PawnUp(pc.color) || to == pc.pos.NextLeft() || to == pc.pos.NextRight()
    else to == pc.pos.PawnUp(pc.color)
  }

  predicate CannonMay(pc: Piece, to: Position, b: Points)
    requires to.OnBoard() && pc.pos.OnBoard()
  {
    && pc.pos.IsOrthogonalTo(to)
    && (OrthogonalsOnBoard(pc.pos, to);
        var jumps := CountPieces(b, Between(Orthogonals(pc.pos, to)));
        if HasEnemyPiece(b, to, pc.color) then jumps == 1 else jumps == 0)
  }

  predicate RookMay(pc: Piece, to: Position, b: Points)
    requires to.OnBoard() && pc.pos.OnBoard()
  {
    && pc.pos.IsOrthogonalTo(to)
    && (OrthogonalsOnBoard(pc.pos, to);
        CountPieces(b, Between(Orthogonals(pc.pos, to))) == 0)
  }

  /** The square next to the horse in the direction of its longer step. */
  function HorseLeg(p: Position, to: Position): Position
  {
    if to.row - p.row > 1 then p.NextAbove()
    else if p.row - to.row > 1 then p.NextBelow()
    else if to.IsRightOf(p) then p.NextRight() else p.NextLeft()
  }

  predicate HorseMay(pc: Piece, to: Position, b: Points)
    requires to.OnBoard() && pc.pos.OnBoard()
  {
    pc.pos.IsHorseMove(to) && !HasPiece(b, HorseLeg(pc.pos, to))
  }

  predicate AdvisorMay(pc: Piece, to: Position)
  {
    && to.IsDiagonalTo(pc.pos)
    && to.IsInPalace(pc.color)
    && var up, down := to.PawnUp(pc.color), to.PawnDown(pc.color);
       pc.pos == up.NextRight() || pc.pos == down.NextRight() || pc.pos == down.NextLeft() || pc.pos == up.NextLeft()
  }

  predicate ElephantMay(pc: Piece, to: Position, b: Points)
    requires to.OnBoard() && pc.pos.OnBoard()
  {
    && !to.IsPastRiver(pc.color)
    && pc.pos.IsDiagonalTo(to)
    && pc.pos.DiagonalDistance(to) >= 2
    && (DiagonalsAlongFile(pc.pos, to);
        CountPieces(b, Between(Diagonals(pc.pos, to))) == 0)
  }

  /** `Piece::is_legal_move` */
  predicate PieceMay(pc: Piece, to: Position, b: Points)
    requires pc.pos.OnBoard()
  {
    && to.OnBoard()
    && !HasAllyPiece(b, to, pc.color)
    && match pc.pieceType
       case General => GeneralMay(pc, to, b)
       case Pawn => PawnMay(pc, to)
       case Cannon => CannonMay(pc, to, b)
       case Rook => RookMay(pc, to, b)
       case Horse => HorseMay(pc, to, b)
       case Advisor => AdvisorMay(pc, to)
       case Elephant => ElephantMay(pc, to, b)
  }

  // ---------------------------------------------------------------- the loops of the rules

  method ScanForGeneral(b: Points, traveling: seq<Position>) returns (met: bool)
    requires AllOnBoard(traveling)
    ensures met == MeetsGeneral(b, traveling)
  {
    var k := 0;
    while k < |traveling|
      invariant 0 <= k <= |traveling|
      invariant MeetsGeneral(b, traveling) == MeetsGeneral(b, traveling[k..])
    {
      if HasPiece(b, traveling[k]) {
        return GetPiece(b, traveling[k]).value.pieceType == General;
      }
      k := k + 1;
    }
    return false;
  }

  method CountOn(b: Points, traveling: seq<Position>) returns (jumps: nat)
    requires AllOnBoard(traveling)
    ensures jumps == CountPieces(b, traveling)
  {
    jumps := 0;
    var k := 0;
    while k < |traveling|
      invariant 0 <= k <= |traveling|
      invariant CountPieces(b, traveling) == jumps + CountPieces(b, traveling[k..])
    {
      if HasPiece(b, traveling[k]) {
        jumps := jumps + 1;
      }
      k := k + 1;
    }
  }

  method IsLegalMove(pc: Piece, to: Position, b: Points) returns (r: bool)
    requires pc.pos.OnBoard()
    ensures r == PieceMay(pc, to, b)
  {
    if !to.OnBoard() || HasAllyPiece(b, to, pc.color) {
      return false;
    }
    match pc.pieceType
    case General =>
      if !to.IsInPalace(pc.color) {
        return false;
      }
      OrthogonalsOnBoard(to, FarEnd(to, pc.color));
      var traveling := OrthogonalsTo(to, FarEnd(to, pc.color));
      var met := ScanForGeneral(b, traveling);
      return !met && OneStep(pc.pos, to, pc.color);
    case Pawn =>
      return PawnMay(pc, to);
    case Cannon =>
      if !pc.pos.IsOrthogonalTo(to) {
        return false;
      }
      OrthogonalsOnBoard(pc.pos, to);
      var traveling := OrthogonalsTo(pc.pos, to);
      var jumps := CountOn(b, Between(traveling));
      return jumps == if HasEnemyPiece(b, to, pc.color) then 1 else 0;
    case Rook =>
      if !pc.pos.IsOrthogonalTo(to) {
        return false;
      }
      OrthogonalsOnBoard(pc.pos, to);
      var traveling := OrthogonalsTo(pc.pos, to);
      var jumps := CountOn(b, Between(traveling));
      return jumps == 0;
    case Horse =>
      return HorseMay(pc, to, b);
    case Advisor =>
      return AdvisorMay(pc, to);
    case Elephant =>
      if to.IsPastRiver(pc.color) || !pc.pos.IsDiagonalTo(to) || pc.pos.DiagonalDistance(to) < 2 {
        return false;
      }
      DiagonalsAlongFile(pc.pos, to);
      var traveling := DiagonalsTo(pc.pos, to);
      var jumps := CountOn(b, Between(traveling));
      return jumps == 0;
  }

  // ---------------------------------------------------------------- candidates

  function Lines(p: Position): seq<Position>
  {
    Orthogonals(p, Position(p.row, 8)) + Orthogonals(p, Position(p.row, 0))
    + Orthogonals(p, Position(0, p.col)) + Orthogonals(p, Position(9, p.col))
  }

  /** `get_canidates`: the targets worth trying, whatever else is on the board. */
  function Candidates(pc: Piece): seq<Position>
  {
    var p := pc.pos;
    match pc.pieceType
    case Advisor => [Position(p.row + 1, p.col + 1), Position(p.row + 1, p.col - 1),
                     Position(p.row - 1, p.col + 1), Position(p.row - 1, p.col - 1)]
    case Elephant => [Position(p.row + 2, p.col + 2), Position(p.row + 2, p.col - 2),
                      Position(p.row - 2, p.col + 2), Position(p.row - 2, p.col - 2)]
    case General => [p.PawnUp(pc.color), p.PawnDown(pc.color), p.NextRight(), p.NextLeft()]
    case Pawn => [p.PawnUp(pc.color), p.PawnDown(pc.color), p.NextRight(), p.NextLeft()]
    case Horse => [p.NextAbove().NextAbove().NextRight(), p.NextAbove().NextAbove().NextLeft(),
                   p.NextAbove().NextRight().NextRight(), p.NextAbove().NextLeft().NextLeft(),
                   p.NextBelow().NextBelow().NextRight(), p.NextBelow().NextBelow().NextLeft(),
                   p.NextBelow().NextRight().NextRight(), p.NextBelow().NextLeft().NextLeft()]
    case Cannon => Lines(p)
    case Rook => Lines(p)
  }

  /** How many targets a piece of each kind has. */
  function Reach(t: PieceType): nat
  {
    match t
    case Horse => 8
    case Cannon => 17
    case Rook => 17
    case _ => 4
  }

  lemma CandidateCount(pc: Piece)
    requires pc.pos.OnBoard()
    ensures |Candidates(pc)| == Reach(pc.pieceType)
  {
  }

  /** Candidates are complete: a square a piece of the board may move to is a candidate, except that
      for an elephant this holds exactly of the squares two diagonal steps away. */
  lemma CandidatesComplete(b: Points, i: nat, to: Position)
    requires WellPlaced(b) && i < POINTS && b[i].Some?
    requires PieceMay(b[i].value, to, b)
    ensures var pc := b[i].value;
      to in Candidates(pc) <==> pc.pieceType != Elephant || pc.pos.DiagonalDistance(to) == 2
  {
    hide Candidates, CannonMay, RookMay, GeneralMay, HorseMay, AdvisorMay, PawnMay, ElephantMay;
    var pc := b[i].value;
    assert to != pc.pos;
    match pc.pieceType
    case Rook => SliderComplete(pc, to, b);
    case Cannon => SliderComplete(pc, to, b);
    case Elephant => ElephantCandidates(pc, to, b);
    case Horse => HorseComplete(pc, to, b);
    case _ => StepComplete(pc, to, b);
  }

  lemma SliderComplete(pc: Piece, to: Position, b: Points)
    requires pc.pos.OnBoard() && PieceMay(pc, to, b) && to != pc.pos
    requires pc.pieceType == Rook || pc.pieceType == Cannon
    ensures to in Candidates(pc)
  {
    hide CountPieces, Orthogonals;
    LinesComplete(pc.pos, to);
  }

  lemma HorseComplete(pc: Piece, to: Position, b: Points)
    requires pc.pos.OnBoard() && PieceMay(pc, to, b) && pc.pieceType == Horse
    ensures to in Candidates(pc)
  {
    var p := pc.pos;
    var k := if to.row == p.row + 2 then (if to.col > p.col then 0 else 1)
             else if to.row == p.row + 1 then (if to.col > p.col then 2 else 3)
             else if to.row == p.row - 2 then (if to.col > p.col then 4 else 5)
             else (if to.col > p.col then 6 else 7);
    assert Candidates(pc)[k] == to;
  }

  lemma StepComplete(pc: Piece, to: Position, b: Points)
    requires pc.pos.OnBoard() && PieceMay(pc, to, b)
    requires pc.pieceType == General || pc.pieceType == Pawn || pc.pieceType == Advisor
    ensures to in Candidates(pc)
  {
    hide MeetsGeneral, Orthogonals;
    var p := pc.pos;
    if pc.pieceType == Advisor {
      var k := if to.row > p.row then (if to.col > p.col then 0 else 1) else (if to.col > p.col then 2 else 3);
      assert Candidates(pc)[k] == to;
    } else {
      var k := if to == p.PawnUp(pc.color) then 0 else if to == p.PawnDown(pc.color) then 1 else if to.col > p.col then 2 else 3;
      assert Candidates(pc)[k] == to;
    }
  }

  lemma LinesComplete(p: Position, to: Position)
    requires p.OnBoard() && to.OnBoard() && p.IsOrthogonalTo(to) && p != to
    ensures to in Lines(p)
  {
    var q := if to.row == p.row then (if to.col > p.col then Position(p.row, 8) else Position(p.row, 0))
             else if to.row < p.row then Position(0, p.col) else Position(9, p.col);
    OrthogonalsOnBoard(p, q);
    assert to in Orthogonals(p, q);
  }

  lemma ElephantCandidates(pc: Piece, to: Position, b: Points)
    requires pc.pos.OnBoard() && PieceMay(pc, to, b) && pc.pieceType == Elephant
    ensures to in Candidates(pc) <==> pc.pos.DiagonalDistance(to) == 2
  {
    hide CountPieces, Diagonals;
    if pc.pos.DiagonalDistance(to) == 2 {
      var k := if to.row > pc.pos.row then (if to.col > pc.pos.col then 0 else 1) else (if to.col > pc.pos.col then 2 else 3);
      assert Candidates(pc)[k] == to;
    }
  }

  /** Geometry first: no piece attacks a square that is not in line with it or a horse's move away,
      so the pre-filter of `is_threatened` drops nothing. */
  lemma InLine(pc: Piece, to: Position, b: Points)
    requires pc.pos.OnBoard() && PieceMay(pc, to, b)
    ensures pc.pos.IsOrthogonalTo(to) || pc.pos.IsDiagonalTo(to) || pc.pos.IsHorseMove(to)
  {
  }

  /** On the board a general stands on, it may never step back: looking along the file it meets
      itself first and takes itself for the other general. */
  lemma GeneralNeverRetreats(b: Points, i: nat)
    requires WellPlaced(b) && i < POINTS && b[i].Some? && b[i].value.pieceType == General
    ensures var pc := b[i].value; !PieceMay(pc, pc.pos.PawnDown(pc.color), b)
  {
    var pc := b[i].value;
    var to := pc.pos.PawnDown(pc.color);
    if to.OnBoard() {
      OrthogonalsOnBoard(to, FarEnd(to, pc.color));
      assert Orthogonals(to, FarEnd(to, pc.color))[0] == pc.pos;
    }
  }
}
