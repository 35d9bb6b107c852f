/** Whole games of xiangqi: material, the size of the move list, and safety of every run. */
module XiangqiSafety {
  import opened Wrappers
  import opened XiangqiPosition
  import opened XiangqiRules
  import opened XiangqiGame

  // ---------------------------------------------------------------- material

  function IsKind(x: Option<Piece>, t: PieceType, c: Color): nat
  {
    if x.Some? && x.value.pieceType == t && x.value.color == c then 1 else 0
  }

  /** Pieces of one kind and colour among the points of `s`. */
  function CountKind(s: seq<Option<Piece>>, t: PieceType, c: Color): nat
  {
    if s == [] then 0 else IsKind(s[0], t, c) + CountKind(s[1..], t, c)
  }

  lemma {:induction false} CountUpdate(s: seq<Option<Piece>>, i: nat, x: Option<Piece>, t: PieceType, c: Color)
    requires i < |s|
    ensures CountKind(s[i := x], t, c) == CountKind(s, t, c) - IsKind(s[i], t, c) + IsKind(x, t, c)
  {
    if i == 0 {
      assert s[i := x][1..] == s[1..];
    } else {
      CountUpdate(s[1..], i - 1, x, t, c);
      assert s[i := x][1..] == s[1..][i - 1 := x];
    }
  }

  /** No move adds a piece of any kind. */
  lemma MaterialNeverGrows(b: Points, from: Position, to: Position, t: PieceType, c: Color)
    requires from.OnBoard() && to.OnBoard() ==> GetPiece(b, from).Some?
    ensures CountKind(Moved(b, from, to), t, c) <= CountKind(b, t, c)
  {
    if from.OnBoard() && to.OnBoard() {
      var pc := GetPiece(b, from).value;
      var b1 := b[PosToIndex(to) := Some(pc.(pos := to))];
      CountUpdate(b, PosToIndex(to), Some(pc.(pos := to)), t, c);
      CountUpdate(b1, PosToIndex(from), None, t, c);
    }
  }

  function StartCount(t: PieceType): nat
  {
    match t
    case General => 1
    case Pawn => 5
    case _ => 2
  }

  /** No side has more pieces of a kind than at the start of a game. */
  ghost predicate MaterialOk(b: Points)
  {
    forall t, c :: CountKind(b, t, c) <= StartCount(t)
  }

  // ---------------------------------------------------------------- the move list

  function ReachOf(x: Option<Piece>, c: Color): nat
  {
    if x.Some? && x.value.color == c then Reach(x.value.pieceType) else 0
  }

  function TotalReach(s: seq<Option<Piece>>, c: Color): nat
  {
    if s == [] then 0 else ReachOf(s[0], c) + TotalReach(s[1..], c)
  }

  lemma {:induction false} ReachByKind(s: seq<Option<Piece>>, c: Color)
    ensures TotalReach(s, c)
         == 4 * (CountKind(s, General, c) + CountKind(s, Advisor, c) + CountKind(s, Elephant, c) + CountKind(s, Pawn, c))
          + 8 * CountKind(s, Horse, c) + 17 * (CountKind(s, Rook, c) + CountKind(s, Cannon, c))
  {
    if s != [] { ReachByKind(s[1..], c); }
  }

  /** With starting material a side has at most 124 candidate moves. */
  lemma AtMost124(b: Points, c: Color)
    requires MaterialOk(b)
    ensures TotalReach(b, c) <= 124
  {
    ReachByKind(b, c);
    assert forall t :: CountKind(b, t, c) <= StartCount(t);
    assert CountKind(b, General, c) <= 1 && CountKind(b, Pawn, c) <= 5 && CountKind(b, Advisor, c) <= 2
        && CountKind(b, Elephant, c) <= 2 && CountKind(b, Horse, c) <= 2 && CountKind(b, Rook, c) <= 2
        && CountKind(b, Cannon, c) <= 2;
  }

  lemma {:induction false} MovesWithinReach(b: Points, c: Color, i: nat)
    requires WellPlaced(b) && i <= POINTS
    ensures LegalFrom(b, c, i).Returned? ==> |LegalFrom(b, c, i).value| <= TotalReach(b[i..], c)
    decreases POINTS - i
  {
    hide Filtered, Candidates, LegalMove;
    if i < POINTS {
      MovesWithinReach(b, c, i + 1);
      assert b[i..][1..] == b[i + 1..];
      if b[i].Some? { CandidateCount(b[i].value); }
    }
  }

  // ---------------------------------------------------------------- nothing panics

  lemma GeneralFound(b: Points, c: Color)
    requires OneGeneral(b, c)
    ensures GeneralPos(b, c).Some?
  {
    hide PalaceSquares;
    var p :| GeneralAt(b, c, p);
    PalaceCovered(p, c);
    assert IsGeneral(b, PosToIndex(p), c);
    assert GeneralStands(b, p);
  }

  lemma LegalReturns(b: Points, from: Position, to: Position, c: Color)
    requires WellPlaced(b) && OneGeneral(b, c) && Indexable(from)
    ensures LegalMove(b, from, to, c).Returned?
  {
    hide PieceMay, GeneralPos, IsThreatened;
    if GetPiece(b, from).Some? {
      var pc := GetPiece(b, from).value;
      if PieceMay(pc, to, b) && pc.color == c {
        OwnGeneralKept(b, from, to, c);
        GeneralFound(Moved(b, from, to), c);
      }
    }
  }

  lemma {:induction false} FilteredReturns(b: Points, from: Position, c: Color, targets: seq<Position>)
    requires WellPlaced(b) && OneGeneral(b, c) && Indexable(from)
    ensures Filtered(b, from, c, targets).Returned?
  {
    hide LegalMove;
    if targets != [] {
      LegalReturns(b, from, targets[0], c);
      FilteredReturns(b, from, c, targets[1..]);
    }
  }

  lemma {:induction false} LegalFromReturns(b: Points, c: Color, i: nat)
    requires WellPlaced(b) && OneGeneral(b, c) && i <= POINTS
    ensures LegalFrom(b, c, i).Returned?
    decreases POINTS - i
  {
    hide LegalMove, Filtered;
    if i < POINTS {
      LegalFromReturns(b, c, i + 1);
      if b[i].Some? && b[i].value.color == c {
        FilteredReturns(b, b[i].value.pos, c, Candidates(b[i].value));
      }
    }
  }

  lemma MovesReturn(b: Points, c: Color)
    requires WellPlaced(b) && OneGeneral(b, c) && MaterialOk(b)
    ensures LegalMoves(b, c).Returned?
  {
    hide LegalFrom, MaterialOk;
    LegalFromReturns(b, c, 0);
    MovesWithinReach(b, c, 0);
    AtMost124(b, c);
    assert b[0..] == b;
  }

  /** On a safe board with no more than the starting material, `play_move` panics exactly when the
      move starts from a position outside the array: no general is ever missing and the move list
      never overflows. */
  lemma PlayPanicsOnlyOffArray(b: Board, m: Move)
    requires Safe(b) && MaterialOk(b.points)
    ensures PlayMove(b, m).Panicked? <==> m.MovePiece? && !Indexable(m.from)
  {
    hide PieceMay, LegalMoves, Moved, InCheck, OneGeneral, MaterialOk;
    if m.MovePiece? && Indexable(m.from) {
      LegalReturns(b.points, m.from, m.to, b.turn);
      if LegalMove(b.points, m.from, m.to, b.turn) == Returned(true) {
        AfterReturns(b, m.from, m.to);
      }
    }
  }

  lemma AfterReturns(b: Board, from: Position, to: Position)
    requires Safe(b) && MaterialOk(b.points) && LegalMove(b.points, from, to, b.turn) == Returned(true)
    ensures Indexable(from) && GetPiece(b.points, from).Some?
    ensures AfterMove(b.(points := Moved(b.points, from, to), turn := Opponent(b.turn))).Returned?
  {
    hide PieceMay, LegalMoves, LegalMove, Moved, OneGeneral, GeneralPos, IsThreatened;
    LegalHasPiece(b.points, from, to, b.turn);
    NoGeneralCaptured(b, from, to);
    EnemyGeneralKept(b.points, from, to, b.turn);
    var after := Moved(b.points, from, to);
    GeneralFound(after, Opponent(b.turn));
    forall t, c ensures CountKind(after, t, c) <= StartCount(t) {
      MaterialNeverGrows(b.points, from, to, t, c);
    }
    MovesReturn(after, Opponent(b.turn));
  }

  // ---------------------------------------------------------------- whole games

  /** `b'` is reached from `b` by moves that each let the game continue. */
  ghost predicate Plays(b: Board, moves: seq<Move>, b': Board)
    requires WellPlaced(b.points)
    decreases |moves|
  {
    if moves == [] then b' == b
    else
      var r := PlayMove(b, moves[0]);
      r.Returned? && r.value.Continuing? && WellPlaced(r.value.board.points) && Plays(r.value.board, moves[1..], b')
  }

  lemma StepMaterial(b: Board, m: Move)
    requires Safe(b) && MaterialOk(b.points)
    ensures var r := PlayMove(b, m); r.Returned? && r.value.Continuing? ==> MaterialOk(r.value.board.points)
  {
    hide PieceMay, LegalMoves, LegalMove, InCheck;
    if m.MovePiece? && LegalMove(b.points, m.from, m.to, b.turn) == Returned(true) {
      LegalHasPiece(b.points, m.from, m.to, b.turn);
      forall t, c ensures CountKind(Moved(b.points, m.from, m.to), t, c) <= StartCount(t) {
        MaterialNeverGrows(b.points, m.from, m.to, t, c);
      }
    }
  }

  /** Every board of every game stays safe: one general a side, at home, never captured, and the
      side that just moved out of check. */
  lemma {:induction false} GameSafe(b: Board, moves: seq<Move>, b': Board)
    requires Safe(b) && Plays(b, moves, b')
    ensures Safe(b')
    ensures MaterialOk(b.points) ==> MaterialOk(b'.points)
    decreases |moves|
  {
    hide PlayMove, Safe, MaterialOk;
    if moves != [] {
      SafePlaced(b);
      var next := PlayMove(b, moves[0]).value.board;
      StepSafe(b, moves[0]);
      if MaterialOk(b.points) { StepMaterial(b, moves[0]); }
      GameSafe(next, moves[1..], b');
    }
  }

  // ---------------------------------------------------------------- the starting position

  /** The pieces of the starting position, in the order they are set. */
  function StartPieces(): (ps: seq<Piece>)
    ensures |ps| == 32
  {
    [
      Piece(Rook, Position(0, 0), Red), Piece(Horse, Position(0, 1), Red), Piece(Elephant, Position(0, 2), Red),
      Piece(Advisor, Position(0, 3), Red), Piece(General, Position(0, 4), Red), Piece(Advisor, Position(0, 5), Red),
      Piece(Elephant, Position(0, 6), Red), Piece(Horse, Position(0, 7), Red), Piece(Rook, Position(0, 8), Red),
      Piece(Cannon, Position(2, 1), Red), Piece(Cannon, Position(2, 7), Red),
      Piece(Pawn, Position(3, 0), Red), Piece(Pawn, Position(3, 2), Red), Piece(Pawn, Position(3, 4), Red),
      Piece(Pawn, Position(3, 6), Red), Piece(Pawn, Position(3, 8), Red),
      Piece(Rook, Position(9, 0), Black), Piece(Horse, Position(9, 1), Black), Piece(Elephant, Position(9, 2), Black),
      Piece(Advisor, Position(9, 3), Black), Piece(General, Position(9, 4), Black), Piece(Advisor, Position(9, 5), Black),
      Piece(Elephant, Position(9, 6), Black), Piece(Horse, Position(9, 7), Black), Piece(Rook, Position(9, 8), Black),
      Piece(Cannon, Position(7, 1), Black), Piece(Cannon, Position(7, 7), Black),
      Piece(Pawn, Position(6, 0), Black), Piece(Pawn, Position(6, 2), Black), Piece(Pawn, Position(6, 4), Black),
      Piece(Pawn, Position(6, 6), Black), Piece(Pawn, Position(6, 8), Black)]
  }

  lemma StartFacts()
    ensures forall k :: 0 <= k < 32 ==> StartPieces()[k].pos.OnBoard()
    ensures forall k :: 0 <= k < 32 ==>
      (StartPieces()[k].pieceType == General <==> k == 4 || k == 20)
      && (StartPieces()[k].pos == Position(0, 4) <==> k == 4)
      && (StartPieces()[k].pos == Position(9, 4) <==> k == 20)
    ensures StartPieces()[4] == Piece(General, Position(0, 4), Red)
    ensures StartPieces()[20] == Piece(General, Position(9, 4), Black)
  {
  }

  /** An empty board on which the pieces of `ps` are set one after the other. */
  function Placed(ps: seq<Piece>): Points
    requires forall k :: 0 <= k < |ps| ==> ps[k].pos.OnBoard()
  {
    if ps == [] then seq(POINTS, _ => None)
    else
      var n := |ps| - 1;
      assert ps[n].pos.OnBoard();
      Placed(ps[..n])[PosToIndex(ps[n].pos) := Some(ps[n])]
  }

  function DefaultBoard(): Board
  {
    StartFacts();
    Board(Placed(StartPieces()), Red, 1)
  }

  lemma {:induction false} PlacedPieces(ps: seq<Piece>)
    requires forall k :: 0 <= k < |ps| ==> ps[k].pos.OnBoard()
    ensures WellPlaced(Placed(ps))
    ensures forall i :: 0 <= i < POINTS && Placed(ps)[i].Some? ==> Placed(ps)[i].value in ps
  {
    if ps != [] {
      PlacedPieces(ps[..|ps| - 1]);
    }
  }

  /** A piece is still there if nothing was set on its square later. */
  lemma {:induction false} PlacedStays(ps: seq<Piece>, k: nat)
    requires k < |ps| && forall j :: 0 <= j < |ps| ==> ps[j].pos.OnBoard()
    requires forall j :: 0 <= j < |ps| && ps[j].pos == ps[k].pos ==> j == k
    ensures Placed(ps)[PosToIndex(ps[k].pos)] == Some(ps[k])
  {
    var n := |ps| - 1;
    if k < n {
      PlacedStays(ps[..n], k);
      assert ps[n].pos != ps[k].pos;
    }
  }

  /** Pieces of one kind and colour among the first `n` of `ps`. */
  function CountFirst(ps: seq<Piece>, n: nat, t: PieceType, c: Color): nat
    requires n <= |ps|
    decreases n
  {
    if n == 0 then 0 else CountFirst(ps, n - 1, t, c) + IsKind(Some(ps[n - 1]), t, c)
  }

  lemma {:induction false} CountPlaced(ps: seq<Piece>, n: nat, t: PieceType, c: Color)
    requires n <= |ps| && forall k :: 0 <= k < |ps| ==> ps[k].pos.OnBoard()
    ensures CountKind(Placed(ps[..n]), t, c) <= CountFirst(ps, n, t, c)
  {
    if n == 0 {
      CountEmpty(POINTS, t, c);
    } else {
      CountPlaced(ps, n - 1, t, c);
      assert ps[..n][..n - 1] == ps[..n - 1];
      CountUpdate(Placed(ps[..n - 1]), PosToIndex(ps[n - 1].pos), Some(ps[n - 1]), t, c);
    }
  }

  lemma {:induction false} CountEmpty(n: nat, t: PieceType, c: Color)
    ensures CountKind(seq(n, _ => None), t, c) == 0
  {
    if n > 0 {
      CountEmpty(n - 1, t, c);
      assert seq<Option<Piece>>(n, _ => None)[1..] == seq<Option<Piece>>(n - 1, _ => None);
    }
  }

  lemma DefaultSafe()
    ensures Safe(DefaultBoard()) && MaterialOk(DefaultBoard().points)
  {
    hide Placed, PieceMay, GeneralPos, StartPieces;
    StartFacts();
    var b := Placed(StartPieces());
    PlacedPieces(StartPieces());
    StartGeneral(Red);
    StartGeneral(Black);
    GeneralPosFinds(b, Black, Position(9, 4), Position(0, 4));
    forall i | 0 <= i < POINTS ensures !Threatens(b, i, Position(9, 4), Black) {
      if b[i].Some? && b[i].value.color == Red { StartQuiet(b[i].value, b); }
    }
    forall t, c ensures CountKind(b, t, c) <= StartCount(t) {
      CountPlaced(StartPieces(), 32, t, c);
      assert StartPieces()[..32] == StartPieces();
      StartMaterial(t, c);
    }
  }

  lemma StartGeneral(c: Color)
    ensures StartPieces()[4].pos.OnBoard() && forall k :: 0 <= k < 32 ==> StartPieces()[k].pos.OnBoard()
    ensures GeneralAt(Placed(StartPieces()), c, if c == Red then Position(0, 4) else Position(9, 4))
  {
    hide Placed, StartPieces;
    StartFacts();
    var k := if c == Red then 4 else 20;
    var b := Placed(StartPieces());
    PlacedPieces(StartPieces());
    PlacedStays(StartPieces(), k);
    forall i | 0 <= i < POINTS ensures IsGeneral(b, i, c) <==> i == PosToIndex(StartPieces()[k].pos) {
      if IsGeneral(b, i, c) {
        var j :| 0 <= j < 32 && StartPieces()[j] == b[i].value;
      }
    }
  }

  /** At the start no red piece can reach the black general. */
  lemma StartQuiet(pc: Piece, b: Points)
    requires pc in StartPieces() && pc.color == Red
    ensures pc.pos.OnBoard() && !PieceMay(pc, Position(9, 4), b)
  {
    hide CountPieces, Orthogonals, Diagonals, MeetsGeneral;
  }

  lemma StartMaterial(t: PieceType, c: Color)
    ensures CountFirst(StartPieces(), 32, t, c) == StartCount(t)
  {
    hide StartPieces, CountFirst;
    CountNone(StartPieces(), t, c);
    StartHalf(0, Red, t, c);
    StartHalf(16, Black, t, c);
  }

  lemma StartHalf(n: nat, side: Color, t: PieceType, c: Color)
    requires (n == 0 && side == Red) || (n == 16 && side == Black)
    ensures CountFirst(StartPieces(), n + 16, t, c)
         == CountFirst(StartPieces(), n, t, c) + if c == side then StartCount(t) else 0
  {
    hide CountFirst, StartPieces;
    var ps := StartPieces();
    CountFour(ps, n, t, c);
    CountFour(ps, n + 4, t, c);
    CountFour(ps, n + 8, t, c);
    CountFour(ps, n + 12, t, c);
    StartHalfPieces(n, side);
  }

  lemma StartHalfPieces(n: nat, side: Color)
    requires (n == 0 && side == Red) || (n == 16 && side == Black)
    ensures var ps := StartPieces();
      && (forall k :: n <= k < n + 16 ==> ps[k].color == side)
      && ps[n].pieceType == ps[n + 8].pieceType == Rook
      && ps[n + 1].pieceType == ps[n + 7].pieceType == Horse
      && ps[n + 2].pieceType == ps[n + 6].pieceType == Elephant
      && ps[n + 3].pieceType == ps[n + 5].pieceType == Advisor
      && ps[n + 4].pieceType == General
      && ps[n + 9].pieceType == ps[n + 10].pieceType == Cannon
      && (forall k :: n + 11 <= k < n + 16 ==> ps[k].pieceType == Pawn)
  {
  }

  lemma CountNone(ps: seq<Piece>, t: PieceType, c: Color)
    ensures CountFirst(ps, 0, t, c) == 0
  {
  }

  lemma CountFour(ps: seq<Piece>, n: nat, t: PieceType, c: Color)
    requires n + 4 <= |ps|
    ensures CountFirst(ps, n + 4, t, c) == CountFirst(ps, n, t, c)
      + IsKind(Some(ps[n]), t, c) + IsKind(Some(ps[n + 1]), t, c) + IsKind(Some(ps[n + 2]), t, c) + IsKind(Some(ps[n + 3]), t, c)
  {
    assert CountFirst(ps, n + 2, t, c) == CountFirst(ps, n, t, c) + IsKind(Some(ps[n]), t, c) + IsKind(Some(ps[n + 1]), t, c);
  }

  // ---------------------------------------------------------------- the elephant

  /** An elephant is not held to two steps: on an otherwise empty board the red elephant of the
      second file may cross four diagonal squares at once, a move its candidates do not list. */
  lemma ElephantOverreach()
    ensures var pc := Piece(Elephant, Position(0, 2), Red);
            var b: Points := seq(POINTS, i => if i == 2 then Some(pc) else None);
      WellPlaced(b) && PieceMay(pc, Position(4, 6), b) && Position(4, 6) !in Candidates(pc)
  {
    var pc := Piece(Elephant, Position(0, 2), Red);
    var b: Points := seq(POINTS, i => if i == 2 then Some(pc) else None);
    var to := Position(4, 6);
    DiagonalsAlongFile(pc.pos, to);
    var squares := Between(Diagonals(pc.pos, to));
    assert forall k :: 0 <= k < |squares| ==> squares[k] == Position(k + 1, 2);
    assert forall k :: 0 <= k < |squares| ==> !HasPiece(b, squares[k]);
  }

  // ---------------------------------------------------------------- where the pieces stand at the start

  /** The kind of piece on each square of red's half, row 0 being red's back row. */
  function HomeKind(row: int, col: int): Option<PieceType>
  {
    var d := Abs(col - 4);
    if row == 0 then Some(if d == 0 then General else if d == 1 then Advisor else if d == 2 then Elephant else if d == 3 then Horse else Rook)
    else if row == 2 && d == 3 then Some(Cannon)
    else if row == 3 && d % 2 == 0 then Some(Pawn)
    else None
  }

  /** The starting piece of a square; black's half mirrors red's. */
  function HomePiece(p: Position): Option<Piece>
  {
    var kind := HomeKind(if p.row <= 4 then p.row else 9 - p.row, p.col);
    if kind.None? then None else Some(Piece(kind.value, p, if p.row <= 4 then Red else Black))
  }

  lemma StartAtHome(k: nat)
    requires k < 32
    ensures var pc := StartPieces()[k]; pc.pos.OnBoard() && HomePiece(pc.pos) == Some(pc)
  {
  }

  /** The place of the piece of a square among the pieces set. */
  function StartIndex(p: Position): int
  {
    var half, row := if p.row <= 4 then 0 else 16, if p.row <= 4 then p.row else 9 - p.row;
    half + if row == 0 then p.col else if row == 2 then (if p.col == 1 then 9 else 10) else 11 + p.col / 2
  }

  lemma HomeIsSet(p: Position)
    requires p.OnBoard() && HomePiece(p).Some?
    ensures 0 <= StartIndex(p) < 32 && StartPieces()[StartIndex(p)].pos == p
  {
  }

  /** The starting position, square by square. */
  lemma StartLayout(p: Position)
    requires p.OnBoard()
    ensures GetPiece(DefaultBoard().points, p) == HomePiece(p)
    ensures DefaultBoard().turn == Red && DefaultBoard().fullMove == 1
  {
    hide Placed, StartPieces, HomePiece;
    StartFacts();
    var ps := StartPieces();
    PlacedPieces(ps);
    var b := Placed(ps);
    forall k | 0 <= k < 32 ensures HomePiece(ps[k].pos) == Some(ps[k]) { StartAtHome(k); }
    if b[PosToIndex(p)].Some? {
      var pc := b[PosToIndex(p)].value;
      SamePlace(pc.pos, p);
      var j :| 0 <= j < 32 && ps[j] == pc;
    }
    if HomePiece(p).Some? {
      HomeIsSet(p);
      var k := StartIndex(p);
      forall j | 0 <= j < 32 && ps[j].pos == p ensures j == k { OncePlaced(j, k); }
      PlacedStays(ps, k);
    }
  }

  lemma OncePlaced(j: nat, k: nat)
    requires j < 32 && k < 32 && StartPieces()[j].pos == StartPieces()[k].pos
    ensures j == k
  {
    SetOnce(j);
    SetOnce(k);
  }

  lemma SetOnce(k: nat)
    requires k < 32
    ensures StartIndex(StartPieces()[k].pos) == k
  {
  }

  lemma SamePlace(p: Position, q: Position)
    requires p.OnBoard() && q.OnBoard() && PosToIndex(p) == PosToIndex(q)
    ensures p == q
  {
  }
}
