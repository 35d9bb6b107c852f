/** Playing xiangqi: check, legal moves, and the game from move to move. */
module XiangqiGame {
  import opened Wrappers
  import opened XiangqiPosition
  import opened XiangqiRules

  datatype Move = MovePiece(from: Position, to: Position) | Resign

  datatype GameResult = Continuing(board: Board) | Victory(winner: Color) | IllegalMove(move: Move)

  const MAX_MOVES := 200

  // ---------------------------------------------------------------- moving

  /** `move_piece`: nothing happens if a square is off the board. */
  function Moved(b: Points, from: Position, to: Position): (b': Points)
    requires from.OnBoard() && to.OnBoard() ==> GetPiece(b, from).Some?
    ensures WellPlaced(b) ==> WellPlaced(b')
  {
    if !from.OnBoard() || !to.OnBoard() then b
    else
      var pc := GetPiece(b, from).value;
      b[PosToIndex(to) := Some(pc.(pos := to))][PosToIndex(from) := None]
  }

  // ---------------------------------------------------------------- check

  ghost predicate Threatens(b: Points, i: nat, p: Position, ally: Color)
    requires WellPlaced(b) && i < POINTS
  {
    b[i].Some? && b[i].value.color != ally && PieceMay(b[i].value, p, b)
  }

  /** Some piece of the other colour may move to `p`. */
  ghost predicate IsThreatened(b: Points, p: Position, ally: Color)
    requires WellPlaced(b)
  {
    exists i :: 0 <= i < POINTS && Threatens(b, i, p, ally)
  }

  /** `is_threatened`, which skips pieces that are not in line before asking the rules: the skipped
      ones threaten nothing. */
  method CheckThreatened(b: Points, p: Position, ally: Color) returns (r: bool)
    requires WellPlaced(b)
    ensures r == IsThreatened(b, p, ally)
  {
    hide PieceMay;
    var i := 0;
    while i < POINTS
      invariant 0 <= i <= POINTS
      invariant forall k :: 0 <= k < i ==> !Threatens(b, k, p, ally)
    {
      if b[i].Some? {
        var pc := b[i].value;
        if (pc.pos.IsOrthogonalTo(p) || pc.pos.IsDiagonalTo(p) || pc.pos.IsHorseMove(p)) && pc.color != ally {
          var legal := IsLegalMove(pc, p, b);
          if legal {
            assert Threatens(b, i, p, ally);
            return true;
          }
        } else if PieceMay(pc, p, b) {
          InLine(pc, p, b);
        }
      }
      i := i + 1;
    }
    return false;
  }

  function PalaceSquares(c: Color): (ps: seq<Position>)
    ensures |ps| == 9 && forall k :: 0 <= k < 9 ==> ps[k].OnBoard() && ps[k].IsInPalace(c)
  {
    var r := if c == Red then 0 else 7;
    [Position(r, 3), Position(r + 1, 3), Position(r + 2, 3),
     Position(r, 4), Position(r + 1, 4), Position(r + 2, 4),
     Position(r, 5), Position(r + 1, 5), Position(r + 2, 5)]
  }

  lemma PalaceCovered(p: Position, c: Color)
    requires p.OnBoard() && p.IsInPalace(c)
    ensures p in PalaceSquares(c)
  {
    var r := if c == Red then 0 else 7;
    assert p == PalaceSquares(c)[3 * (p.col - 3) + (p.row - r)];
  }

  predicate GeneralStands(b: Points, p: Position)
    requires p.OnBoard()
  {
    GetPiece(b, p).Some? && GetPiece(b, p).value.pieceType == General
  }

  function FirstGeneral(b: Points, ps: seq<Position>): (r: Option<Position>)
    requires AllOnBoard(ps)
    ensures match r
      case Some(p) => p in ps && p.OnBoard() && GeneralStands(b, p)
      case None => forall k :: 0 <= k < |ps| ==> !GeneralStands(b, ps[k])
  {
    if ps == [] then None
    else if GeneralStands(b, ps[0]) then Some(ps[0])
    else FirstGeneral(b, ps[1..])
  }

  /** `get_general_pos`: the first general, of either colour, in the palace; panics without one. */
  function GeneralPos(b: Points, c: Color): (r: Option<Position>)
    ensures r.Some? ==> r.value.OnBoard() && r.value.IsInPalace(c) && GeneralStands(b, r.value)
  {
    FirstGeneral(b, PalaceSquares(c))
  }

  method GetGeneralPos(b: Points, c: Color) returns (r: Option<Position>)
    ensures r == GeneralPos(b, c)
  {
    var ps := PalaceSquares(c);
    var k := 0;
    while k < |ps|
      invariant 0 <= k <= |ps|
      invariant FirstGeneral(b, ps) == FirstGeneral(b, ps[k..])
    {
      if GeneralStands(b, ps[k]) {
        return Some(ps[k]);
      }
      k := k + 1;
    }
    return None;
  }

  ghost function InCheck(b: Points, c: Color): Outcome<bool>
    requires WellPlaced(b)
  {
    match GeneralPos(b, c)
    case None => Panicked
    case Some(p) => Returned(IsThreatened(b, p, c))
  }

  method IsInCheck(b: Points, c: Color) returns (r: Outcome<bool>)
    requires WellPlaced(b)
    ensures r == InCheck(b, c)
  {
    var p := GetGeneralPos(b, c);
    if p.None? {
      return Panicked;
    }
    var t := CheckThreatened(b, p.value, c);
    return Returned(t);
  }

  // ---------------------------------------------------------------- legal moves

  /** `Board::is_legal_move` for a move of a piece. */
  ghost function LegalMove(b: Points, from: Position, to: Position, c: Color): Outcome<bool>
    requires WellPlaced(b)
  {
    if !Indexable(from) then Panicked
    else match GetPiece(b, from)
      case None => Returned(false)
      case Some(pc) =>
        if !PieceMay(pc, to, b) || pc.color != c then Returned(false)
        else match InCheck(Moved(b, from, to), c)
          case Panicked => Panicked
          case Returned(check) => Returned(!check)
  }

  method CheckLegalMove(b: Points, from: Position, to: Position, c: Color) returns (r: Outcome<bool>)
    requires WellPlaced(b)
    ensures r == LegalMove(b, from, to, c)
  {
    hide PieceMay;
    if !Indexable(from) {
      return Panicked;
    }
    var pc? := GetPiece(b, from);
    if pc?.None? {
      return Returned(false);
    }
    var may := IsLegalMove(pc?.value, to, b);
    if !may || pc?.value.color != c {
      return Returned(false);
    }
    var check := IsInCheck(Moved(b, from, to), c);
    r := if check.Panicked? then Panicked else Returned(!check.value);
  }

  /** The legal ones among the moves from `from` to `targets`. */
  ghost function Filtered(b: Points, from: Position, c: Color, targets: seq<Position>): (r: Outcome<seq<Move>>)
    requires WellPlaced(b)
    ensures r.Returned? ==> |r.value| <= |targets|
  {
    if targets == [] then Returned([])
    else match LegalMove(b, from, targets[0], c)
      case Panicked => Panicked
      case Returned(ok) =>
        match Filtered(b, from, c, targets[1..])
        case Panicked => Panicked
        case Returned(rest) => Returned(if ok then [MovePiece(from, targets[0])] + rest else rest)
  }

  /** The legal moves of the pieces of colour `c` on points `i` and later. */
  ghost function LegalFrom(b: Points, c: Color, i: nat): Outcome<seq<Move>>
    requires WellPlaced(b) && i <= POINTS
    decreases POINTS - i
  {
    if i == POINTS then Returned([])
    else if b[i].None? || b[i].value.color != c then LegalFrom(b, c, i + 1)
    else
      match Filtered(b, b[i].value.pos, c, Candidates(b[i].value))
      case Panicked => Panicked
      case Returned(here) =>
        match LegalFrom(b, c, i + 1)
        case Panicked => Panicked
        case Returned(rest) => Returned(here + rest)
  }

  /** `get_legal_moves`: a list of at most 200 moves. */
  ghost function LegalMoves(b: Points, c: Color): Outcome<seq<Move>>
    requires WellPlaced(b)
  {
    match LegalFrom(b, c, 0)
    case Panicked => Panicked
    case Returned(ms) => if |ms| > MAX_MOVES then Panicked else Returned(ms)
  }

  method FilterMoves(b: Points, from: Position, c: Color, targets: seq<Position>) returns (r: Outcome<seq<Move>>)
    requires WellPlaced(b)
    ensures r == Filtered(b, from, c, targets)
  {
    hide LegalMove;
    var kept := [];
    var k := 0;
    assert targets[0..] == targets;
    JoinNothing(Filtered(b, from, c, targets));
    while k < |targets|
      invariant 0 <= k <= |targets|
      invariant Filtered(b, from, c, targets) == Joined(kept, Filtered(b, from, c, targets[k..]))
    {
      var ok := CheckLegalMove(b, from, targets[k], c);
      if ok.Panicked? {
        return Panicked;
      }
      assert targets[k..][1..] == targets[k + 1..];
      if ok.value {
        JoinTwice(kept, [MovePiece(from, targets[k])], Filtered(b, from, c, targets[k + 1..]));
        kept := kept + [MovePiece(from, targets[k])];
      }
      k := k + 1;
    }
    assert kept + [] == kept;
    r := Returned(kept);
  }

  ghost function Joined(front: seq<Move>, rest: Outcome<seq<Move>>): Outcome<seq<Move>>
  {
    if rest.Panicked? then Panicked else Returned(front + rest.value)
  }

  lemma JoinNothing(r: Outcome<seq<Move>>)
    ensures Joined([], r) == r
  {
    assert r.Returned? ==> [] + r.value == r.value;
  }

  lemma JoinTwice(a: seq<Move>, b: seq<Move>, r: Outcome<seq<Move>>)
    ensures Joined(a + b, r) == Joined(a, Joined(b, r))
  {
    assert r.Returned? ==> (a + b) + r.value == a + (b + r.value);
  }

  method GetLegalMoves(b: Points, c: Color) returns (r: Outcome<seq<Move>>)
    requires WellPlaced(b)
    ensures r == LegalMoves(b, c)
  {
    hide LegalMove, Candidates, Filtered;
    var moves := [];
    var i := 0;
    JoinNothing(LegalFrom(b, c, 0));
    while i < POINTS
      invariant 0 <= i <= POINTS && |moves| <= MAX_MOVES
      invariant LegalFrom(b, c, 0) == Joined(moves, LegalFrom(b, c, i))
    {
      if b[i].Some? && b[i].value.color == c {
        var here := FilterMoves(b, b[i].value.pos, c, Candidates(b[i].value));
        if here.Panicked? || |moves| + |here.value| > MAX_MOVES {
          return Panicked;
        }
        JoinTwice(moves, here.value, LegalFrom(b, c, i + 1));
        moves := moves + here.value;
      }
      i := i + 1;
    }
    assert moves + [] == moves;
    r := Returned(moves);
  }

  // ---------------------------------------------------------------- playing

  /** `play_move` */
  ghost function PlayMove(b: Board, m: Move): Outcome<GameResult>
    requires WellPlaced(b.points)
  {
    match m
    case Resign => Returned(Victory(Opponent(b.turn)))
    case MovePiece(from, to) =>
      match LegalMove(b.points, from, to, b.turn)
      case Panicked => Panicked
      case Returned(false) => Returned(IllegalMove(m))
      case Returned(true) => AfterMove(b.(points := Moved(b.points, from, to), turn := Opponent(b.turn)))
  }

  /** The verdict on the board after a legal move, the other side to move. */
  ghost function AfterMove(next: Board): Outcome<GameResult>
    requires WellPlaced(next.points)
  {
    match InCheck(next.points, next.turn)
    case Panicked => Panicked
    case Returned(check) =>
      match LegalMoves(next.points, next.turn)
      case Panicked => Panicked
      case Returned(ms) =>
        if ms != [] then Returned(Continuing(next))
        else if check then Returned(Victory(Opponent(next.turn)))
        else Returned(Victory(next.turn))
  }

  method DoPlayMove(b: Board, m: Move) returns (r: Outcome<GameResult>)
    requires WellPlaced(b.points)
    ensures r == PlayMove(b, m)
  {
    hide LegalMove, LegalMoves, InCheck, Moved;
    if m.Resign? {
      return Returned(Victory(Opponent(b.turn)));
    }
    var legal := CheckLegalMove(b.points, m.from, m.to, b.turn);
    if legal.Panicked? {
      return Panicked;
    }
    if !legal.value {
      return Returned(IllegalMove(m));
    }
    LegalHasPiece(b.points, m.from, m.to, b.turn);
    var next := b.(points := Moved(b.points, m.from, m.to), turn := Opponent(b.turn));
    var check := IsInCheck(next.points, next.turn);
    if check.Panicked? {
      return Panicked;
    }
    var moves := GetLegalMoves(next.points, next.turn);
    if moves.Panicked? {
      return Panicked;
    }
    if check.value && moves.value == [] {
      return Returned(Victory(b.turn));
    } else if moves.value == [] && !check.value {
      return Returned(Victory(Opponent(b.turn)));
    }
    return Returned(Continuing(next));
  }

  lemma LegalHasPiece(b: Points, from: Position, to: Position, c: Color)
    requires WellPlaced(b) && LegalMove(b, from, to, c) == Returned(true)
    ensures Indexable(from) && GetPiece(b, from).Some? && to.OnBoard()
    ensures GetPiece(b, from).value.color == c && PieceMay(GetPiece(b, from).value, to, b)
    ensures InCheck(Moved(b, from, to), c) == Returned(false)
  {
    hide CannonMay, RookMay, HorseMay, AdvisorMay, PawnMay, ElephantMay, GeneralMay, InCheck;
  }

  // ---------------------------------------------------------------- safety

  predicate IsGeneral(b: Points, i: nat, c: Color)
    requires i < POINTS
  {
    b[i].Some? && b[i].value.pieceType == General && b[i].value.color == c
  }

  /** The only general of colour `c` stands on `p`, in its palace. */
  ghost predicate GeneralAt(b: Points, c: Color, p: Position)
  {
    && p.OnBoard() && p.IsInPalace(c)
    && forall i :: 0 <= i < POINTS ==> (IsGeneral(b, i, c) <==> i == PosToIndex(p))
  }

  ghost predicate OneGeneral(b: Points, c: Color)
  {
    exists p :: GeneralAt(b, c, p)
  }

  /** One general a side, each in its palace, and the side that just moved not in check. */
  ghost predicate Safe(b: Board)
  {
    && WellPlaced(b.points)
    && OneGeneral(b.points, Red) && OneGeneral(b.points, Black)
    && InCheck(b.points, Opponent(b.turn)) == Returned(false)
  }

  lemma GeneralPosFinds(b: Points, c: Color, p: Position, q: Position)
    requires GeneralAt(b, c, p) && GeneralAt(b, Opponent(c), q)
    ensures GeneralPos(b, c) == Some(p)
  {
    hide FirstGeneral, PalaceSquares;
    PalaceCovered(p, c);
    assert IsGeneral(b, PosToIndex(p), c);
    assert GeneralStands(b, p);
    var r := GeneralPos(b, c).value;
    assert IsGeneral(b, PosToIndex(r), c) || IsGeneral(b, PosToIndex(r), Opponent(c));
  }

  /** No accepted move captures a general: the side to move would already have been giving check. */
  lemma NoGeneralCaptured(b: Board, from: Position, to: Position)
    requires Safe(b) && LegalMove(b.points, from, to, b.turn) == Returned(true)
    ensures to.OnBoard() && !GeneralStands(b.points, to)
  {
    hide PieceMay, LegalMove, Safe;
    assert WellPlaced(b.points) by { SafePlaced(b); }
    LegalHasPiece(b.points, from, to, b.turn);
    NoGeneralInReach(b, from, to);
  }

  lemma SafePlaced(b: Board)
    requires Safe(b)
    ensures WellPlaced(b.points)
  {
  }

  lemma NoGeneralInReach(b: Board, from: Position, to: Position)
    requires Safe(b) && Indexable(from) && GetPiece(b.points, from).Some?
    requires GetPiece(b.points, from).value.color == b.turn && PieceMay(GetPiece(b.points, from).value, to, b.points)
    ensures to.OnBoard() && !GeneralStands(b.points, to)
  {
    hide PieceMay, GeneralPos, InCheck, GeneralAt, HasAllyPiece;
    var enemy := Opponent(b.turn);
    MayTarget(GetPiece(b.points, from).value, to, b.points);
    var p :| GeneralAt(b.points, enemy, p);
    var q :| GeneralAt(b.points, b.turn, q);
    GeneralPosFinds(b.points, enemy, p, q);
    NotThreatening(b.points, enemy, p, PosToIndex(from));
    if GeneralStands(b.points, to) {
      EnemyGeneral(b.points, enemy, p, to);
      assert false;
    }
  }

  lemma NotThreatening(b: Points, c: Color, p: Position, i: nat)
    requires WellPlaced(b) && InCheck(b, c) == Returned(false) && GeneralPos(b, c) == Some(p) && i < POINTS
    ensures !Threatens(b, i, p, c)
  {
    hide Threatens;
  }

  lemma EnemyGeneral(b: Points, c: Color, p: Position, to: Position)
    requires GeneralAt(b, c, p) && to.OnBoard() && GeneralStands(b, to) && !HasAllyPiece(b, to, Opponent(c))
    ensures to == p
  {
    assert IsGeneral(b, PosToIndex(to), c);
  }

  /** A move ends on the board, captures no own piece, and keeps a general in its palace. */
  lemma MayTarget(pc: Piece, to: Position, b: Points)
    requires pc.pos.OnBoard() && PieceMay(pc, to, b)
    ensures to.OnBoard() && !HasAllyPiece(b, to, pc.color)
    ensures pc.pieceType == General ==> to.IsInPalace(pc.color)
  {
    hide CannonMay, RookMay, HorseMay, AdvisorMay, PawnMay, ElephantMay;
  }

  /** A move by a side keeps that side's general at home. */
  lemma OwnGeneralKept(b: Points, from: Position, to: Position, c: Color)
    requires WellPlaced(b) && OneGeneral(b, c) && Indexable(from) && GetPiece(b, from).Some?
    requires GetPiece(b, from).value.color == c && PieceMay(GetPiece(b, from).value, to, b)
    ensures to.OnBoard() && OneGeneral(Moved(b, from, to), c)
  {
    hide PieceMay;
    var pc := GetPiece(b, from).value;
    MayTarget(pc, to, b);
    var p :| GeneralAt(b, c, p);
    assert IsGeneral(b, PosToIndex(p), c);
    if from.OnBoard() {
      var p' := if p == from then to else p;
      assert IsGeneral(b, PosToIndex(from), c) <==> p == from;
      forall i | 0 <= i < POINTS ensures IsGeneral(Moved(b, from, to), i, c) <==> i == PosToIndex(p') {
        assert IsGeneral(b, i, c) <==> i == PosToIndex(p);
      }
      assert GeneralAt(Moved(b, from, to), c, p');
    }
  }

  lemma EnemyGeneralKept(b: Points, from: Position, to: Position, c: Color)
    requires OneGeneral(b, Opponent(c)) && Indexable(from) && GetPiece(b, from).Some? && to.OnBoard()
    requires GetPiece(b, from).value.color == c && !GeneralStands(b, to)
    ensures OneGeneral(Moved(b, from, to), Opponent(c))
  {
    var p :| GeneralAt(b, Opponent(c), p);
    assert IsGeneral(b, PosToIndex(p), Opponent(c));
    forall i | 0 <= i < POINTS ensures IsGeneral(Moved(b, from, to), i, Opponent(c)) <==> i == PosToIndex(p) {
      assert IsGeneral(b, i, Opponent(c)) <==> i == PosToIndex(p);
    }
    assert GeneralAt(Moved(b, from, to), Opponent(c), p);
  }

  /** One step of the game keeps it safe. */
  lemma StepSafe(b: Board, m: Move)
    requires Safe(b)
    ensures var r := PlayMove(b, m); r.Returned? && r.value.Continuing? ==> Safe(r.value.board)
  {
    hide PieceMay, LegalMoves, LegalMove, Moved, InCheck, OneGeneral;
    if m.MovePiece? && LegalMove(b.points, m.from, m.to, b.turn) == Returned(true) {
      LegalHasPiece(b.points, m.from, m.to, b.turn);
      NoGeneralCaptured(b, m.from, m.to);
      OwnGeneralKept(b.points, m.from, m.to, b.turn);
      EnemyGeneralKept(b.points, m.from, m.to, b.turn);
    }
  }
}
