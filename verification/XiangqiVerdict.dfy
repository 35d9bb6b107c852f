/** What the list of legal moves holds, and when the verdict drawn from an empty list is wrong. */
module XiangqiVerdict {
  import opened Wrappers
  import opened XiangqiPosition
  import opened XiangqiRules
  import opened XiangqiGame
  import opened XiangqiSafety

  lemma {:induction false} FilteredExact(b: Points, from: Position, c: Color, targets: seq<Position>, m: Move)
    requires WellPlaced(b) && Filtered(b, from, c, targets).Returned?
    ensures m in Filtered(b, from, c, targets).value <==>
      m.MovePiece? && m.from == from && m.to in targets && LegalMove(b, from, m.to, c) == Returned(true)
  {
    hide LegalMove;
    if targets != [] {
      FilteredExact(b, from, c, targets[1..], m);
      assert m.MovePiece? ==> (m.to in targets <==> m.to == targets[0] || m.to in targets[1..]);
    }
  }

  /** The move is a legal one to a candidate square of the piece on the point `k`. */
  ghost predicate Listed(b: Points, c: Color, k: int, m: Move)
    requires WellPlaced(b)
  {
    && m.MovePiece? && 0 <= k < POINTS && b[k].Some? && b[k].value.color == c && m.from == b[k].value.pos
    && m.to in Candidates(b[k].value) && LegalMove(b, m.from, m.to, c) == Returned(true)
  }

  lemma {:induction false} LegalFromExact(b: Points, c: Color, i: nat, m: Move)
    requires WellPlaced(b) && i <= POINTS && LegalFrom(b, c, i).Returned?
    ensures m in LegalFrom(b, c, i).value <==> exists k :: i <= k < POINTS && Listed(b, c, k, m)
    decreases POINTS - i
  {
    hide LegalMove, Candidates, Filtered;
    if i < POINTS {
      LegalFromExact(b, c, i + 1, m);
      if b[i].Some? && b[i].value.color == c {
        FilteredExact(b, b[i].value.pos, c, Candidates(b[i].value), m);
        assert Listed(b, c, i, m) <==> m in Filtered(b, b[i].value.pos, c, Candidates(b[i].value)).value;
      } else {
        assert !Listed(b, c, i, m);
      }
    }
  }

  /** The list holds a move exactly when it is accepted, starts on the board, and goes to a candidate
      square of its piece. */
  lemma ListExact(b: Points, c: Color, from: Position, to: Position)
    requires WellPlaced(b) && LegalMoves(b, c).Returned?
    ensures MovePiece(from, to) in LegalMoves(b, c).value <==>
      from.OnBoard() && LegalMove(b, from, to, c) == Returned(true) && to in Candidates(GetPiece(b, from).value)
  {
    hide LegalMove, Candidates, LegalFrom;
    var m := MovePiece(from, to);
    LegalFromExact(b, c, 0, m);
    if from.OnBoard() && LegalMove(b, from, to, c) == Returned(true) {
      LegalHasPiece(b, from, to, c);
      var k := PosToIndex(from);
      SamePlace(b[k].value.pos, from);
      assert to in Candidates(b[k].value) ==> Listed(b, c, k, m);
    }
    forall k | 0 <= k < POINTS && Listed(b, c, k, m) ensures from.OnBoard() && PosToIndex(from) == k {
    }
  }

  /** Accepted, and made by an elephant over more than two diagonal squares. */
  ghost predicate LongElephant(b: Points, c: Color, from: Position, to: Position)
    requires WellPlaced(b)
  {
    && from.OnBoard() && LegalMove(b, from, to, c) == Returned(true)
    && GetPiece(b, from).Some? && GetPiece(b, from).value.pieceType == Elephant && from.DiagonalDistance(to) > 2
  }

  /** The moves the list misses are exactly the long elephant moves. */
  lemma MissedExact(b: Points, c: Color, from: Position, to: Position)
    requires WellPlaced(b) && LegalMoves(b, c).Returned? && from.OnBoard() && LegalMove(b, from, to, c) == Returned(true)
    ensures MovePiece(from, to) !in LegalMoves(b, c).value <==> LongElephant(b, c, from, to)
  {
    hide LegalMove, Candidates, LegalMoves, PieceMay;
    ListExact(b, c, from, to);
    LegalHasPiece(b, from, to, c);
    var k := PosToIndex(from);
    SamePlace(b[k].value.pos, from);
    CandidatesComplete(b, k, to);
    if b[k].value.pieceType == Elephant { ElephantGoesFar(b[k].value, to, b); }
  }

  lemma ElephantGoesFar(pc: Piece, to: Position, b: Points)
    requires pc.pos.OnBoard() && pc.pieceType == Elephant && PieceMay(pc, to, b)
    ensures pc.pos.DiagonalDistance(to) >= 2
  {
    hide CountPieces, Diagonals;
  }

  ghost predicate HasMove(b: Points, c: Color)
    requires WellPlaced(b)
  {
    exists from: Position, to: Position :: from.OnBoard() && LegalMove(b, from, to, c) == Returned(true)
  }

  ghost predicate HasLongElephant(b: Points, c: Color)
    requires WellPlaced(b)
  {
    exists from: Position, to: Position :: LongElephant(b, c, from, to)
  }

  /** A game is ended by an empty list although the side to move still has a move that would be
      accepted, exactly when one of its elephants has a long one. */
  lemma VerdictExact(next: Board)
    requires WellPlaced(next.points) && AfterMove(next).Returned? && AfterMove(next).value.Victory?
    ensures HasMove(next.points, next.turn) <==> HasLongElephant(next.points, next.turn)
  {
    hide LegalMove, LegalMoves, InCheck;
    var b, c := next.points, next.turn;
    assert LegalMoves(b, c) == Returned([]);
    forall from: Position, to: Position | from.OnBoard() && LegalMove(b, from, to, c) == Returned(true)
      ensures LongElephant(b, c, from, to)
    {
      MissedExact(b, c, from, to);
    }
  }

  // ---------------------------------------------------------------- a wrong verdict

  const RED_GENERAL := Piece(General, Position(2, 5), Red)
  const RED_ELEPHANT := Piece(Elephant, Position(0, 2), Red)
  const BLACK_GENERAL := Piece(General, Position(9, 3), Black)
  const BLACK_HORSE := Piece(Horse, Position(4, 6), Black)
  const BLACK_ROOK := Piece(Rook, Position(9, 4), Black)

  /** Red is in check from the horse, and only the elephant can take it. */
  function Cornered(): (b: Points)
    ensures WellPlaced(b)
  {
    seq(POINTS, i => if i == 23 then Some(RED_GENERAL) else if i == 2 then Some(RED_ELEPHANT)
                     else if i == 84 then Some(BLACK_GENERAL) else if i == 42 then Some(BLACK_HORSE)
                     else if i == 85 then Some(BLACK_ROOK) else None)
  }

  /** A red general at `p`, a black one at home, and a black piece that may take it. */
  lemma Checked(b: Points, p: Position, i: nat)
    requires WellPlaced(b) && GeneralAt(b, Red, p) && GeneralAt(b, Black, Position(9, 3))
    requires i < POINTS && Threatens(b, i, p, Red)
    ensures InCheck(b, Red) == Returned(true)
  {
    hide PieceMay, GeneralPos;
    GeneralPosFinds(b, Red, p, Position(9, 3));
  }

  /** The horse checks as long as it, the general and the empty square beside it stay. */
  lemma HorseChecks(b: Points)
    requires WellPlaced(b) && b[23] == Some(RED_GENERAL) && b[42] == Some(BLACK_HORSE) && b[33].None?
    requires GeneralAt(b, Red, Position(2, 5)) && GeneralAt(b, Black, Position(9, 3))
    ensures InCheck(b, Red) == Returned(true)
  {
    assert PieceMay(BLACK_HORSE, Position(2, 5), b);
    Checked(b, Position(2, 5), 42);
  }

  lemma CorneredGenerals()
    ensures GeneralAt(Cornered(), Red, Position(2, 5)) && GeneralAt(Cornered(), Black, Position(9, 3))
  {
  }

  /** Wherever the elephant goes, short of taking the horse, the check stays. */
  lemma ElephantStuck(to: Position)
    requires to in Candidates(RED_ELEPHANT)
    ensures LegalMove(Cornered(), Position(0, 2), to, Red) == Returned(false)
  {
    hide ElephantMay, InCheck;
    var b := Cornered();
    if PieceMay(RED_ELEPHANT, to, b) {
      var after := Moved(b, Position(0, 2), to);
      CorneredGenerals();
      assert to == Position(2, 4) || to == Position(2, 0);
      assert GeneralAt(after, Red, Position(2, 5)) && GeneralAt(after, Black, Position(9, 3));
      HorseChecks(after);
    }
  }

  /** The general can only step aside, into the file of the rook. */
  lemma GeneralStuck(to: Position)
    requires to in Candidates(RED_GENERAL)
    ensures LegalMove(Cornered(), Position(2, 5), to, Red) == Returned(false)
  {
    hide GeneralMay, InCheck;
    var b := Cornered();
    GeneralNeverRetreats(b, 23);
    if PieceMay(RED_GENERAL, to, b) {
      MayTarget(RED_GENERAL, to, b);
      assert to == Position(2, 4);
      var after := Moved(b, Position(2, 5), to);
      assert GeneralAt(after, Red, Position(2, 4)) && GeneralAt(after, Black, Position(9, 3));
      RookChecks(after);
    }
  }

  lemma RookChecks(b: Points)
    requires WellPlaced(b) && b[22] == Some(RED_GENERAL.(pos := Position(2, 4))) && b[85] == Some(BLACK_ROOK)
    requires forall r :: 3 <= r <= 8 ==> b[9 * r + 4].None?
    requires GeneralAt(b, Red, Position(2, 4)) && GeneralAt(b, Black, Position(9, 3))
    ensures InCheck(b, Red) == Returned(true)
  {
    var path := Orthogonals(Position(9, 4), Position(2, 4));
    OrthogonalsOnBoard(Position(9, 4), Position(2, 4));
    forall k | 0 <= k < |Between(path)| ensures !HasPiece(b, Between(path)[k]) {
      assert Between(path)[k] == path[k] == Position(8 - k, 4);
    }
    assert PieceMay(BLACK_ROOK, Position(2, 4), b);
    Checked(b, Position(2, 4), 85);
  }

  /** Taking the horse over four diagonal squares is accepted. */
  lemma ElephantTakes()
    ensures LongElephant(Cornered(), Red, Position(0, 2), Position(4, 6))
  {
    hide PieceMay, InCheck;
    var b := Cornered();
    ElephantReaches(b);
    var after := Moved(b, Position(0, 2), Position(4, 6));
    assert GeneralAt(after, Red, Position(2, 5)) && GeneralAt(after, Black, Position(9, 3));
    NotChecked(after);
  }

  lemma ElephantReaches(b: Points)
    requires b[42] == Some(BLACK_HORSE) && b[11].None? && b[20].None? && b[29].None?
    ensures PieceMay(RED_ELEPHANT, Position(4, 6), b)
  {
    var from, to := Position(0, 2), Position(4, 6);
    var path := Diagonals(from, to);
    DiagonalsAlongFile(from, to);
    forall k | 0 <= k < |Between(path)| ensures !HasPiece(b, Between(path)[k]) {
      assert Between(path)[k] == path[k] == Position(k + 1, 2);
    }
  }

  lemma NotChecked(b: Points)
    requires WellPlaced(b) && GeneralAt(b, Red, Position(2, 5)) && GeneralAt(b, Black, Position(9, 3))
    requires forall i :: 0 <= i < POINTS && b[i].Some? && b[i].value.color == Black ==> i == 84 || i == 85
    requires b[84] == Some(BLACK_GENERAL) && b[85] == Some(BLACK_ROOK)
    ensures InCheck(b, Red) == Returned(false)
  {
    hide GeneralPos;
    GeneralPosFinds(b, Red, Position(2, 5), Position(9, 3));
    forall i | 0 <= i < POINTS ensures !Threatens(b, i, Position(2, 5), Red) {
    }
  }

  /** Red is mated by the list of its moves, and only by the list. */
  lemma CorneredVerdict(n: nat)
    ensures AfterMove(Board(Cornered(), Red, n)) == Returned(Victory(Black))
    ensures HasMove(Cornered(), Red)
  {
    hide LegalMove, LegalFrom, InCheck, Candidates;
    var b := Cornered();
    CorneredGenerals();
    HorseChecks(b);
    LegalFromReturns(b, Red, 0);
    forall m ensures m !in LegalFrom(b, Red, 0).value {
      LegalFromExact(b, Red, 0, m);
      forall k | 0 <= k < POINTS ensures !Listed(b, Red, k, m) {
        if k == 2 && m.MovePiece? && m.to in Candidates(RED_ELEPHANT) { ElephantStuck(m.to); }
        if k == 23 && m.MovePiece? && m.to in Candidates(RED_GENERAL) { GeneralStuck(m.to); }
      }
    }
    SomeMove(LegalFrom(b, Red, 0).value);
    ElephantTakes();
  }

  /** The position one ply earlier: the horse is about to give check. */
  function Approach(): (b: Points)
    ensures WellPlaced(b)
  {
    Cornered()[42 := None][59 := Some(BLACK_HORSE.(pos := Position(6, 5)))]
  }

  const HORSE_MOVE := MovePiece(Position(6, 5), Position(4, 6))

  lemma ApproachGenerals()
    ensures GeneralAt(Approach(), Red, Position(2, 5)) && GeneralAt(Approach(), Black, Position(9, 3))
  {
  }

  /** Neither side is in check before the horse moves. */
  lemma ApproachSafe(n: nat)
    ensures Safe(Board(Approach(), Black, n))
  {
    hide GeneralPos;
    var b := Approach();
    ApproachGenerals();
    GeneralPosFinds(b, Red, Position(2, 5), Position(9, 3));
    forall i | 0 <= i < POINTS ensures !Threatens(b, i, Position(2, 5), Red) {
    }
  }

  /** The check the horse gives leaves its own general safe. */
  lemma HorseMoveLegal()
    ensures LegalMove(Approach(), Position(6, 5), Position(4, 6), Black) == Returned(true)
    ensures Moved(Approach(), Position(6, 5), Position(4, 6)) == Cornered()
  {
    hide GeneralPos, CountPieces;
    var b := Cornered();
    assert Moved(Approach(), Position(6, 5), Position(4, 6)) == b;
    assert PieceMay(BLACK_HORSE.(pos := Position(6, 5)), Position(4, 6), Approach());
    CorneredGenerals();
    GeneralPosFinds(b, Black, Position(9, 3), Position(2, 5));
    forall i | 0 <= i < POINTS ensures !Threatens(b, i, Position(9, 3), Black) {
    }
  }

  /** From a safe position, the move of the horse wins the game for black although red's elephant may
      take it. */
  lemma WrongVerdict(n: nat)
    ensures Safe(Board(Approach(), Black, n))
    ensures PlayMove(Board(Approach(), Black, n), HORSE_MOVE) == Returned(Victory(Black))
    ensures HasMove(Moved(Approach(), HORSE_MOVE.from, HORSE_MOVE.to), Red)
  {
    hide LegalMove, LegalMoves, InCheck, HasMove, Cornered, Approach;
    ApproachSafe(n);
    HorseMoveLegal();
    CorneredVerdict(n);
  }

  lemma SomeMove(ms: seq<Move>)
    ensures ms == [] || exists m :: m in ms
  {
    if ms != [] { assert ms[0] in ms; }
  }
}
