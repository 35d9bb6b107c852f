/** What `play_move` answers, in terms of attacked generals, accepted moves and the squares of the board. */
module XiangqiPlay {
  import opened Wrappers
  import opened XiangqiPosition
  import opened XiangqiRules
  import opened XiangqiGame
  import opened XiangqiSafety
  import opened XiangqiVerdict

  // ---------------------------------------------------------------- check

  /** The general of colour `c` stands where an enemy piece may go. */
  ghost predicate Attacked(b: Points, c: Color)
    requires WellPlaced(b)
  {
    exists p, i :: GeneralAt(b, c, p) && 0 <= i < POINTS && Attacks(b, i, p, c)
  }

  ghost predicate Attacks(b: Points, i: int, p: Position, c: Color)
    requires WellPlaced(b) && 0 <= i < POINTS
  {
    b[i].Some? && b[i].value.color == Opponent(c) && PieceMay(b[i].value, p, b)
  }

  lemma CheckExact(b: Points, c: Color)
    requires WellPlaced(b) && OneGeneral(b, c) && OneGeneral(b, Opponent(c))
    ensures InCheck(b, c) == Returned(Attacked(b, c))
  {
    hide PieceMay, GeneralPos, GeneralAt;
    var p :| GeneralAt(b, c, p);
    var q :| GeneralAt(b, Opponent(c), q);
    GeneralPosFinds(b, c, p, q);
    forall i | 0 <= i < POINTS ensures Threatens(b, i, p, c) <==> Attacks(b, i, p, c) {
    }
    if p', i :| GeneralAt(b, c, p') && 0 <= i < POINTS && Attacks(b, i, p', c) {
      GeneralPosFinds(b, c, p', q);
    }
  }

  // ---------------------------------------------------------------- moving

  /** The piece on `from` has gone to `to`; a position beyond the ninth column moves nothing. */
  ghost predicate PieceWent(b: Points, from: Position, to: Position, b': Points)
    requires Indexable(from)
  {
    if from.col > 8 then b' == b
    else
      && 0 <= to.row <= 9 && 0 <= to.col <= 8 && b[9 * from.row + from.col].Some?
      && b'[9 * to.row + to.col] == Some(b[9 * from.row + from.col].value.(pos := to))
      && b'[9 * from.row + from.col] == None
      && forall i :: 0 <= i < POINTS && i != 9 * to.row + to.col && i != 9 * from.row + from.col ==> b'[i] == b[i]
  }

  lemma MovedExact(b: Points, from: Position, to: Position)
    requires Indexable(from) && GetPiece(b, from).Some? && to.OnBoard() && to != from
    ensures PieceWent(b, from, to, Moved(b, from, to))
  {
  }

  // ---------------------------------------------------------------- accepted moves

  /** A piece of the side to move that may go there, leaving its own general unattacked. */
  ghost predicate Accepted(b: Board, from: Position, to: Position)
    requires WellPlaced(b.points)
  {
    && Indexable(from) && b.points[9 * from.row + from.col].Some?
    && var pc := b.points[9 * from.row + from.col].value;
    && pc.color == b.turn && PieceMay(pc, to, b.points)
    && exists b' :: PieceWent(b.points, from, to, b') && WellPlaced(b') && !Attacked(b', b.turn)
  }

  lemma PieceWentOnce(b: Points, from: Position, to: Position, x: Points, y: Points)
    requires Indexable(from) && PieceWent(b, from, to, x) && PieceWent(b, from, to, y)
    ensures x == y
  {
  }

  /** Two safe generals after a move that the rules of its piece allow. */
  lemma AfterGenerals(b: Board, from: Position, to: Position)
    requires Safe(b) && Indexable(from) && GetPiece(b.points, from).Some?
    requires GetPiece(b.points, from).value.color == b.turn && PieceMay(GetPiece(b.points, from).value, to, b.points)
    ensures to.OnBoard() && to != from && PieceWent(b.points, from, to, Moved(b.points, from, to))
    ensures var after := Moved(b.points, from, to);
      WellPlaced(after) && OneGeneral(after, b.turn) && OneGeneral(after, Opponent(b.turn))
  {
    hide PieceMay, OneGeneral, InCheck, PieceWent, Moved;
    NoGeneralInReach(b, from, to);
    MayTarget(GetPiece(b.points, from).value, to, b.points);
    OwnGeneralKept(b.points, from, to, b.turn);
    EnemyGeneralKept(b.points, from, to, b.turn);
    MovedExact(b.points, from, to);
  }

  lemma AcceptedExact(b: Board, from: Position, to: Position)
    requires Safe(b)
    ensures LegalMove(b.points, from, to, b.turn) == Returned(true) <==> Accepted(b, from, to)
  {
    hide PieceMay, Moved, InCheck, Safe, PieceWent, Attacked;
    SafePlaced(b);
    if Indexable(from) && GetPiece(b.points, from).Some? {
      var pc := GetPiece(b.points, from).value;
      if pc.color == b.turn && PieceMay(pc, to, b.points) {
        AfterGenerals(b, from, to);
        var after := Moved(b.points, from, to);
        CheckExact(after, b.turn);
        forall b' | PieceWent(b.points, from, to, b') ensures b' == after { PieceWentOnce(b.points, from, to, b', after); }
      }
    }
  }

  // ---------------------------------------------------------------- the answer

  /** A move the engine lists: accepted, from the board, and no elephant over more than two squares. */
  ghost predicate HasListed(b: Board)
    requires WellPlaced(b.points)
  {
    exists from: Position, to: Position :: ListedMove(b, from, to)
  }

  ghost predicate ListedMove(b: Board, from: Position, to: Position)
    requires WellPlaced(b.points)
  {
    && 0 <= from.row <= 9 && 0 <= from.col <= 8 && Accepted(b, from, to)
    && (b.points[9 * from.row + from.col].value.pieceType == Elephant ==> -2 <= to.col - from.col <= 2)
  }

  lemma ListedExact(b: Board)
    requires Safe(b) && LegalMoves(b.points, b.turn).Returned?
    ensures WellPlaced(b.points) && (HasListed(b) <==> LegalMoves(b.points, b.turn).value != [])
  {
    hide LegalMove, LegalMoves, Safe, Accepted;
    SafePlaced(b);
    var ms := LegalMoves(b.points, b.turn).value;
    forall from: Position, to: Position ensures ListedMove(b, from, to) <==> MovePiece(from, to) in ms {
      AcceptedExact(b, from, to);
      if from.OnBoard() && LegalMove(b.points, from, to, b.turn) == Returned(true) {
        MissedExact(b.points, b.turn, from, to);
        LegalHasPiece(b.points, from, to, b.turn);
      } else if MovePiece(from, to) in ms {
        ListExact(b.points, b.turn, from, to);
      }
    }
    SomeMove(ms);
    if m :| m in ms {
      NoResign(b.points, b.turn, m);
      assert m == MovePiece(m.from, m.to);
    }
  }

  lemma NoResign(b: Points, c: Color, m: Move)
    requires WellPlaced(b) && LegalMoves(b, c).Returned? && m in LegalMoves(b, c).value
    ensures m.MovePiece?
  {
    hide LegalFrom, LegalMove;
    LegalFromExact(b, c, 0, m);
  }

  /** The board `n` after an accepted move, the other side to move. */
  ghost predicate Followed(b: Board, from: Position, to: Position, n: Board)
    requires Indexable(from)
  {
    PieceWent(b.points, from, to, n.points) && n.turn == Opponent(b.turn) && n.fullMove == b.fullMove
  }

  /** The answer to an accepted move that leaves `n`: mate and stalemate by the moves listed, and a
      stalemate is lost by the side that moved. */
  ghost predicate Verdict(b: Board, n: Board, r: GameResult)
    requires WellPlaced(n.points)
  {
    && (r == Victory(b.turn) <==> !HasListed(n) && Attacked(n.points, n.turn))
    && (r == Victory(Opponent(b.turn)) <==> !HasListed(n) && !Attacked(n.points, n.turn))
    && (r == Continuing(n) <==> HasListed(n))
    && (r.Continuing? ==> r.board == n)
  }

  /** `play_move` on every safe board with no more than the starting material. */
  lemma PlayExact(b: Board, m: Move)
    requires Safe(b) && MaterialOk(b.points)
    ensures WellPlaced(b.points)
    ensures match m
      case Resign => PlayMove(b, m) == Returned(Victory(Opponent(b.turn)))
      case MovePiece(from, to) =>
        if Accepted(b, from, to)
        then PlayMove(b, m).Returned? && exists n :: Followed(b, from, to, n) && Safe(n) && Verdict(b, n, PlayMove(b, m).value)
        else PlayMove(b, m) == if Indexable(from) then Returned(IllegalMove(m)) else Panicked
  {
    hide LegalMove, LegalMoves, InCheck, Moved, Safe, Accepted, MaterialOk, HasListed, Attacked;
    SafePlaced(b);
    if m.MovePiece? {
      AcceptedExact(b, m.from, m.to);
      PlayPanicsOnlyOffArray(b, m);
      if Accepted(b, m.from, m.to) { AcceptedPlay(b, m.from, m.to); }
    }
  }

  lemma AcceptedPlay(b: Board, from: Position, to: Position)
    requires Safe(b) && MaterialOk(b.points) && WellPlaced(b.points) && LegalMove(b.points, from, to, b.turn) == Returned(true)
    ensures Indexable(from) && PlayMove(b, MovePiece(from, to)).Returned?
    ensures exists n :: Followed(b, from, to, n) && Safe(n) && Verdict(b, n, PlayMove(b, MovePiece(from, to)).value)
  {
    hide LegalMove, LegalMoves, InCheck, Moved, Accepted, MaterialOk, HasListed, Attacked, OneGeneral, PieceMay, PieceWent;
    LegalHasPiece(b.points, from, to, b.turn);
    AfterGenerals(b, from, to);
    AfterReturns(b, from, to);
    var n := b.(points := Moved(b.points, from, to), turn := Opponent(b.turn));
    CheckExact(n.points, n.turn);
    ListedExact(n);
    assert Followed(b, from, to, n);
  }
}
