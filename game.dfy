/**
 * The game screen's turn state machine.
 *
 * The screen holds the board, the selected piece and its valid moves, the
 * side to move, a pending promotion, the en-passant target, the halfmove
 * clock, a pending draw request, the two lists of captured pieces and the two
 * players' clocks. Tapping a piece selects it; tapping a target moves it,
 * removing a captured piece (the one behind the target for en passant),
 * bringing the rook along when the king moves two columns, and either
 * suspending for a promotion choice or handing the turn over. After a move
 * the position is classified: fifty-move draw, checkmate, stalemate or check.
 *
 * The transitions are specified as functions on `GameState` values; the class
 * `Game` performs them step by step on its fields and is proved to agree.
 */
module GameScreen {
  import opened Types
  import opened Boards
  import opened Pseudo
  import opened Check
  import opened Draw
  import opened Strings
  import opened Setup
  import MoveGen

  /** A pawn waiting on its last row for the choice of piece. */
  datatype Pending = Pending(row: int, col: int, color: Color)

  /** What the classification after a completed move reports. */
  datatype Outcome = FiftyMoveDraw | CheckmateWin(winner: Color) | StalemateDraw | CheckWarning(side: Color) | NoAlert

  /** The castling rook's move along the king's row, from column `from` to column `to`. */
  datatype RookShift = RookShift(from: int, to: int)

  /** Everything the screen keeps between taps. */
  datatype GameState = GameState(
    pieces: seq<Piece>,
    selected: Option<Piece>,
    validMoves: seq<Square>,
    turn: Color,
    promotionPending: Option<Pending>,
    enPassant: Option<Square>,
    halfMoveClock: int,
    drawRequest: Option<Color>,
    capturedWhite: seq<Piece>,
    capturedBlack: seq<Piece>,
    whiteTime: int,
    blackTime: int)

  /**
   * What the deferred classification after a completed move or promotion
   * reads: the halfmove clock it tests, the side now to move, the board, and
   * the side that moved.
   */
  datatype Report = Report(clock: int, next: Color, board: seq<Piece>, mover: Color)

  /** A transition's new state and, when a move or promotion completed, what the classification that follows reads. */
  datatype Step = Step(state: GameState, report: Option<Report>)

  function Abs(x: int): nat
  {
    if x < 0 then -x else x
  }

  // ---------------------------------------------------------------- setup and reset

  /** The mode the screen was opened with; none given means classic. */
  function ModeOrDefault(mode: Option<GameMode>): GameMode
  {
    if mode.None? then Classic else mode.value
  }

  /** Seconds on each player's clock at the start: 30, 10 or 3 minutes. */
  function InitialTime(mode: GameMode): (seconds: int)
    ensures 0 < seconds <= 1800 && seconds % 60 == 0
    ensures mode == Classic ==> seconds == 1800
    ensures mode == Rapid ==> seconds == 600
    ensures mode == Blitz ==> seconds == 180
  {
    match mode
    case Classic => 30 * 60
    case Rapid => 10 * 60
    case Blitz => 3 * 60
  }

  /** The state the screen opens with. */
  function InitialState(mode: Option<GameMode>): GameState
  {
    var time := InitialTime(ModeOrDefault(mode));
    GameState(InitialPieces(), None, [], White, None, None, 0, None, [], [], time, time)
  }

  /** `resetGame`: back to the starting position with everything cleared, except that the clocks keep running from where they are. */
  function ResetState(s: GameState): GameState
  {
    s.(pieces := InitialPieces(), selected := None, validMoves := [], turn := White,
       promotionPending := None, enPassant := None, halfMoveClock := 0, drawRequest := None,
       capturedWhite := [], capturedBlack := [])
  }

  /** A reset is the opening state of a fresh game apart from the two clocks, and resetting twice is resetting once. */
  lemma ResetIsFreshGame(s: GameState, mode: Option<GameMode>)
    ensures ResetState(s) == InitialState(mode).(whiteTime := s.whiteTime, blackTime := s.blackTime)
    ensures ResetState(ResetState(s)) == ResetState(s)
  {
  }

  // ---------------------------------------------------------------- invariant

  /**
   * What every state the screen reaches satisfies: the clock is not negative,
   * each captured list holds pieces of its own colour, no piece is created
   * (pieces on the board plus recorded captures never exceed 32), no valid
   * moves are shown without a selection, no two pieces share a square, a king
   * that has not moved stands on column 4, whatever stands on a pending
   * promotion square has moved, and every valid move of the selection that
   * brings a castling rook along finds the rook's landing square empty.
   */
  predicate ValidState(s: GameState)
  {
    && s.halfMoveClock >= 0
    && (forall p :: p in s.capturedWhite ==> p.color == White)
    && (forall p :: p in s.capturedBlack ==> p.color == Black)
    && |s.pieces| + |s.capturedWhite| + |s.capturedBlack| <= 32
    && (s.selected.None? ==> s.validMoves == [])
    && ValidBoard(s.pieces)
    && (s.promotionPending.Some? ==>
          forall p :: p in s.pieces && SquareOf(p) == PendingSquare(s.promotionPending.value) ==> p.hasMoved)
    && (s.selected.Some? ==> forall m :: m in s.validMoves ==> RookLandingFree(s.pieces, s.selected.value, m.col))
  }

  /** No two pieces share a square, and a king that has not moved stands on column 4. */
  predicate ValidBoard(board: seq<Piece>)
  {
    && NoSharedSquare(board)
    && (forall p :: p in board && p.kind == King && !p.hasMoved ==> p.col == 4)
  }

  function PendingSquare(pending: Pending): Square
  {
    Square(pending.row, pending.col)
  }

  lemma InitialStateValid(mode: Option<GameMode>)
    ensures ValidState(InitialState(mode))
    ensures forall s :: ValidState(ResetState(s))
  {
    InitialBoardValid();
  }

  lemma InitialBoardValid()
    ensures ValidBoard(InitialPieces())
  {
    InitialSquares();
    InitialKings();
  }

  // ---------------------------------------------------------------- draw offer

  /** `handleRequestDraw`: the request is recorded for the side to move. */
  function DrawRequested(s: GameState): GameState
  {
    s.(drawRequest := Some(s.turn))
  }

  /** The offer dialog is shown while the recorded request names the side to move. */
  predicate DrawOfferShown(s: GameState)
  {
    s.drawRequest.Some? && s.drawRequest.value == s.turn
  }

  /** The dialog's two buttons: accepting resets the game, rejecting drops the request; without the dialog nothing happens. */
  function DrawAnswered(s: GameState, accept: bool): GameState
  {
    if !DrawOfferShown(s) then s
    else if accept then ResetState(s)
    else s.(drawRequest := None)
  }

  /**
   * A request opens the dialog at once, for the side that asked; since moves
   * clear the request, the other side is never asked.
   */
  lemma DrawRequestAsksRequester(s: GameState)
    ensures DrawOfferShown(DrawRequested(s))
    ensures DrawRequested(s).drawRequest == Some(s.turn)
    ensures DrawRequested(s).(drawRequest := s.drawRequest) == s
  {
  }

  lemma DrawAnswerEffect(s: GameState, accept: bool)
    requires ValidState(s)
    ensures ValidState(DrawAnswered(s, accept))
    ensures DrawOfferShown(s) && accept ==> DrawAnswered(s, accept) == ResetState(s)
    ensures DrawOfferShown(s) && !accept ==> DrawAnswered(s, accept) == s.(drawRequest := None)
    ensures !DrawOfferShown(s) ==> DrawAnswered(s, accept) == s
    ensures !DrawOfferShown(DrawAnswered(s, accept)) || DrawAnswered(s, accept) == s
  {
    InitialBoardValid();
  }

  // ---------------------------------------------------------------- selection

  /** `handleSelectPiece`: a piece of the side to move becomes the selection with its legal moves; any other piece is ignored. */
  function Selected(s: GameState, piece: Piece): GameState
  {
    if piece.color != s.turn then s
    else s.(selected := Some(piece), validMoves := LegalMoves(piece, s.pieces, s.enPassant))
  }

  lemma SelectionEffect(s: GameState, piece: Piece)
    ensures piece.color != s.turn ==> Selected(s, piece) == s
    ensures piece.color == s.turn ==>
              var t := Selected(s, piece);
              && t.selected == Some(piece)
              && (forall m :: m in t.validMoves <==>
                    m in PseudoLegalMoves(piece, s.pieces, s.enPassant) && !InCheckAfterMove(piece, m, s.pieces))
              && t.(selected := s.selected, validMoves := s.validMoves) == s
  {
  }

  /**
   * Selecting a piece from the board keeps the invariant: a two-column king
   * move among its legal moves is castling by an unmoved king, which stands on
   * column 4, so the rook lands on column 5 or 3, which castling needs empty.
   */
  lemma SelectionKeepsValid(s: GameState, piece: Piece)
    requires ValidState(s) && piece in s.pieces
    ensures ValidState(Selected(s, piece))
  {
    if piece.color == s.turn {
      forall m | m in LegalMoves(piece, s.pieces, s.enPassant) ensures RookLandingFree(s.pieces, piece, m.col) {
        CastlingLandingFree(piece, s.pieces, s.enPassant, m);
      }
    }
  }

  lemma CastlingLandingFree(piece: Piece, board: seq<Piece>, ep: Option<Square>, m: Square)
    requires ValidBoard(board) && piece in board && m in PseudoLegalMoves(piece, board, ep)
    ensures RookLandingFree(board, piece, m.col)
  {
    if CastleRook(piece, m.col).Some? {
      KingWideMoveIsCastling(piece, board, ep, m);
      assert m == Square(piece.row, m.col);
    }
  }

  // ---------------------------------------------------------------- the board after a move

  /** A pawn moving onto the en-passant target while nothing stands there. */
  predicate IsEnPassantCapture(sel: Piece, ep: Option<Square>, target: Option<Piece>, row: int, col: int)
  {
    sel.kind == Pawn && ep == Some(Square(row, col)) && target.None?
  }

  /** The square cleared by a move: for en passant the square one step back from the target, as seen from the mover; otherwise the target. */
  function VictimSquare(sel: Piece, enPassant: bool, row: int, col: int): (sq: Square)
    ensures enPassant ==> sq == Square(row - PawnDir(sel.color), col)
    ensures !enPassant ==> sq == Square(row, col)
  {
    if enPassant then Square(row + (if sel.color == White then 1 else -1), col) else Square(row, col)
  }

  /** The rook move that comes with a king moving two columns: from the corner on that side to the square the king passed over. */
  function CastleRook(sel: Piece, col: int): (shift: Option<RookShift>)
    ensures shift.Some? <==> sel.kind == King && Abs(col - sel.col) == 2
    ensures shift.Some? ==> shift.value.to == (sel.col + col) / 2 && shift.value.to != col && shift.value.to != sel.col
    ensures shift.Some? ==> (shift.value.from == 7 <==> col > sel.col) && (shift.value.from == 0 <==> col < sel.col)
  {
    if sel.kind == King && Abs(col - sel.col) == 2 then
      if col > sel.col then Some(RookShift(7, col - 1)) else Some(RookShift(0, col + 1))
    else None
  }

  /** The rook that comes with a king moving two columns to `col` finds its landing square empty. */
  predicate RookLandingFree(board: seq<Piece>, sel: Piece, col: int)
  {
    CastleRook(sel, col).Some? ==> !Occupied(board, sel.row, CastleRook(sel, col).value.to)
  }

  /** A rook on (row, shift.from) moved to shift.to and marked moved; any other piece as it was. */
  function SlideRook(p: Piece, row: int, shift: RookShift): Piece
  {
    if p.kind == Rook && p.row == row && p.col == shift.from then p.(col := shift.to, hasMoved := true) else p
  }

  function MoveRooks(board: seq<Piece>, row: int, shift: RookShift): (moved: seq<Piece>)
    ensures |moved| == |board|
    ensures forall i :: 0 <= i < |board| ==> moved[i] == SlideRook(board[i], row, shift)
  {
    seq(|board|, i requires 0 <= i < |board| => SlideRook(board[i], row, shift))
  }

  /** The rook step maps the members of the board to the members of the result. */
  lemma MoveRooksMembers(board: seq<Piece>, row: int, shift: RookShift)
    ensures forall p :: p in board ==> SlideRook(p, row, shift) in MoveRooks(board, row, shift)
    ensures forall q :: q in MoveRooks(board, row, shift) ==> exists p :: p in board && q == SlideRook(p, row, shift)
  {
    var moved := MoveRooks(board, row, shift);
    forall p | p in board ensures SlideRook(p, row, shift) in moved {
      var i :| 0 <= i < |board| && board[i] == p;
      assert moved[i] == SlideRook(p, row, shift);
    }
    forall q | q in moved ensures exists p :: p in board && q == SlideRook(p, row, shift) {
      var i :| 0 <= i < |moved| && moved[i] == q;
      assert board[i] in board;
    }
  }

  /** A piece on `from` moved to `to` and marked moved; any other piece as it was. */
  function Land(p: Piece, from: Square, to: Square): Piece
  {
    if SquareOf(p) == from then p.(row := to.row, col := to.col, hasMoved := true) else p
  }

  function MoveOnto(board: seq<Piece>, from: Square, to: Square): (moved: seq<Piece>)
    ensures |moved| == |board|
    ensures forall i :: 0 <= i < |board| ==> moved[i] == Land(board[i], from, to)
  {
    seq(|board|, i requires 0 <= i < |board| => Land(board[i], from, to))
  }

  /** The landing step maps the members of the board to the members of the result. */
  lemma MoveOntoMembers(board: seq<Piece>, from: Square, to: Square)
    ensures forall p :: p in board ==> Land(p, from, to) in MoveOnto(board, from, to)
    ensures forall q :: q in MoveOnto(board, from, to) ==> exists p :: p in board && q == Land(p, from, to)
  {
    var moved := MoveOnto(board, from, to);
    forall p | p in board ensures Land(p, from, to) in moved {
      var i :| 0 <= i < |board| && board[i] == p;
      assert moved[i] == Land(p, from, to);
    }
    forall q | q in moved ensures exists p :: p in board && q == Land(p, from, to) {
      var i :| 0 <= i < |moved| && moved[i] == q;
      assert board[i] in board;
    }
  }

  /** The board after the castling step: the rook moved when the king moves two columns. */
  function Castled(board: seq<Piece>, sel: Piece, col: int): seq<Piece>
  {
    match CastleRook(sel, col)
    case None => board
    case Some(shift) => MoveRooks(board, sel.row, shift)
  }

  /** The board after moving `sel` to (row, col): clear the victim square, bring the castling rook, move the piece. */
  function NextBoard(board: seq<Piece>, sel: Piece, enPassant: bool, row: int, col: int): seq<Piece>
  {
    var kept := RemoveAt(board, VictimSquare(sel, enPassant, row, col));
    MoveOnto(Castled(kept, sel, col), SquareOf(sel), Square(row, col))
  }

  /** A rook that the castling step moves. */
  predicate IsCastlingRook(p: Piece, sel: Piece, col: int)
  {
    CastleRook(sel, col).Some? && p.kind == Rook && p.row == sel.row && p.col == CastleRook(sel, col).value.from
  }

  /** The castling step changes only castling rooks, each to the column the king passed over. */
  lemma CastledMembers(board: seq<Piece>, sel: Piece, col: int)
    ensures forall p :: p in board && !IsCastlingRook(p, sel, col) ==> p in Castled(board, sel, col)
    ensures forall c :: c in Castled(board, sel, col) ==>
              || (c in board && !IsCastlingRook(c, sel, col))
              || (exists p :: p in board && IsCastlingRook(p, sel, col)
                    && c == p.(col := CastleRook(sel, col).value.to, hasMoved := true))
  {
    match CastleRook(sel, col)
    case None =>
    case Some(shift) =>
      MoveRooksMembers(board, sel.row, shift);
      forall c | c in Castled(board, sel, col)
        ensures || (c in board && !IsCastlingRook(c, sel, col))
                || (exists p :: p in board && IsCastlingRook(p, sel, col) && c == p.(col := shift.to, hasMoved := true))
      {
        var p :| p in board && c == SlideRook(p, sel.row, shift);
      }
  }

  /** Pieces drop by at most one on a board without shared squares, and never grow. */
  lemma NextBoardCount(board: seq<Piece>, sel: Piece, enPassant: bool, row: int, col: int)
    ensures |NextBoard(board, sel, enPassant, row, col)| <= |board|
    ensures NoSharedSquare(board) ==> |NextBoard(board, sel, enPassant, row, col)| >= |board| - 1
    ensures NoSharedSquare(board) ==>
              var victim := VictimSquare(sel, enPassant, row, col);
              |NextBoard(board, sel, enPassant, row, col)| == |board| - (if Occupied(board, victim.row, victim.col) then 1 else 0)
    ensures (exists p :: p in board && SquareOf(p) == VictimSquare(sel, enPassant, row, col)) ==>
              |NextBoard(board, sel, enPassant, row, col)| < |board|
  {
    var victim := VictimSquare(sel, enPassant, row, col);
    var kept := RemoveAt(board, victim);
    assert |Castled(kept, sel, col)| == |kept|;
    if NoSharedSquare(board) {
      RemoveAtDropsAtMostOne(board, victim);
    }
    if p :| p in board && SquareOf(p) == victim {
      RemoveAtShrinks(board, victim, p);
    }
  }

  /**
   * Nothing but the mover and a castling rook changes: every other piece off
   * the victim square stays as it was, and every piece of the new board is
   * such a piece, the mover on its target, or a castling rook on the column
   * the king passed over.
   */
  lemma NextBoardOthers(board: seq<Piece>, sel: Piece, enPassant: bool, row: int, col: int)
    ensures forall p :: p in board && SquareOf(p) != VictimSquare(sel, enPassant, row, col)
                        && SquareOf(p) != SquareOf(sel) && !IsCastlingRook(p, sel, col) ==>
              p in NextBoard(board, sel, enPassant, row, col)
    ensures forall q :: q in NextBoard(board, sel, enPassant, row, col) ==>
              || (q in board && SquareOf(q) != VictimSquare(sel, enPassant, row, col) && SquareOf(q) != SquareOf(sel))
              || (exists p :: p in board && SquareOf(p) == SquareOf(sel) && q == p.(row := row, col := col, hasMoved := true))
              || (exists p :: p in board && IsCastlingRook(p, sel, col)
                    && q == p.(col := CastleRook(sel, col).value.to, hasMoved := true))
  {
    var victim := VictimSquare(sel, enPassant, row, col);
    var kept := RemoveAt(board, victim);
    var castled := Castled(kept, sel, col);
    var from, to := SquareOf(sel), Square(row, col);
    CastledMembers(kept, sel, col);
    MoveOntoMembers(castled, from, to);
    forall q | q in NextBoard(board, sel, enPassant, row, col)
      ensures || (q in board && SquareOf(q) != victim && SquareOf(q) != from)
              || (exists p :: p in board && SquareOf(p) == from && q == p.(row := row, col := col, hasMoved := true))
              || (exists p :: p in board && IsCastlingRook(p, sel, col)
                    && q == p.(col := CastleRook(sel, col).value.to, hasMoved := true))
    {
      var c :| c in castled && q == Land(c, from, to);
      CastledOrigin(kept, sel, col, c);
    }
  }

  /** A piece after the castling step that stands on the mover's square came through unchanged. */
  lemma CastledOrigin(kept: seq<Piece>, sel: Piece, col: int, c: Piece)
    requires c in Castled(kept, sel, col)
    ensures SquareOf(c) == SquareOf(sel) ==> c in kept && !IsCastlingRook(c, sel, col)
    ensures || (c in kept && !IsCastlingRook(c, sel, col))
            || exists p :: p in kept && IsCastlingRook(p, sel, col) && c == p.(col := CastleRook(sel, col).value.to, hasMoved := true)
  {
    CastledMembers(kept, sel, col);
  }

  /**
   * On a board without shared squares, the piece then found on the target is
   * the selected piece, moved there and marked moved, provided the selected
   * piece is on the board and is not itself on the victim square.
   */
  lemma NextBoardMover(board: seq<Piece>, sel: Piece, enPassant: bool, row: int, col: int)
    requires NoSharedSquare(board) && sel in board
    requires VictimSquare(sel, enPassant, row, col) != SquareOf(sel)
    requires enPassant ==> !Occupied(board, row, col)
    ensures PieceAt(NextBoard(board, sel, enPassant, row, col), row, col) == Some(sel.(row := row, col := col, hasMoved := true))
  {
    var victim := VictimSquare(sel, enPassant, row, col);
    var kept := RemoveAt(board, victim);
    var castled := Castled(kept, sel, col);
    var from, to := SquareOf(sel), Square(row, col);
    var next := MoveOnto(castled, from, to);
    CastledMembers(kept, sel, col);
    MoveOntoMembers(castled, from, to);
    assert sel in castled;
    assert Land(sel, from, to) in next;
    var found := PieceAt(next, row, col);
    var c :| c in castled && found.value == Land(c, from, to);
    CastledOrigin(kept, sel, col, c);
    if SquareOf(c) == from {
      SameSquareSamePiece(board, c, sel);
    } else {
      CastledOffTarget(board, sel, enPassant, row, col, c);
    }
  }

  /** After the castling step nothing stands on the target. */
  lemma CastledOffTarget(board: seq<Piece>, sel: Piece, enPassant: bool, row: int, col: int, c: Piece)
    requires enPassant ==> !Occupied(board, row, col)
    requires c in Castled(RemoveAt(board, VictimSquare(sel, enPassant, row, col)), sel, col)
    ensures !At(c, row, col)
  {
    var kept := RemoveAt(board, VictimSquare(sel, enPassant, row, col));
    CastledOrigin(kept, sel, col, c);
  }

  /**
   * A move leaves no two pieces on one square when the board had none, an
   * en-passant target is empty, and the castling rook's landing square is empty.
   */
  lemma NextBoardNoSharedSquare(board: seq<Piece>, sel: Piece, enPassant: bool, row: int, col: int)
    requires NoSharedSquare(board)
    requires enPassant ==> !Occupied(board, row, col)
    requires RookLandingFree(board, sel, col)
    ensures NoSharedSquare(NextBoard(board, sel, enPassant, row, col))
  {
    var kept := RemoveAt(board, VictimSquare(sel, enPassant, row, col));
    RemoveAtKeepsNoSharedSquare(board, VictimSquare(sel, enPassant, row, col));
    var castled := Castled(kept, sel, col);
    match CastleRook(sel, col)
    case None =>
    case Some(shift) =>
      assert forall p :: p in kept ==> !At(p, sel.row, shift.to);
      MoveRooksNoSharedSquare(kept, sel.row, shift);
    forall c | c in castled ensures !At(c, row, col) {
      CastledOffTarget(board, sel, enPassant, row, col, c);
    }
    MoveOntoNoSharedSquare(castled, SquareOf(sel), Square(row, col));
  }

  lemma MoveRooksNoSharedSquare(board: seq<Piece>, row: int, shift: RookShift)
    requires NoSharedSquare(board)
    requires forall p :: p in board ==> !At(p, row, shift.to)
    ensures NoSharedSquare(MoveRooks(board, row, shift))
  {
    var moved := MoveRooks(board, row, shift);
    forall i, j | 0 <= i < j < |moved| ensures SquareOf(moved[i]) != SquareOf(moved[j]) {
      assert board[i] in board && board[j] in board;
    }
  }

  lemma MoveOntoNoSharedSquare(board: seq<Piece>, from: Square, to: Square)
    requires NoSharedSquare(board)
    requires forall p :: p in board ==> !At(p, to.row, to.col)
    ensures NoSharedSquare(MoveOnto(board, from, to))
  {
    var moved := MoveOnto(board, from, to);
    forall i, j | 0 <= i < j < |moved| ensures SquareOf(moved[i]) != SquareOf(moved[j]) {
      assert board[i] in board && board[j] in board;
    }
  }

  /** A move keeps the board's shape when an en-passant target is empty and the castling rook's landing square is empty. */
  lemma NextBoardValid(board: seq<Piece>, sel: Piece, enPassant: bool, row: int, col: int)
    requires ValidBoard(board)
    requires enPassant ==> !Occupied(board, row, col)
    requires RookLandingFree(board, sel, col)
    ensures ValidBoard(NextBoard(board, sel, enPassant, row, col))
  {
    NextBoardNoSharedSquare(board, sel, enPassant, row, col);
    NextBoardUnmoved(board, sel, enPassant, row, col);
  }

  /** A piece of the new board that has not moved was on the old board. */
  lemma NextBoardUnmoved(board: seq<Piece>, sel: Piece, enPassant: bool, row: int, col: int)
    ensures forall q :: q in NextBoard(board, sel, enPassant, row, col) && !q.hasMoved ==> q in board
  {
    NextBoardOthers(board, sel, enPassant, row, col);
  }

  /** Whatever stands on the target after the move has moved. */
  lemma NextBoardTargetMoved(board: seq<Piece>, sel: Piece, enPassant: bool, row: int, col: int)
    requires enPassant ==> !Occupied(board, row, col)
    ensures forall q :: q in NextBoard(board, sel, enPassant, row, col) && At(q, row, col) ==> q.hasMoved
  {
    var castled := Castled(RemoveAt(board, VictimSquare(sel, enPassant, row, col)), sel, col);
    MoveOntoMembers(castled, SquareOf(sel), Square(row, col));
    forall q | q in NextBoard(board, sel, enPassant, row, col) && At(q, row, col) ensures q.hasMoved {
      var c :| c in castled && q == Land(c, SquareOf(sel), Square(row, col));
      CastledOffTarget(board, sel, enPassant, row, col, c);
    }
  }

  // ---------------------------------------------------------------- after the move

  /** The pawn just moved stands on its last row: white's row 0, black's row 7. */
  predicate Promotes(moved: Option<Piece>, row: int)
  {
    moved.Some? && moved.value.kind == Pawn && row == (if moved.value.color == White then 0 else 7)
  }

  /** The square a pawn skipped when it moved two rows: the new en-passant target. */
  function DoubleStepTarget(moved: Option<Piece>, sel: Piece, row: int, col: int): (ep: Option<Square>)
    ensures ep.Some? <==> moved.Some? && moved.value.kind == Pawn && Abs(row - sel.row) == 2
    ensures ep.Some? ==> ep.value.col == col && Abs(ep.value.row - sel.row) == 1 && Abs(row - ep.value.row) == 1
  {
    if moved.Some? && moved.value.kind == Pawn && Abs(row - sel.row) == 2 then Some(Square((row + sel.row) / 2, col))
    else None
  }

  /**
   * The report after a move, in this order: the fifty-move draw, checkmate of
   * the side now to move (won by the side that moved), stalemate, check.
   */
  function Classify(r: Report): Outcome
  {
    if IsFiftyMoveRule(r.clock) then FiftyMoveDraw
    else if IsCheckmate(r.next, r.board) then CheckmateWin(r.mover)
    else if IsStalemate(r.next, r.board) then StalemateDraw
    else if InCheck(r.next, r.board) then CheckWarning(r.next)
    else NoAlert
  }

  /**
   * Apart from the fifty-move draw, the report depends only on whether the side
   * to move is in check and whether it has a legal move.
   */
  lemma ClassifyByMobility(r: Report)
    ensures Classify(r) == FiftyMoveDraw <==> r.clock >= 100
    ensures Classify(r) == CheckmateWin(r.mover) <==>
              r.clock < 100 && InCheck(r.next, r.board) && NoLegalMove(r.next, r.board)
    ensures Classify(r) == StalemateDraw <==>
              r.clock < 100 && !InCheck(r.next, r.board) && NoLegalMove(r.next, r.board)
    ensures Classify(r) == CheckWarning(r.next) <==>
              r.clock < 100 && InCheck(r.next, r.board) && !NoLegalMove(r.next, r.board)
    ensures Classify(r) == NoAlert <==>
              r.clock < 100 && !InCheck(r.next, r.board) && !NoLegalMove(r.next, r.board)
  {
    CheckmateIffNoLegalMove(r.next, r.board);
    StalemateIffNoLegalMove(r.next, r.board);
  }

  lemma StalemateIffNoLegalMove(color: Color, board: seq<Piece>)
    ensures IsStalemate(color, board) <==> !InCheck(color, board) && NoLegalMove(color, board)
  {
    if IsStalemate(color, board) {
      forall p | p in board && p.color == color ensures LegalMoves(p, board, None) == [] {
        assert |LegalMoves(p, board, None)| == 0;
      }
    }
  }

  /** `handleMove`: the step it takes for a tap on (row, col). */
  function Moved(s: GameState, row: int, col: int): Step
  {
    if s.selected.None? then Step(s, None)
    else if Square(row, col) !in s.validMoves then Step(s.(selected := None, validMoves := []), None)
    else Settled(Taken(s, row, col), s.selected.value, row, col, IsCapture(s, row, col))
  }

  /** A move is accepted: there is a selection and the tap is on one of its valid moves. */
  predicate Accepted(s: GameState, row: int, col: int)
  {
    s.selected.Some? && Square(row, col) in s.validMoves
  }

  /** The selected piece takes en passant on (row, col). */
  predicate EnPassantMove(s: GameState, row: int, col: int)
    requires s.selected.Some?
  {
    IsEnPassantCapture(s.selected.value, s.enPassant, PieceAt(s.pieces, row, col), row, col)
  }

  /** Moving the selected piece to (row, col) captures: a piece stands there, or it takes en passant. */
  predicate IsCapture(s: GameState, row: int, col: int)
    requires s.selected.Some?
  {
    PieceAt(s.pieces, row, col).Some? || EnPassantMove(s, row, col)
  }

  /** The piece on the target when it has colour c, for that colour's captured list. */
  function CapturedOf(target: Option<Piece>, c: Color): seq<Piece>
  {
    if target.Some? && target.value.color == c then [target.value] else []
  }

  /** The first part of an accepted move: the capture recorded, the board updated, the selection and request cleared. */
  function Taken(s: GameState, row: int, col: int): GameState
    requires s.selected.Some?
  {
    var target := PieceAt(s.pieces, row, col);
    s.(pieces := NextBoard(s.pieces, s.selected.value, EnPassantMove(s, row, col), row, col),
       selected := None, validMoves := [], drawRequest := None,
       capturedWhite := s.capturedWhite + CapturedOf(target, White),
       capturedBlack := s.capturedBlack + CapturedOf(target, Black))
  }

  /** The second part: suspend for a promotion, or hand the turn over and classify the position. */
  function Settled(t: GameState, sel: Piece, row: int, col: int, capture: bool): Step
  {
    var moved := PieceAt(t.pieces, row, col);
    if Promotes(moved, row) then
      Step(t.(promotionPending := Some(Pending(row, col, moved.value.color)), enPassant := None), None)
    else
      var clock := if sel.kind == Pawn || capture then 0 else t.halfMoveClock + 1;
      var next := Opponent(t.turn);
      Step(t.(enPassant := DoubleStepTarget(moved, sel, row, col), halfMoveClock := clock, turn := next),
           Some(Report(clock, next, t.pieces, t.turn)))
  }

  /** The tap is ignored without a selection; a tap off the valid moves only drops the selection. */
  lemma MoveRejected(s: GameState, row: int, col: int)
    ensures s.selected.None? ==> Moved(s, row, col) == Step(s, None)
    ensures s.selected.Some? && Square(row, col) !in s.validMoves ==>
              Moved(s, row, col) == Step(s.(selected := None, validMoves := []), None)
  {
  }

  /**
   * An accepted move records a piece standing on the target in its colour's
   * captured list (an en-passant victim is not recorded), clears the selection
   * and the draw request, and leaves the clocks alone.
   */
  lemma MoveCaptures(s: GameState, row: int, col: int)
    requires Accepted(s, row, col)
    ensures var t := Moved(s, row, col).state;
      && t.selected.None? && t.validMoves == [] && t.drawRequest.None?
      && t.whiteTime == s.whiteTime && t.blackTime == s.blackTime
      && (match PieceAt(s.pieces, row, col)
          case None => t.capturedWhite == s.capturedWhite && t.capturedBlack == s.capturedBlack
          case Some(victim) =>
            if victim.color == White then t.capturedWhite == s.capturedWhite + [victim] && t.capturedBlack == s.capturedBlack
            else t.capturedBlack == s.capturedBlack + [victim] && t.capturedWhite == s.capturedWhite)
  {
  }

  /**
   * Whenever the piece then found on the target is a pawn on its last row,
   * the game suspends for the promotion choice: the pending promotion is the
   * target square with that pawn's colour, the en-passant target is cleared,
   * no report is made, and the side to move and the halfmove clock stay as
   * they were.
   */
  lemma MoveSuspendsOnPromotion(s: GameState, row: int, col: int)
    requires Accepted(s, row, col) && Promotes(PieceAt(Taken(s, row, col).pieces, row, col), row)
    ensures var moved := PieceAt(Taken(s, row, col).pieces, row, col);
      var step := Moved(s, row, col);
      && step.report.None?
      && step.state.promotionPending == Some(Pending(row, col, moved.value.color))
      && step.state.turn == s.turn && step.state.halfMoveClock == s.halfMoveClock
      && step.state.enPassant.None?
  {
  }

  /**
   * The piece found on the target is the selected pawn itself, so a selected
   * pawn that reaches its last row suspends the game for the promotion choice.
   * This holds on a board without shared squares when the selected pawn
   * stands on the board, the move is not en passant, and the target is not
   * the pawn's own square. In play a pawn's list never holds its own square
   * (PawnNeverOwnSquare), and an en-passant target lies on row 2 or 5, never
   * on a last row (DoubleStepTargetRow).
   */
  lemma MovePromotionSuspends(s: GameState, row: int, col: int)
    requires Accepted(s, row, col) && NoSharedSquare(s.pieces) && s.selected.value in s.pieces
    requires !EnPassantMove(s, row, col) && Square(row, col) != SquareOf(s.selected.value)
    requires s.selected.value.kind == Pawn && row == (if s.selected.value.color == White then 0 else 7)
    ensures var step := Moved(s, row, col);
      && step.report.None?
      && step.state.promotionPending == Some(Pending(row, col, s.selected.value.color))
      && step.state.turn == s.turn && step.state.halfMoveClock == s.halfMoveClock
      && step.state.enPassant.None?
  {
    NextBoardMover(s.pieces, s.selected.value, false, row, col);
  }

  /** A pawn's move list never holds the pawn's own square. */
  lemma PawnNeverOwnSquare(piece: Piece, board: seq<Piece>, ep: Option<Square>)
    requires piece.kind == Pawn
    ensures SquareOf(piece) !in PseudoLegalMoves(piece, board, ep)
  {
    PawnNoOtherTarget(piece, board, ep);
  }

  /** A pawn move of two rows from its list leaves the en-passant target on row 5 (white) or row 2 (black). */
  lemma DoubleStepTargetRow(sel: Piece, board: seq<Piece>, ep: Option<Square>, moved: Option<Piece>, row: int, col: int)
    requires sel.kind == Pawn && Square(row, col) in PseudoLegalMoves(sel, board, ep)
    ensures DoubleStepTarget(moved, sel, row, col).Some? ==>
              DoubleStepTarget(moved, sel, row, col).value.row == (if sel.color == White then 5 else 2)
  {
    PawnNoOtherTarget(sel, board, ep);
    PawnTargets(sel, board, ep);
  }

  /**
   * A move that does not promote hands the turn over: the side to move
   * toggles, the clock restarts after a pawn move or any capture (en passant
   * included) and otherwise counts up, the en-passant target is the skipped
   * square and is set only after a pawn moved two rows, and the position is
   * classified for the side now to move.
   */
  lemma MoveCompletes(s: GameState, row: int, col: int)
    requires Accepted(s, row, col)
    requires !Promotes(PieceAt(Taken(s, row, col).pieces, row, col), row)
    ensures var sel := s.selected.value;
      var step := Moved(s, row, col);
      && step.state.turn == Opponent(s.turn)
      && step.state.promotionPending == s.promotionPending
      && step.state.halfMoveClock == (if sel.kind == Pawn || IsCapture(s, row, col) then 0 else s.halfMoveClock + 1)
      && step.state.enPassant == DoubleStepTarget(PieceAt(Taken(s, row, col).pieces, row, col), sel, row, col)
      && (step.state.enPassant.Some? ==> Abs(row - sel.row) == 2 && step.state.enPassant.value.col == col)
      && step.report == Some(Report(step.state.halfMoveClock, step.state.turn, step.state.pieces, s.turn))
  {
  }

  /** Any tap keeps every part of the invariant; in particular a recorded capture always left the board. */
  lemma MoveKeepsValid(s: GameState, row: int, col: int)
    requires ValidState(s)
    ensures ValidState(Moved(s, row, col).state)
  {
    if Accepted(s, row, col) {
      TakenKeepsValid(s, row, col);
      NextBoardTargetMoved(s.pieces, s.selected.value, EnPassantMove(s, row, col), row, col);
      SettledKeepsValid(Taken(s, row, col), s.selected.value, row, col, IsCapture(s, row, col));
    }
  }

  /** In play a move removes at most one piece, and one exactly when the victim square is occupied. */
  lemma MoveDropsAtMostOne(s: GameState, row: int, col: int)
    requires ValidState(s)
    ensures |s.pieces| - 1 <= |Moved(s, row, col).state.pieces| <= |s.pieces|
    ensures Accepted(s, row, col) ==>
              var victim := VictimSquare(s.selected.value, EnPassantMove(s, row, col), row, col);
              (|Moved(s, row, col).state.pieces| < |s.pieces| <==> Occupied(s.pieces, victim.row, victim.col))
  {
    if Accepted(s, row, col) {
      var t := Taken(s, row, col);
      assert Moved(s, row, col).state.pieces == t.pieces;
      NextBoardCount(s.pieces, s.selected.value, EnPassantMove(s, row, col), row, col);
    }
  }

  lemma TakenKeepsValid(s: GameState, row: int, col: int)
    requires ValidState(s) && Accepted(s, row, col)
    ensures ValidState(Taken(s, row, col))
  {
    var sel := s.selected.value;
    var target := PieceAt(s.pieces, row, col);
    var enPassant := EnPassantMove(s, row, col);
    NextBoardCount(s.pieces, sel, enPassant, row, col);
    if target.Some? {
      assert SquareOf(target.value) == VictimSquare(sel, enPassant, row, col);
    }
    assert RookLandingFree(s.pieces, sel, col);
    NextBoardValid(s.pieces, sel, enPassant, row, col);
    NextBoardUnmoved(s.pieces, sel, enPassant, row, col);
  }

  lemma SettledKeepsValid(t: GameState, sel: Piece, row: int, col: int, capture: bool)
    requires ValidState(t) && t.selected.None?
    requires forall q :: q in t.pieces && At(q, row, col) ==> q.hasMoved
    ensures ValidState(Settled(t, sel, row, col, capture).state)
  {
  }

  // ---------------------------------------------------------------- promotion

  /** Every piece on `sq` given the kind `kind`; any other piece as it was. */
  function Retype(board: seq<Piece>, sq: Square, kind: PieceType): (promoted: seq<Piece>)
    ensures |promoted| == |board|
    ensures forall i :: 0 <= i < |board| ==>
              promoted[i] == if SquareOf(board[i]) == sq then board[i].(kind := kind) else board[i]
  {
    seq(|board|, i requires 0 <= i < |board| => if SquareOf(board[i]) == sq then board[i].(kind := kind) else board[i])
  }

  /**
   * `handlePromotion`: with a promotion pending, the pawn becomes `kind`, the
   * turn passes, the clock restarts, the request is cleared and the position is
   * classified, using the clock as it stood before the promotion.
   */
  function Promoted(s: GameState, kind: PieceType): Step
  {
    if s.promotionPending.None? then Step(s, None)
    else
      var pending := s.promotionPending.value;
      var board := Retype(s.pieces, Square(pending.row, pending.col), kind);
      var next := Opponent(s.turn);
      Step(s.(pieces := board, promotionPending := None, turn := next, halfMoveClock := 0, drawRequest := None),
           Some(Report(s.halfMoveClock, next, board, s.turn)))
  }

  /**
   * Without a pending promotion nothing happens. Otherwise only the kind of the
   * pieces on the pending square changes, the turn passes, the clock restarts
   * and the request is cleared; the selection and its valid moves are kept.
   */
  lemma PromotionEffect(s: GameState, kind: PieceType)
    requires ValidState(s)
    ensures ValidState(Promoted(s, kind).state)
    ensures s.promotionPending.None? ==> Promoted(s, kind) == Step(s, None)
    ensures s.promotionPending.Some? ==>
              var t := Promoted(s, kind).state;
              var sq := Square(s.promotionPending.value.row, s.promotionPending.value.col);
              && |t.pieces| == |s.pieces|
              && (forall i :: 0 <= i < |s.pieces| ==>
                    t.pieces[i] == s.pieces[i].(kind := if SquareOf(s.pieces[i]) == sq then kind else s.pieces[i].kind))
              && t.turn == Opponent(s.turn) && t.halfMoveClock == 0
              && t.promotionPending.None? && t.drawRequest.None?
              && t.selected == s.selected && t.validMoves == s.validMoves
  {
    if s.promotionPending.Some? {
      RetypeKeepsSquares(s.pieces, PendingSquare(s.promotionPending.value), kind);
    }
  }

  /**
   * Retyping keeps every piece where it was: the same squares are occupied,
   * none become shared, and each piece of the result is one of the board or a
   * retyped piece from `sq`.
   */
  lemma RetypeKeepsSquares(board: seq<Piece>, sq: Square, kind: PieceType)
    ensures forall row, col :: Occupied(Retype(board, sq, kind), row, col) <==> Occupied(board, row, col)
    ensures NoSharedSquare(board) ==> NoSharedSquare(Retype(board, sq, kind))
    ensures forall q :: q in Retype(board, sq, kind) ==>
              q in board || exists p :: p in board && SquareOf(p) == sq && q == p.(kind := kind)
  {
    var promoted := Retype(board, sq, kind);
    forall q | q in promoted ensures q in board || exists p :: p in board && SquareOf(p) == sq && q == p.(kind := kind) {
      var i :| 0 <= i < |promoted| && promoted[i] == q;
      assert board[i] in board;
    }
    forall row, col ensures Occupied(promoted, row, col) <==> Occupied(board, row, col) {
      if Occupied(board, row, col) {
        var p := PieceAt(board, row, col).value;
        var i :| 0 <= i < |board| && board[i] == p;
        assert At(promoted[i], row, col);
      }
    }
  }

  /**
   * The report after a promotion reads the clock from before it, so a clock
   * already at 100 reports a fifty-move draw although the new clock is 0, and
   * a clock below 100 never does.
   */
  lemma PromotionReadsOldClock(s: GameState, kind: PieceType)
    requires s.promotionPending.Some?
    ensures Promoted(s, kind).state.halfMoveClock == 0
    ensures Promoted(s, kind).report.Some? && Promoted(s, kind).report.value.clock == s.halfMoveClock
    ensures Classify(Promoted(s, kind).report.value) == FiftyMoveDraw <==> s.halfMoveClock >= 100
  {
    var t := Promoted(s, kind).state;
    ClassifyByMobility(Promoted(s, kind).report.value);
  }

  // ---------------------------------------------------------------- clock display

  /** `padStart(2, '0')`: zeros in front of a string shorter than two characters. */
  function Pad2(s: string): (r: string)
    ensures |r| == if |s| < 2 then 2 else |s|
    ensures r[|r| - |s|..] == s
    ensures forall i :: 0 <= i < |r| - |s| ==> r[i] == '0'
  {
    if |s| == 0 then "00" else if |s| == 1 then "0" + s else s
  }

  /** JavaScript's `%` on integers: the remainder takes the sign of the dividend. */
  function JsRem(a: int, b: int): (r: int)
    requires b > 0
    ensures a >= 0 ==> r == a % b
    ensures Abs(r) == Abs(a) % b
    ensures (a < 0 ==> r <= 0) && (a >= 0 ==> r >= 0)
  {
    if a >= 0 then a % b else -((-a) % b)
  }

  /**
   * `formatTime`: minutes (rounded down) and seconds, each at least two
   * digits, joined by " : ". Dafny's `/` by a positive divisor rounds down,
   * as `Math.floor` of the quotient does.
   */
  function FormatTime(seconds: int): string
  {
    Pad2(IntToString(seconds / 60)) + " : " + Pad2(IntToString(JsRem(seconds, 60)))
  }

  /** A leading zero does not change the value of a digit string. */
  lemma {:induction false} DigitsValueLeadingZero(t: string)
    ensures DigitsValue("0" + t) == DigitsValue(t)
  {
    if |t| > 0 {
      var front := t[..|t| - 1];
      assert ("0" + t)[..|"0" + t| - 1] == "0" + front;
      DigitsValueLeadingZero(front);
    }
  }

  lemma Pad2Value(n: nat)
    ensures DigitsValue(Pad2(NatToString(n))) == n
    ensures forall i :: 0 <= i < |Pad2(NatToString(n))| ==> IsDigit(Pad2(NatToString(n))[i])
  {
    var s := NatToString(n);
    DigitsValueOfNatToString(n);
    if |s| == 1 {
      DigitsValueLeadingZero(s);
    }
  }

  /** Reads a displayed time back: the minutes are the digits before the " : " separator, the seconds the last two characters. */
  function ReadTime(text: string): (seconds: int)
    ensures |text| < 5 ==> seconds == 0
  {
    if |text| < 5 then 0 else 60 * DigitsValue(text[..|text| - 5]) + DigitsValue(text[|text| - 2..])
  }

  /** A time of zero seconds or more renders its minutes and seconds without signs. */
  lemma FormatTimeParts(seconds: nat)
    ensures FormatTime(seconds) == Pad2(NatToString(seconds / 60)) + " : " + Pad2(NatToString(seconds % 60))
  {
  }

  /** Where the parts of a joined display sit when the seconds take two characters. */
  lemma JoinedParts(m: string, c: string)
    requires |c| == 2
    ensures var text := m + " : " + c;
      && |text| == |m| + 5
      && text[..|text| - 5] == m
      && text[|text| - 5..|text| - 2] == " : "
      && text[|text| - 2..] == c
  {
    var text := m + " : " + c;
    assert text[..|text| - 5] == m;
    assert text[|text| - 2..] == c;
  }

  /**
   * For a non-negative number of seconds the display reads back to it: the
   * last two characters are the seconds, the " : " separator precedes them,
   * and the digits before it are the minutes.
   */
  lemma FormatTimeReadsBack(seconds: nat)
    ensures ReadTime(FormatTime(seconds)) == seconds
  {
    var m, c := Pad2(NatToString(seconds / 60)), Pad2(NatToString(seconds % 60));
    Pad2Value(seconds / 60);
    Pad2Value(seconds % 60);
    FormatTimeParts(seconds);
    JoinedParts(m, c);
  }

  /** Pad2 of a digit string is a digit string. */
  lemma Pad2Digits(s: string)
    requires forall i :: 0 <= i < |s| ==> IsDigit(s[i])
    ensures forall i :: 0 <= i < |Pad2(s)| ==> IsDigit(Pad2(s)[i])
  {
    var r := Pad2(s);
    forall i | 0 <= i < |r| ensures IsDigit(r[i]) {
      if i >= |r| - |s| {
        assert r[i] == r[|r| - |s|..][i - (|r| - |s|)];
      }
    }
  }

  /** Digits joined to two digits by the separator: digits before it, two digits after it. */
  lemma JoinedDigits(m: string, c: string)
    requires |c| == 2 && IsDigit(c[0]) && IsDigit(c[1])
    requires forall i :: 0 <= i < |m| ==> IsDigit(m[i])
    ensures var text := m + " : " + c;
      && (forall i :: 0 <= i < |text| - 5 ==> IsDigit(text[i]))
      && IsDigit(text[|text| - 2]) && IsDigit(text[|text| - 1])
  {
    var text := m + " : " + c;
    forall i | 0 <= i < |text| - 5 ensures IsDigit(text[i]) {
      assert text[i] == m[i];
    }
    assert text[|text| - 2] == c[0] && text[|text| - 1] == c[1];
  }

  /** The display is digits, the " : " separator and two more digits. */
  lemma FormatTimeShape(seconds: nat)
    ensures var text := FormatTime(seconds);
      && |text| >= 7 && text[|text| - 5..|text| - 2] == " : "
      && (forall i :: 0 <= i < |text| - 5 ==> IsDigit(text[i]))
      && IsDigit(text[|text| - 2]) && IsDigit(text[|text| - 1])
  {
    var m, c := Pad2(NatToString(seconds / 60)), Pad2(NatToString(seconds % 60));
    Pad2Digits(NatToString(seconds / 60));
    Pad2Digits(NatToString(seconds % 60));
    FormatTimeParts(seconds);
    JoinedParts(m, c);
    JoinedDigits(m, c);
  }

  /** Below 100 minutes the display is exactly "mm : ss"; from 100 minutes on the minutes take more digits. */
  lemma FormatTimeWidth(seconds: nat)
    ensures seconds < 6000 <==> |FormatTime(seconds)| == 7
  {
    var minutes := NatToString(seconds / 60);
    var m, c := Pad2(minutes), Pad2(NatToString(seconds % 60));
    FormatTimeParts(seconds);
    JoinedParts(m, c);
    assert |m| == 2 <==> |minutes| <= 2;
    assert |minutes| <= 2 <==> seconds / 60 < 100;
  }

  /** Different non-negative times never display the same. */
  lemma FormatTimeInjective(a: nat, b: nat)
    requires FormatTime(a) == FormatTime(b)
    ensures a == b
  {
    FormatTimeReadsBack(a);
    FormatTimeReadsBack(b);
  }

  /** A negative time shows a minus sign in front of the minutes. */
  lemma FormatTimeNegative(seconds: int)
    requires seconds < 0
    ensures FormatTime(seconds)[0] == '-'
  {
    assert IntToString(seconds / 60)[0] == '-';
  }

  // ---------------------------------------------------------------- the screen

  class Game {
    var pieces: seq<Piece>
    var selected: Option<Piece>
    var validMoves: seq<Square>
    var turn: Color
    var promotionPending: Option<Pending>
    var enPassant: Option<Square>
    var halfMoveClock: int
    var drawRequest: Option<Color>
    var capturedWhite: seq<Piece>
    var capturedBlack: seq<Piece>
    var whiteTime: int
    var blackTime: int

    /** The screen's state as a value. */
    ghost function State(): GameState
      reads this
    {
      GameState(pieces, selected, validMoves, turn, promotionPending, enPassant, halfMoveClock,
                drawRequest, capturedWhite, capturedBlack, whiteTime, blackTime)
    }

    ghost predicate Valid()
      reads this
    {
      ValidState(State())
    }

    constructor(mode: Option<GameMode>)
      ensures State() == InitialState(mode) && Valid()
    {
      var time := InitialTime(ModeOrDefault(mode));
      pieces, selected, validMoves, turn := InitialPieces(), None, [], White;
      promotionPending, enPassant, halfMoveClock, drawRequest := None, None, 0, None;
      capturedWhite, capturedBlack := [], [];
      whiteTime, blackTime := time, time;
      InitialStateValid(mode);
    }

    method ResetGame()
      modifies this
      ensures State() == ResetState(old(State())) && Valid()
    {
      pieces := InitialPieces();
      selected := None;
      validMoves := [];
      turn := White;
      promotionPending := None;
      enPassant := None;
      halfMoveClock := 0;
      drawRequest := None;
      capturedWhite := [];
      capturedBlack := [];
      InitialStateValid(None);
    }

    method HandleRequestDraw()
      requires Valid()
      modifies this
      ensures State() == DrawRequested(old(State())) && Valid()
    {
      drawRequest := Some(turn);
    }

    /** A press on the offer dialog's accept or reject button; without the dialog there is nothing to press. */
    method HandleDrawAnswer(accept: bool)
      requires Valid()
      modifies this
      ensures State() == DrawAnswered(old(State()), accept) && Valid()
    {
      if drawRequest.Some? && drawRequest.value == turn {
        if accept {
          ResetGame();
        } else {
          drawRequest := None;
        }
      }
    }

    /** A press on a piece of the board. */
    method HandleSelectPiece(piece: Piece)
      requires Valid() && piece in pieces
      modifies this
      ensures State() == Selected(old(State()), piece) && Valid()
    {
      if piece.color != turn {
        return;
      }
      ghost var s := State();
      SelectionKeepsValid(s, piece);
      var moves := MoveGen.GetValidMoves(piece, pieces, enPassant, false);
      selected, validMoves := Some(piece), moves;
      assert State() == Selected(s, piece);
    }

    method HandleMove(row: int, col: int) returns (report: Option<Report>)
      requires Valid()
      modifies this
      ensures State() == Moved(old(State()), row, col).state
      ensures report == Moved(old(State()), row, col).report
      ensures Valid()
    {
      MoveKeepsValid(State(), row, col);
      if selected.None? {
        return None;
      }
      if Square(row, col) !in validMoves {
        selected := None;
        validMoves := [];
        return None;
      }
      var sel := selected.value;
      var isCapture := TakeMove(row, col);
      report := SettleMove(sel, row, col, isCapture);
    }

    /** The first part of an accepted move: record the capture, update the board, drop the selection and the draw request. */
    method TakeMove(row: int, col: int) returns (isCapture: bool)
      requires selected.Some?
      modifies this
      ensures State() == Taken(old(State()), row, col)
      ensures isCapture == IsCapture(old(State()), row, col)
    {
      ghost var s := State();
      var sel := selected.value;
      var target := PieceAt(pieces, row, col);
      var isEnPassant := IsEnPassantCapture(sel, enPassant, target, row, col);
      isCapture := target.Some? || isEnPassant;
      var updated := MoveOnBoard(pieces, sel, isEnPassant, row, col);
      var whites, blacks := capturedWhite, capturedBlack;
      if target.Some? {
        if target.value.color == White {
          whites := whites + [target.value];
        } else {
          blacks := blacks + [target.value];
        }
      }
      assert Taken(s, row, col) == s.(pieces := updated, selected := None, validMoves := [], drawRequest := None,
                                       capturedWhite := whites, capturedBlack := blacks);
      Commit(updated, whites, blacks);
    }

    /** Stores an accepted move's board and captured lists, dropping the selection, its valid moves and the draw request. */
    method Commit(board: seq<Piece>, whites: seq<Piece>, blacks: seq<Piece>)
      modifies this
      ensures State() == old(State()).(pieces := board, selected := None, validMoves := [], drawRequest := None,
                                       capturedWhite := whites, capturedBlack := blacks)
    {
      pieces, selected, validMoves, drawRequest, capturedWhite, capturedBlack := board, None, [], None, whites, blacks;
    }

    /** The board after the selected piece moves to (row, col). */
    static method MoveOnBoard(board: seq<Piece>, sel: Piece, isEnPassant: bool, row: int, col: int)
      returns (updated: seq<Piece>)
      ensures updated == NextBoard(board, sel, isEnPassant, row, col)
    {
      updated := RemoveAt(board, VictimSquare(sel, isEnPassant, row, col));
      ghost var kept := updated;
      var shift := CastleRook(sel, col);
      if shift.Some? {
        updated := MoveRooks(updated, sel.row, shift.value);
      }
      assert updated == Castled(kept, sel, col);
      updated := MoveOnto(updated, SquareOf(sel), Square(row, col));
    }

    /** The second part: suspend for a promotion, or hand the turn over. */
    method SettleMove(sel: Piece, row: int, col: int, isCapture: bool) returns (report: Option<Report>)
      modifies this
      ensures State() == Settled(old(State()), sel, row, col, isCapture).state
      ensures report == Settled(old(State()), sel, row, col, isCapture).report
    {
      var moved := PieceAt(pieces, row, col);
      if Promotes(moved, row) {
        promotionPending := Some(Pending(row, col, moved.value.color));
        enPassant := None;
        return None;
      }
      var nextClock := if sel.kind == Pawn || isCapture then 0 else halfMoveClock + 1;
      var nextTurn := Opponent(turn);
      report := Some(Report(nextClock, nextTurn, pieces, turn));
      enPassant, halfMoveClock, turn := DoubleStepTarget(moved, sel, row, col), nextClock, nextTurn;
    }

    method HandlePromotion(kind: PieceType) returns (report: Option<Report>)
      requires Valid()
      modifies this
      ensures State() == Promoted(old(State()), kind).state
      ensures report == Promoted(old(State()), kind).report
      ensures Valid()
    {
      PromotionEffect(State(), kind);
      if promotionPending.None? {
        return None;
      }
      var pending := promotionPending.value;
      var staleClock := halfMoveClock;
      var updated := Retype(pieces, Square(pending.row, pending.col), kind);
      var nextTurn := Opponent(turn);
      var mover := turn;
      pieces := updated;
      promotionPending := None;
      turn := nextTurn;
      halfMoveClock := 0;
      drawRequest := None;
      report := Some(Report(staleClock, nextTurn, updated, mover));
    }
  }
}
