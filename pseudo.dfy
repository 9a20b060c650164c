/**
 * Pseudo-legal move generation: for each kind of piece, the target squares its
 * movement pattern allows on the given board, without asking whether the move
 * leaves the mover's own king in check. The order of every list is the order
 * in which the generator produces the squares.
 *
 * White pawns advance toward row 0 and start on row 6; black pawns advance
 * toward row 7 and start on row 1.
 */
module Pseudo {
  import opened Types
  import opened Boards
  import Seqs

  /** A step direction or jump offset: (row delta, column delta). */
  type Offset = (int, int)

  /** (row, col) holds a piece of the other colour than `piece`. */
  predicate IsEnemy(piece: Piece, board: seq<Piece>, row: int, col: int)
  {
    var t := PieceAt(board, row, col);
    t.Some? && t.value.color != piece.color
  }

  /** (row, col) holds a piece of the same colour as `piece`. */
  predicate IsFriendly(piece: Piece, board: seq<Piece>, row: int, col: int)
  {
    var t := PieceAt(board, row, col);
    t.Some? && t.value.color == piece.color
  }

  /** A square is either empty, an enemy's or a friend's. */
  lemma SquareStates(piece: Piece, board: seq<Piece>, row: int, col: int)
    ensures Occupied(board, row, col) <==> IsEnemy(piece, board, row, col) || IsFriendly(piece, board, row, col)
    ensures !(IsEnemy(piece, board, row, col) && IsFriendly(piece, board, row, col))
  {
  }

  /** The single-square move of a knight or king: kept when on the board and not held by a friend. */
  function StepTarget(piece: Piece, board: seq<Piece>, row: int, col: int): seq<Square>
  {
    if OnBoard(row, col) && (PieceAt(board, row, col).None? || PieceAt(board, row, col).value.color != piece.color)
    then [Square(row, col)]
    else []
  }

  // ---------------------------------------------------------------- pawns

  /** The row step of a pawn: white toward row 0, black toward row 7. */
  function PawnDir(c: Color): int
  {
    if c == White then -1 else 1
  }

  /** The row from which a pawn may advance two squares. */
  function PawnStartRow(c: Color): int
  {
    if c == White then 6 else 1
  }

  /** Forward moves: one square if empty (no bounds check), then two from the start row if that is empty too. */
  function PawnPushes(piece: Piece, board: seq<Piece>): (moves: seq<Square>)
    ensures var f1 := piece.row + PawnDir(piece.color);
            var f2 := piece.row + 2 * PawnDir(piece.color);
            && (Square(f1, piece.col) in moves <==> !Occupied(board, f1, piece.col))
            && (Square(f2, piece.col) in moves <==>
                  piece.row == PawnStartRow(piece.color) && !Occupied(board, f1, piece.col) && !Occupied(board, f2, piece.col))
            && (forall m :: m in moves ==> m == Square(f1, piece.col) || m == Square(f2, piece.col))
  {
    var f1 := piece.row + PawnDir(piece.color);
    var f2 := piece.row + 2 * PawnDir(piece.color);
    if !Occupied(board, f1, piece.col) then
      [Square(f1, piece.col)]
      + (if piece.row == PawnStartRow(piece.color) && !Occupied(board, f2, piece.col) then [Square(f2, piece.col)] else [])
    else []
  }

  /** The diagonal in column offset `dc`: once if it holds an enemy, once more if it is the en-passant target. */
  function PawnCapture(piece: Piece, board: seq<Piece>, ep: Option<Square>, dc: int): (moves: seq<Square>)
    ensures var diag := Square(piece.row + PawnDir(piece.color), piece.col + dc);
            && (diag in moves <==> IsEnemy(piece, board, diag.row, diag.col) || ep == Some(diag))
            && (forall m :: m in moves ==> m == diag)
  {
    var r := piece.row + PawnDir(piece.color);
    var c := piece.col + dc;
    (if IsEnemy(piece, board, r, c) then [Square(r, c)] else [])
    + (if ep == Some(Square(r, c)) then [Square(r, c)] else [])
  }

  /** The capture columns a pawn examines, left then right. */
  const PawnCaptureCols: seq<int> := [-1, 1]

  function PawnCaptures(piece: Piece, board: seq<Piece>, ep: Option<Square>, dcs: seq<int>): seq<Square>
  {
    if dcs == [] then [] else PawnCapture(piece, board, ep, dcs[0]) + PawnCaptures(piece, board, ep, dcs[1..])
  }

  /** The pawn's list: forward moves, then the left diagonal, then the right diagonal. */
  function PawnMoves(piece: Piece, board: seq<Piece>, ep: Option<Square>): seq<Square>
  {
    PawnPushes(piece, board) + PawnCaptures(piece, board, ep, PawnCaptureCols)
  }

  /**
   * A pawn single-steps exactly onto an empty square ahead, double-steps exactly
   * from its start row over two empty squares, takes a diagonal exactly when it
   * holds an enemy or is the en-passant target, and has no other target.
   */
  lemma PawnTargets(piece: Piece, board: seq<Piece>, ep: Option<Square>)
    ensures var moves := PawnMoves(piece, board, ep);
            var f1 := piece.row + PawnDir(piece.color);
            var f2 := piece.row + 2 * PawnDir(piece.color);
            && (Square(f1, piece.col) in moves <==> !Occupied(board, f1, piece.col))
            && (Square(f2, piece.col) in moves <==>
                  piece.row == PawnStartRow(piece.color) && !Occupied(board, f1, piece.col) && !Occupied(board, f2, piece.col))
            && (Square(f1, piece.col - 1) in moves <==>
                  IsEnemy(piece, board, f1, piece.col - 1) || ep == Some(Square(f1, piece.col - 1)))
            && (Square(f1, piece.col + 1) in moves <==>
                  IsEnemy(piece, board, f1, piece.col + 1) || ep == Some(Square(f1, piece.col + 1)))
            && (forall m :: m in moves ==>
                  m == Square(f1, piece.col) || m == Square(f2, piece.col)
                  || m == Square(f1, piece.col - 1) || m == Square(f1, piece.col + 1))
  {
    PawnForwardTargets(piece, board, ep);
    PawnDiagonalTarget(piece, board, ep, -1);
    PawnDiagonalTarget(piece, board, ep, 1);
    PawnNoOtherTarget(piece, board, ep);
  }

  lemma PawnForwardTargets(piece: Piece, board: seq<Piece>, ep: Option<Square>)
    ensures var moves := PawnMoves(piece, board, ep);
            var f1 := piece.row + PawnDir(piece.color);
            var f2 := piece.row + 2 * PawnDir(piece.color);
            && (Square(f1, piece.col) in moves <==> !Occupied(board, f1, piece.col))
            && (Square(f2, piece.col) in moves <==>
                  piece.row == PawnStartRow(piece.color) && !Occupied(board, f1, piece.col) && !Occupied(board, f2, piece.col))
  {
    PawnForwardFromPushes(piece, board, ep);
  }

  /** The squares straight ahead are in the pawn's list exactly when its forward moves hold them. */
  lemma PawnForwardFromPushes(piece: Piece, board: seq<Piece>, ep: Option<Square>)
    ensures var moves := PawnMoves(piece, board, ep);
            var pushes := PawnPushes(piece, board);
            var f1 := piece.row + PawnDir(piece.color);
            var f2 := piece.row + 2 * PawnDir(piece.color);
            && (Square(f1, piece.col) in moves <==> Square(f1, piece.col) in pushes)
            && (Square(f2, piece.col) in moves <==> Square(f2, piece.col) in pushes)
  {
    var f1 := piece.row + PawnDir(piece.color);
    var f2 := piece.row + 2 * PawnDir(piece.color);
    var left := PawnCapture(piece, board, ep, -1);
    var right := PawnCapture(piece, board, ep, 1);
    PawnCapturesBothSides(piece, board, ep);
    assert PawnMoves(piece, board, ep) == PawnPushes(piece, board) + (left + right);
    assert Square(f1, piece.col) !in left && Square(f1, piece.col) !in right;
    assert Square(f2, piece.col) !in left && Square(f2, piece.col) !in right;
  }

  lemma PawnDiagonalTarget(piece: Piece, board: seq<Piece>, ep: Option<Square>, dc: int)
    requires dc == -1 || dc == 1
    ensures var diag := Square(piece.row + PawnDir(piece.color), piece.col + dc);
            diag in PawnMoves(piece, board, ep) <==> IsEnemy(piece, board, diag.row, diag.col) || ep == Some(diag)
  {
    var diag := Square(piece.row + PawnDir(piece.color), piece.col + dc);
    PawnDiagonalFromCapture(piece, board, ep, dc);
    assert diag in PawnCapture(piece, board, ep, dc) <==> IsEnemy(piece, board, diag.row, diag.col) || ep == Some(diag);
  }

  /** A diagonal square is in the pawn's list exactly when its own capture list holds it. */
  lemma PawnDiagonalFromCapture(piece: Piece, board: seq<Piece>, ep: Option<Square>, dc: int)
    requires dc == -1 || dc == 1
    ensures var diag := Square(piece.row + PawnDir(piece.color), piece.col + dc);
            diag in PawnMoves(piece, board, ep) <==> diag in PawnCapture(piece, board, ep, dc)
  {
    var diag := Square(piece.row + PawnDir(piece.color), piece.col + dc);
    var pushes := PawnPushes(piece, board);
    var left := PawnCapture(piece, board, ep, -1);
    var right := PawnCapture(piece, board, ep, 1);
    PawnCapturesBothSides(piece, board, ep);
    assert PawnMoves(piece, board, ep) == pushes + (left + right);
    assert diag !in pushes;
    assert diag !in (if dc == -1 then right else left);
  }

  lemma PawnNoOtherTarget(piece: Piece, board: seq<Piece>, ep: Option<Square>)
    ensures var f1 := piece.row + PawnDir(piece.color);
            var f2 := piece.row + 2 * PawnDir(piece.color);
            forall m :: m in PawnMoves(piece, board, ep) ==>
              m == Square(f1, piece.col) || m == Square(f2, piece.col)
              || m == Square(f1, piece.col - 1) || m == Square(f1, piece.col + 1)
  {
    var pushes := PawnPushes(piece, board);
    var left := PawnCapture(piece, board, ep, -1);
    var right := PawnCapture(piece, board, ep, 1);
    PawnCapturesBothSides(piece, board, ep);
    assert PawnMoves(piece, board, ep) == pushes + (left + right);
  }

  /** The capture list of a pawn is its left diagonal's followed by its right diagonal's. */
  lemma PawnCapturesBothSides(piece: Piece, board: seq<Piece>, ep: Option<Square>)
    ensures PawnCaptures(piece, board, ep, PawnCaptureCols)
         == PawnCapture(piece, board, ep, -1) + PawnCapture(piece, board, ep, 1)
  {
    var right := PawnCapture(piece, board, ep, 1);
    assert PawnCaptureCols[0] == -1 && PawnCaptureCols[1..] == [1];
    assert [1][0] == 1 && [1][1..] == [];
    assert PawnCaptures(piece, board, ep, [1]) == right + [];
  }

  // ---------------------------------------------------------------- sliding pieces

  predicate IsDirection(d: Offset)
  {
    -1 <= d.0 <= 1 && -1 <= d.1 <= 1 && d != (0, 0)
  }

  /** Squares left before the edge along one axis; decreases with every step of a ray. */
  function Room(x: int, dx: int): int
  {
    if dx > 0 then 8 - x else if dx < 0 then x + 1 else 8
  }

  /**
   * The ray from (row, col) onward in direction d: empty squares while on the
   * board; the first occupied square ends it and is included only if it holds
   * an enemy.
   */
  function Ray(piece: Piece, board: seq<Piece>, row: int, col: int, d: Offset): seq<Square>
    requires IsDirection(d)
    decreases Room(row, d.0) + Room(col, d.1)
  {
    if !OnBoard(row, col) then []
    else if !Occupied(board, row, col) then [Square(row, col)] + Ray(piece, board, row + d.0, col + d.1, d)
    else if IsEnemy(piece, board, row, col) then [Square(row, col)]
    else []
  }

  /** Over an empty square the ray takes it and goes on. */
  lemma RayOverEmpty(piece: Piece, board: seq<Piece>, row: int, col: int, d: Offset)
    requires IsDirection(d) && OnBoard(row, col) && !Occupied(board, row, col)
    ensures Ray(piece, board, row, col, d) == [Square(row, col)] + Ray(piece, board, row + d.0, col + d.1, d)
  {
  }

  /** On an occupied square the ray ends, taking the square only from an enemy. */
  lemma RayAtOccupied(piece: Piece, board: seq<Piece>, row: int, col: int, d: Offset)
    requires IsDirection(d) && OnBoard(row, col) && Occupied(board, row, col)
    ensures Ray(piece, board, row, col, d) == if IsEnemy(piece, board, row, col) then [Square(row, col)] else []
  {
  }

  /** The rays of a sliding piece, direction by direction, each starting next to the piece. */
  function Rays(piece: Piece, board: seq<Piece>, dirs: seq<Offset>): seq<Square>
    requires forall d :: d in dirs ==> IsDirection(d)
  {
    if dirs == [] then []
    else Ray(piece, board, piece.row + dirs[0].0, piece.col + dirs[0].1, dirs[0]) + Rays(piece, board, dirs[1..])
  }

  const RookDirs: seq<Offset> := [(-1, 0), (1, 0), (0, -1), (0, 1)]
  const BishopDirs: seq<Offset> := [(-1, -1), (-1, 1), (1, -1), (1, 1)]
  const QueenDirs: seq<Offset> := RookDirs + BishopDirs

  // ---------------------------------------------------------------- knights and kings

  const KnightJumps: seq<Offset> := [(-2, -1), (-2, 1), (-1, -2), (-1, 2), (1, -2), (1, 2), (2, -1), (2, 1)]
  const KingSteps: seq<Offset> := [(-1, 0), (1, 0), (0, -1), (0, 1), (-1, -1), (-1, 1), (1, -1), (1, 1)]

  /** One StepTarget per offset, in order. */
  function Steps(piece: Piece, board: seq<Piece>, offsets: seq<Offset>): seq<Square>
  {
    if offsets == [] then []
    else StepTarget(piece, board, piece.row + offsets[0].0, piece.col + offsets[0].1) + Steps(piece, board, offsets[1..])
  }

  /** (row, col) holds, as its first piece, a rook that has not moved (of either colour). */
  predicate UnmovedRookAt(board: seq<Piece>, row: int, col: int)
  {
    var t := PieceAt(board, row, col);
    t.Some? && t.value.kind == Rook && !t.value.hasMoved
  }

  /**
   * Castling targets of an unmoved king: column 6 when an unmoved rook stands in
   * column 7 of the king's row and columns 5 and 6 are empty; column 2 when an
   * unmoved rook stands in column 0 and columns 1 to 3 are empty. The rook's
   * colour and attacked squares are not examined.
   */
  function Castling(piece: Piece, board: seq<Piece>): (moves: seq<Square>)
    ensures Square(piece.row, 6) in moves <==>
              !piece.hasMoved && UnmovedRookAt(board, piece.row, 7)
              && !Occupied(board, piece.row, 5) && !Occupied(board, piece.row, 6)
    ensures Square(piece.row, 2) in moves <==>
              !piece.hasMoved && UnmovedRookAt(board, piece.row, 0)
              && !Occupied(board, piece.row, 1) && !Occupied(board, piece.row, 2) && !Occupied(board, piece.row, 3)
    ensures forall m :: m in moves ==> m.row == piece.row && (m.col == 6 || m.col == 2)
  {
    if piece.hasMoved then []
    else
      var row := piece.row;
      (if UnmovedRookAt(board, row, 7) && !Occupied(board, row, 5) && !Occupied(board, row, 6)
       then [Square(row, 6)] else [])
      + (if UnmovedRookAt(board, row, 0) && !Occupied(board, row, 1) && !Occupied(board, row, 2) && !Occupied(board, row, 3)
         then [Square(row, 2)] else [])
  }

  // ---------------------------------------------------------------- all pieces

  /** The raw move list of one piece (the generator with its ignore-check flag set). */
  function PseudoLegalMoves(piece: Piece, board: seq<Piece>, ep: Option<Square>): seq<Square>
  {
    match piece.kind
    case Pawn => PawnMoves(piece, board, ep)
    case Rook => Rays(piece, board, RookDirs)
    case Bishop => Rays(piece, board, BishopDirs)
    case Queen => Rays(piece, board, QueenDirs)
    case Knight => Steps(piece, board, KnightJumps)
    case King => Steps(piece, board, KingSteps) + Castling(piece, board)
  }

  // ---------------------------------------------------------------- properties

  /**
   * A ray advances square by square from its start while on the board, every
   * square but the last is empty, the last is empty or an enemy's, and it stops
   * exactly where the next square is off the board or held by a friend (or right
   * after an occupied last square).
   */
  lemma RayShape(piece: Piece, board: seq<Piece>, row: int, col: int, d: Offset)
    requires IsDirection(d)
    ensures var s := Ray(piece, board, row, col, d);
            && (|s| > 0 ==> s[0] == Square(row, col))
            && (forall i :: 0 <= i < |s| - 1 ==> s[i + 1] == Square(s[i].row + d.0, s[i].col + d.1))
            && (forall i :: 0 <= i < |s| ==> OnBoard(s[i].row, s[i].col))
            && (forall i :: 0 <= i < |s| - 1 ==> !Occupied(board, s[i].row, s[i].col))
            && (|s| > 0 && Occupied(board, s[|s| - 1].row, s[|s| - 1].col) ==>
                  IsEnemy(piece, board, s[|s| - 1].row, s[|s| - 1].col))
            && (var next := if |s| == 0 then Square(row, col) else Square(s[|s| - 1].row + d.0, s[|s| - 1].col + d.1);
                (|s| == 0 || !Occupied(board, s[|s| - 1].row, s[|s| - 1].col)) ==>
                  !OnBoard(next.row, next.col) || IsFriendly(piece, board, next.row, next.col))
  {
    RayPath(piece, board, row, col, d);
    RayEnd(piece, board, row, col, d);
  }

  /** The squares of a ray: consecutive steps from the start, on the board, all but the last empty. */
  lemma {:induction false} RayPath(piece: Piece, board: seq<Piece>, row: int, col: int, d: Offset)
    requires IsDirection(d)
    ensures Line(board, Ray(piece, board, row, col, d), row, col, d)
    decreases Room(row, d.0) + Room(col, d.1)
  {
    if OnBoard(row, col) && !Occupied(board, row, col) {
      RayPath(piece, board, row + d.0, col + d.1, d);
      RayOverEmpty(piece, board, row, col, d);
      LineCons(board, Ray(piece, board, row + d.0, col + d.1, d), row, col, d);
    } else if OnBoard(row, col) {
      RayAtOccupied(piece, board, row, col, d);
    }
  }

  /** s starts at (row, col), steps by d, stays on the board, and crosses only empty squares before its last. */
  predicate Line(board: seq<Piece>, s: seq<Square>, row: int, col: int, d: Offset)
  {
    && (|s| > 0 ==> s[0] == Square(row, col))
    && (forall i :: 0 <= i < |s| - 1 ==> s[i + 1] == Square(s[i].row + d.0, s[i].col + d.1))
    && (forall i :: 0 <= i < |s| ==> OnBoard(s[i].row, s[i].col))
    && (forall i :: 0 <= i < |s| - 1 ==> !Occupied(board, s[i].row, s[i].col))
  }

  /** An empty on-board square put before a line from the next square is a line from it. */
  lemma LineCons(board: seq<Piece>, t: seq<Square>, row: int, col: int, d: Offset)
    requires OnBoard(row, col) && !Occupied(board, row, col)
    requires Line(board, t, row + d.0, col + d.1, d)
    ensures Line(board, [Square(row, col)] + t, row, col, d)
  {
    var s := [Square(row, col)] + t;
    forall i | 0 <= i < |s| - 1 ensures s[i + 1] == Square(s[i].row + d.0, s[i].col + d.1) {
      if i > 0 {
        assert s[i] == t[i - 1] && s[i + 1] == t[i];
      }
    }
    forall i | 0 < i < |s| ensures OnBoard(s[i].row, s[i].col) && (i < |s| - 1 ==> !Occupied(board, s[i].row, s[i].col)) {
      assert s[i] == t[i - 1];
    }
  }

  /** How a ray ends: an occupied last square is an enemy's, and after an empty one the ray meets the edge or a friend. */
  lemma RayEnd(piece: Piece, board: seq<Piece>, row: int, col: int, d: Offset)
    requires IsDirection(d)
    ensures var s := Ray(piece, board, row, col, d);
            && (|s| > 0 && Occupied(board, s[|s| - 1].row, s[|s| - 1].col) ==>
                  IsEnemy(piece, board, s[|s| - 1].row, s[|s| - 1].col))
            && (var next := if |s| == 0 then Square(row, col) else Square(s[|s| - 1].row + d.0, s[|s| - 1].col + d.1);
                (|s| == 0 || !Occupied(board, s[|s| - 1].row, s[|s| - 1].col)) ==>
                  !OnBoard(next.row, next.col) || IsFriendly(piece, board, next.row, next.col))
  {
    RayLastEnemy(piece, board, row, col, d);
    RayStop(piece, board, row, col, d);
  }

  /** s is empty, or its last square is empty or an enemy's. */
  predicate EndsOnEnemy(piece: Piece, board: seq<Piece>, s: seq<Square>)
  {
    |s| > 0 && Occupied(board, s[|s| - 1].row, s[|s| - 1].col) ==> IsEnemy(piece, board, s[|s| - 1].row, s[|s| - 1].col)
  }

  /** A ray that ends on an occupied square ends on an enemy. */
  lemma {:induction false} RayLastEnemy(piece: Piece, board: seq<Piece>, row: int, col: int, d: Offset)
    requires IsDirection(d)
    ensures EndsOnEnemy(piece, board, Ray(piece, board, row, col, d))
    decreases Room(row, d.0) + Room(col, d.1)
  {
    if OnBoard(row, col) && !Occupied(board, row, col) {
      var t := Ray(piece, board, row + d.0, col + d.1, d);
      RayLastEnemy(piece, board, row + d.0, col + d.1, d);
      RayOverEmpty(piece, board, row, col, d);
      EndsOnEnemyCons(piece, board, Square(row, col), t);
    } else if OnBoard(row, col) {
      RayAtOccupied(piece, board, row, col, d);
    }
  }

  lemma EndsOnEnemyCons(piece: Piece, board: seq<Piece>, sq: Square, t: seq<Square>)
    requires !Occupied(board, sq.row, sq.col) && EndsOnEnemy(piece, board, t)
    ensures EndsOnEnemy(piece, board, [sq] + t)
  {
    Seqs.LastOfCons(sq, t);
  }

  /** The square after s (after (row, col) when s is empty) is off the board or a friend's, unless s ends occupied. */
  predicate StopsBeforeFriend(piece: Piece, board: seq<Piece>, s: seq<Square>, row: int, col: int, d: Offset)
  {
    var next := if |s| == 0 then Square(row, col) else Square(s[|s| - 1].row + d.0, s[|s| - 1].col + d.1);
    (|s| == 0 || !Occupied(board, s[|s| - 1].row, s[|s| - 1].col)) ==>
      !OnBoard(next.row, next.col) || IsFriendly(piece, board, next.row, next.col)
  }

  /** A ray whose last square is empty (or that is empty) stops at the edge or before a friend. */
  lemma {:induction false} RayStop(piece: Piece, board: seq<Piece>, row: int, col: int, d: Offset)
    requires IsDirection(d)
    ensures StopsBeforeFriend(piece, board, Ray(piece, board, row, col, d), row, col, d)
    decreases Room(row, d.0) + Room(col, d.1)
  {
    if !OnBoard(row, col) {
      assert Ray(piece, board, row, col, d) == [];
    } else if !Occupied(board, row, col) {
      var t := Ray(piece, board, row + d.0, col + d.1, d);
      RayStop(piece, board, row + d.0, col + d.1, d);
      RayOverEmpty(piece, board, row, col, d);
      StopsCons(piece, board, t, row, col, d);
    } else {
      RayAtOccupied(piece, board, row, col, d);
      SquareStates(piece, board, row, col);
    }
  }

  lemma StopsCons(piece: Piece, board: seq<Piece>, t: seq<Square>, row: int, col: int, d: Offset)
    requires !Occupied(board, row, col) && StopsBeforeFriend(piece, board, t, row + d.0, col + d.1, d)
    ensures StopsBeforeFriend(piece, board, [Square(row, col)] + t, row, col, d)
  {
    Seqs.LastOfCons(Square(row, col), t);
  }

  /** Every square of a ray is on the board and not held by a friend. */
  lemma RayTargetsSafe(piece: Piece, board: seq<Piece>, row: int, col: int, d: Offset)
    requires IsDirection(d)
    ensures forall m :: m in Ray(piece, board, row, col, d) ==>
              OnBoard(m.row, m.col) && !IsFriendly(piece, board, m.row, m.col)
  {
    var s := Ray(piece, board, row, col, d);
    RayShape(piece, board, row, col, d);
    forall m | m in s ensures OnBoard(m.row, m.col) && !IsFriendly(piece, board, m.row, m.col) {
      var i :| 0 <= i < |s| && s[i] == m;
      SquareStates(piece, board, m.row, m.col);
    }
  }

  lemma {:induction false} RaysTargetsSafe(piece: Piece, board: seq<Piece>, dirs: seq<Offset>)
    requires forall d :: d in dirs ==> IsDirection(d)
    ensures forall m :: m in Rays(piece, board, dirs) ==>
              OnBoard(m.row, m.col) && !IsFriendly(piece, board, m.row, m.col)
  {
    if dirs != [] {
      RayTargetsSafe(piece, board, piece.row + dirs[0].0, piece.col + dirs[0].1, dirs[0]);
      RaysTargetsSafe(piece, board, dirs[1..]);
    }
  }

  /** m is the square `piece` reaches by one of the offsets. */
  predicate Reaches(piece: Piece, offsets: seq<Offset>, m: Square)
  {
    exists k :: 0 <= k < |offsets| && m == Square(piece.row + offsets[k].0, piece.col + offsets[k].1)
  }

  lemma ReachesCons(piece: Piece, offsets: seq<Offset>, m: Square)
    requires offsets != []
    ensures Reaches(piece, offsets, m) <==>
              m == Square(piece.row + offsets[0].0, piece.col + offsets[0].1) || Reaches(piece, offsets[1..], m)
  {
    if Reaches(piece, offsets, m) {
      var k :| 0 <= k < |offsets| && m == Square(piece.row + offsets[k].0, piece.col + offsets[k].1);
      if k > 0 {
        assert offsets[1..][k - 1] == offsets[k];
      }
    }
    if Reaches(piece, offsets[1..], m) {
      var k :| 0 <= k < |offsets[1..]| && m == Square(piece.row + offsets[1..][k].0, piece.col + offsets[1..][k].1);
      assert offsets[k + 1] == offsets[1..][k];
    }
  }

  /** A knight or king step target is exactly an offset square that is on the board and not held by a friend. */
  lemma {:induction false} StepsExactly(piece: Piece, board: seq<Piece>, offsets: seq<Offset>, m: Square)
    ensures m in Steps(piece, board, offsets) <==>
              Reaches(piece, offsets, m) && OnBoard(m.row, m.col) && !IsFriendly(piece, board, m.row, m.col)
  {
    if offsets != [] {
      StepsExactly(piece, board, offsets[1..], m);
      ReachesCons(piece, offsets, m);
      SquareStates(piece, board, m.row, m.col);
    }
  }

  /**
   * No pseudo-legal target holds a piece of the mover's colour, except that a
   * pawn may be offered the en-passant square whatever stands on it.
   */
  lemma PseudoLegalNeverFriendly(piece: Piece, board: seq<Piece>, ep: Option<Square>)
    ensures forall m :: m in PseudoLegalMoves(piece, board, ep) ==>
              !IsFriendly(piece, board, m.row, m.col) || (piece.kind == Pawn && ep == Some(m))
  {
    match piece.kind
    case Pawn => PawnNeverFriendly(piece, board, ep);
    case Rook => RaysTargetsSafe(piece, board, RookDirs);
    case Bishop => RaysTargetsSafe(piece, board, BishopDirs);
    case Queen => RaysTargetsSafe(piece, board, QueenDirs);
    case Knight => StepsSafe(piece, board, KnightJumps);
    case King =>
      StepsSafe(piece, board, KingSteps);
      CastlingSafe(piece, board);
  }

  /** A pawn's target is empty, an enemy's, or the en-passant square. */
  lemma PawnNeverFriendly(piece: Piece, board: seq<Piece>, ep: Option<Square>)
    ensures forall m :: m in PawnMoves(piece, board, ep) ==> !IsFriendly(piece, board, m.row, m.col) || ep == Some(m)
  {
    PawnTargets(piece, board, ep);
    forall m | m in PawnMoves(piece, board, ep) ensures !IsFriendly(piece, board, m.row, m.col) || ep == Some(m) {
      SquareStates(piece, board, m.row, m.col);
    }
  }

  /** Every knight or king step target is on the board and not a friend's. */
  lemma StepsSafe(piece: Piece, board: seq<Piece>, offsets: seq<Offset>)
    ensures forall m :: m in Steps(piece, board, offsets) ==>
              OnBoard(m.row, m.col) && !IsFriendly(piece, board, m.row, m.col)
  {
    forall m | m in Steps(piece, board, offsets) ensures OnBoard(m.row, m.col) && !IsFriendly(piece, board, m.row, m.col) {
      StepsExactly(piece, board, offsets, m);
    }
  }

  /** Castling targets an empty square on the king's row. */
  lemma CastlingSafe(piece: Piece, board: seq<Piece>)
    ensures forall m :: m in Castling(piece, board) ==>
              m.row == piece.row && !Occupied(board, m.row, m.col) && !IsFriendly(piece, board, m.row, m.col)
  {
    forall m | m in Castling(piece, board)
      ensures m.row == piece.row && !Occupied(board, m.row, m.col) && !IsFriendly(piece, board, m.row, m.col)
    {
      assert m == Square(piece.row, 6) || m == Square(piece.row, 2);
    }
  }

  /**
   * On a board whose pieces all stand on the 8x8 grid, with an on-board piece
   * and en-passant square, every target is on the grid except a pawn's
   * forward move, which is not bounds-checked.
   */
  lemma PseudoLegalOnBoard(piece: Piece, board: seq<Piece>, ep: Option<Square>)
    requires forall p :: p in board ==> OnBoard(p.row, p.col)
    requires OnBoard(piece.row, piece.col)
    requires ep.Some? ==> OnBoard(ep.value.row, ep.value.col)
    ensures forall m :: m in PseudoLegalMoves(piece, board, ep) ==>
              OnBoard(m.row, m.col) || (piece.kind == Pawn && m.col == piece.col)
  {
    match piece.kind
    case Pawn => PawnDiagonalsOnBoard(piece, board, ep);
    case Rook => RaysTargetsSafe(piece, board, RookDirs);
    case Bishop => RaysTargetsSafe(piece, board, BishopDirs);
    case Queen => RaysTargetsSafe(piece, board, QueenDirs);
    case Knight => StepsSafe(piece, board, KnightJumps);
    case King =>
      StepsSafe(piece, board, KingSteps);
      CastlingOnBoard(piece, board);
  }

  /** A pawn's diagonal targets are an enemy's square or the en-passant square, so on the grid. */
  lemma PawnDiagonalsOnBoard(piece: Piece, board: seq<Piece>, ep: Option<Square>)
    requires forall p :: p in board ==> OnBoard(p.row, p.col)
    requires ep.Some? ==> OnBoard(ep.value.row, ep.value.col)
    ensures forall m :: m in PawnMoves(piece, board, ep) && m.col != piece.col ==> OnBoard(m.row, m.col)
  {
    PawnTargets(piece, board, ep);
    forall m | m in PawnMoves(piece, board, ep) && m.col != piece.col ensures OnBoard(m.row, m.col) {
      if IsEnemy(piece, board, m.row, m.col) {
        var t := PieceAt(board, m.row, m.col);
        assert t.value in board;
      }
    }
  }

  /** Castling targets columns 6 and 2 of an on-board king's row. */
  lemma CastlingOnBoard(piece: Piece, board: seq<Piece>)
    requires OnBoard(piece.row, piece.col)
    ensures forall m :: m in Castling(piece, board) ==> OnBoard(m.row, m.col)
  {
  }

  /** A king move that changes the column by two can only be a castling move. */
  lemma KingWideMoveIsCastling(piece: Piece, board: seq<Piece>, ep: Option<Square>, m: Square)
    requires piece.kind == King && m in PseudoLegalMoves(piece, board, ep)
    requires m.col - piece.col == 2 || piece.col - m.col == 2
    ensures m in Castling(piece, board)
    ensures m.row == piece.row
  {
    StepsExactly(piece, board, KingSteps, m);
    KingStepsNear(piece, m);
    assert m !in Steps(piece, board, KingSteps);
    assert PseudoLegalMoves(piece, board, ep) == Steps(piece, board, KingSteps) + Castling(piece, board);
  }

  /** A king step changes the column by at most one. */
  lemma KingStepsNear(piece: Piece, m: Square)
    ensures Reaches(piece, KingSteps, m) ==> -1 <= m.col - piece.col <= 1
  {
    if Reaches(piece, KingSteps, m) {
      var k :| 0 <= k < |KingSteps| && m == Square(piece.row + KingSteps[k].0, piece.col + KingSteps[k].1);
      assert -1 <= KingSteps[k].1 <= 1;
    }
  }
}
