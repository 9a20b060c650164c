/**
 * The move generator as the game runs it: one pass that appends target squares
 * to a list piece by piece (pushes and captures for a pawn, rays walked square
 * by square for sliding pieces, fixed offsets for knights and kings, then
 * castling), followed, unless check validation is switched off, by the
 * legality filter. Each part is proved to produce exactly the list that the
 * specification functions of Pseudo and Check describe.
 */
module MoveGen {
  import opened Types
  import opened Boards
  import opened Pseudo
  import opened Check
  import Seqs

  /**
   * The target squares of `piece`: with `ignoreCheckValidation` the raw
   * pseudo-legal list, otherwise that list without the moves that leave the
   * mover's own king in check. The board is only read.
   */
  method GetValidMoves(piece: Piece, board: seq<Piece>, ep: Option<Square>, ignoreCheckValidation: bool)
    returns (moves: seq<Square>)
    ensures ignoreCheckValidation ==> moves == PseudoLegalMoves(piece, board, ep)
    ensures !ignoreCheckValidation ==> moves == LegalMoves(piece, board, ep)
  {
    moves := [];
    match piece.kind {
      case Pawn => moves := AddPawnMoves(piece, board, ep, moves);
      case Rook => moves := AddRays(piece, board, RookDirs, moves);
      case Bishop => moves := AddRays(piece, board, BishopDirs, moves);
      case Queen => moves := AddRays(piece, board, QueenDirs, moves);
      case Knight => moves := AddSteps(piece, board, KnightJumps, moves);
      case King =>
        moves := AddSteps(piece, board, KingSteps, moves);
        Seqs.AppendAssoc([], Steps(piece, board, KingSteps), Castling(piece, board));
        moves := AddCastling(piece, board, moves);
    }
    assert moves == PseudoLegalMoves(piece, board, ep);
    if ignoreCheckValidation {
      return;
    }
    moves := SafeMoves(piece, board, moves);
  }

  /** Appends the pawn's forward moves, then for the left and right diagonal its capture and en-passant entries. */
  method AddPawnMoves(piece: Piece, board: seq<Piece>, ep: Option<Square>, moves0: seq<Square>)
    returns (moves: seq<Square>)
    ensures moves == moves0 + PawnMoves(piece, board, ep)
  {
    Seqs.AppendAssoc(moves0, PawnPushes(piece, board), PawnCaptures(piece, board, ep, PawnCaptureCols));
    moves := AddPawnPushes(piece, board, moves0);
    moves := AddPawnCaptures(piece, board, ep, PawnCaptureCols, moves);
  }

  /** Tries the diagonals of the given column offsets in turn. */
  method AddPawnCaptures(piece: Piece, board: seq<Piece>, ep: Option<Square>, dcs: seq<int>, moves0: seq<Square>)
    returns (moves: seq<Square>)
    ensures moves == moves0 + PawnCaptures(piece, board, ep, dcs)
  {
    moves := moves0;
    var i := 0;
    while i < |dcs|
      invariant 0 <= i <= |dcs|
      invariant moves + PawnCaptures(piece, board, ep, dcs[i..]) == moves0 + PawnCaptures(piece, board, ep, dcs)
    {
      assert dcs[i..][1..] == dcs[i + 1..];
      var diag := PawnCapture(piece, board, ep, dcs[i]);
      var later := PawnCaptures(piece, board, ep, dcs[i + 1..]);
      assert PawnCaptures(piece, board, ep, dcs[i..]) == diag + later;
      Seqs.AppendAssoc(moves, diag, later);
      moves := AddPawnCapture(piece, board, ep, dcs[i], moves);
      i := i + 1;
    }
  }

  /** One square forward if empty; from the start row, two squares if both are empty. */
  method AddPawnPushes(piece: Piece, board: seq<Piece>, moves0: seq<Square>) returns (moves: seq<Square>)
    ensures moves == moves0 + PawnPushes(piece, board)
  {
    moves := moves0;
    var dir := if piece.color == White then -1 else 1;
    var startRow := if piece.color == White then 6 else 1;
    var forward1 := piece.row + dir;
    var forward2 := piece.row + 2 * dir;
    if !Occupied(board, forward1, piece.col) {
      moves := moves + [Square(forward1, piece.col)];
      if piece.row == startRow && !Occupied(board, forward2, piece.col) {
        moves := moves + [Square(forward2, piece.col)];
      }
    }
  }

  /** The diagonal in column offset dc: an enemy there, then the en-passant target if it is that square. */
  method AddPawnCapture(piece: Piece, board: seq<Piece>, ep: Option<Square>, dc: int, moves0: seq<Square>)
    returns (moves: seq<Square>)
    ensures moves == moves0 + PawnCapture(piece, board, ep, dc)
  {
    moves := moves0;
    var r := piece.row + (if piece.color == White then -1 else 1);
    var c := piece.col + dc;
    if IsEnemy(piece, board, r, c) {
      moves := moves + [Square(r, c)];
    }
    if ep.Some? && ep.value.row == r && ep.value.col == c {
      moves := moves + [Square(r, c)];
    }
  }

  /** Walks the rays of the piece's directions one after another. */
  method AddRays(piece: Piece, board: seq<Piece>, dirs: seq<Offset>, moves0: seq<Square>)
    returns (moves: seq<Square>)
    requires forall d :: d in dirs ==> IsDirection(d)
    ensures moves == moves0 + Rays(piece, board, dirs)
  {
    moves := moves0;
    var k := 0;
    while k < |dirs|
      invariant 0 <= k <= |dirs|
      invariant moves + Rays(piece, board, dirs[k..]) == moves0 + Rays(piece, board, dirs)
    {
      assert dirs[k..][1..] == dirs[k + 1..];
      var ray := Ray(piece, board, piece.row + dirs[k].0, piece.col + dirs[k].1, dirs[k]);
      var later := Rays(piece, board, dirs[k + 1..]);
      assert Rays(piece, board, dirs[k..]) == ray + later;
      Seqs.AppendAssoc(moves, ray, later);
      moves := WalkRay(piece, board, dirs[k], moves);
      k := k + 1;
    }
  }

  /** Walks from the square next to the piece in direction d until the edge or the first occupied square. */
  method WalkRay(piece: Piece, board: seq<Piece>, d: Offset, moves0: seq<Square>) returns (moves: seq<Square>)
    requires IsDirection(d)
    ensures moves == moves0 + Ray(piece, board, piece.row + d.0, piece.col + d.1, d)
  {
    moves := moves0;
    var r, c := piece.row + d.0, piece.col + d.1;
    ghost var total := moves0 + Ray(piece, board, r, c, d);
    while 0 <= r <= 7 && 0 <= c <= 7
      invariant moves + Ray(piece, board, r, c, d) == total
      decreases Room(r, d.0) + Room(c, d.1)
    {
      if Occupied(board, r, c) {
        WalkRayEnd(piece, board, r, c, d, moves, total);
        if IsEnemy(piece, board, r, c) {
          moves := moves + [Square(r, c)];
        }
        return;
      }
      WalkRayStep(piece, board, r, c, d, moves, total);
      moves := moves + [Square(r, c)];
      r, c := r + d.0, c + d.1;
    }
    assert Ray(piece, board, r, c, d) == [];
  }

  /** One step of the walk over an empty square keeps the moves plus the rest of the ray equal to the total. */
  lemma WalkRayStep(piece: Piece, board: seq<Piece>, r: int, c: int, d: Offset, moves: seq<Square>, total: seq<Square>)
    requires IsDirection(d) && OnBoard(r, c) && !Occupied(board, r, c)
    requires moves + Ray(piece, board, r, c, d) == total
    ensures (moves + [Square(r, c)]) + Ray(piece, board, r + d.0, c + d.1, d) == total
  {
    RayOverEmpty(piece, board, r, c, d);
    Seqs.AppendAssoc(moves, [Square(r, c)], Ray(piece, board, r + d.0, c + d.1, d));
  }

  /** At an occupied square the walk's moves become the total, with the square only when an enemy holds it. */
  lemma WalkRayEnd(piece: Piece, board: seq<Piece>, r: int, c: int, d: Offset, moves: seq<Square>, total: seq<Square>)
    requires IsDirection(d) && OnBoard(r, c) && Occupied(board, r, c)
    requires moves + Ray(piece, board, r, c, d) == total
    ensures (if IsEnemy(piece, board, r, c) then moves + [Square(r, c)] else moves) == total
  {
    RayAtOccupied(piece, board, r, c, d);
  }

  /** Tries each offset in turn. */
  method AddSteps(piece: Piece, board: seq<Piece>, offsets: seq<Offset>, moves0: seq<Square>)
    returns (moves: seq<Square>)
    ensures moves == moves0 + Steps(piece, board, offsets)
  {
    moves := moves0;
    var k := 0;
    while k < |offsets|
      invariant 0 <= k <= |offsets|
      invariant moves + Steps(piece, board, offsets[k..]) == moves0 + Steps(piece, board, offsets)
    {
      assert offsets[k..][1..] == offsets[k + 1..];
      var step := StepTarget(piece, board, piece.row + offsets[k].0, piece.col + offsets[k].1);
      var later := Steps(piece, board, offsets[k + 1..]);
      assert Steps(piece, board, offsets[k..]) == step + later;
      Seqs.AppendAssoc(moves, step, later);
      moves := AddMove(piece, board, piece.row + offsets[k].0, piece.col + offsets[k].1, moves);
      k := k + 1;
    }
  }

  /** Appends (row, col) when it is on the board and not held by a piece of the mover's colour. */
  method AddMove(piece: Piece, board: seq<Piece>, row: int, col: int, moves0: seq<Square>) returns (moves: seq<Square>)
    ensures moves == moves0 + StepTarget(piece, board, row, col)
  {
    moves := moves0;
    if row >= 0 && row <= 7 && col >= 0 && col <= 7 {
      var target := PieceAt(board, row, col);
      if target.None? || target.value.color != piece.color {
        moves := moves + [Square(row, col)];
      }
    }
  }

  /** Appends king-side then queen-side castling when the king has not moved and the rook and path allow it. */
  method AddCastling(piece: Piece, board: seq<Piece>, moves0: seq<Square>) returns (moves: seq<Square>)
    ensures moves == moves0 + Castling(piece, board)
  {
    moves := moves0;
    if !piece.hasMoved {
      var row := piece.row;
      var rookKingside := PieceAt(board, row, 7);
      if rookKingside.Some? && rookKingside.value.kind == Rook && !rookKingside.value.hasMoved
         && !Occupied(board, row, 5) && !Occupied(board, row, 6)
      {
        moves := moves + [Square(row, 6)];
      }
      var rookQueenside := PieceAt(board, row, 0);
      if rookQueenside.Some? && rookQueenside.value.kind == Rook && !rookQueenside.value.hasMoved
         && !Occupied(board, row, 1) && !Occupied(board, row, 2) && !Occupied(board, row, 3)
      {
        moves := moves + [Square(row, 2)];
      }
    }
  }
}
