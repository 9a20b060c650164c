/**
 * Check detection and the legality filter.
 *
 * A side is in check when its king's square is a pseudo-legal target of some
 * piece of the other colour (computed with no en-passant target). A candidate
 * move is tested by simulating it as a plain relocation of one piece: whatever
 * stands on the destination is dropped and the mover is put there; en passant
 * and the castling rook are not simulated.
 *
 * The move generator and check detection use each other; here the legality
 * filter is defined next to check detection, on top of the pseudo-legal
 * generator, so that the dependency runs one way only.
 */
module Check {
  import opened Types
  import opened Boards
  import opened Pseudo
  import opened Seqs

  /** The first king of `color` in list order. */
  function FindKing(board: seq<Piece>, color: Color): (king: Option<Piece>)
    ensures king.Some? ==> king.value in board && king.value.kind == King && king.value.color == color
    ensures king.None? <==> forall p :: p in board ==> !(p.kind == King && p.color == color)
    ensures king.Some? ==>
              exists j :: 0 <= j < |board| && board[j] == king.value
                          && forall k :: 0 <= k < j ==> !(board[k].kind == King && board[k].color == color)
  {
    if |board| == 0 then None
    else if board[0].kind == King && board[0].color == color then Some(board[0])
    else
      var king := FindKing(board[1..], color);
      FirstKingShift(board, color, king);
      king
  }

  /** A first king of the tail, past a head that is not such a king, is a first king of the board. */
  lemma FirstKingShift(board: seq<Piece>, color: Color, king: Option<Piece>)
    requires |board| > 0 && !(board[0].kind == King && board[0].color == color)
    requires king.Some? ==>
               exists j :: 0 <= j < |board| - 1 && board[1..][j] == king.value
                           && forall k :: 0 <= k < j ==> !(board[1..][k].kind == King && board[1..][k].color == color)
    ensures king.Some? ==>
              exists j :: 0 <= j < |board| && board[j] == king.value
                          && forall k :: 0 <= k < j ==> !(board[k].kind == King && board[k].color == color)
  {
    if king.Some? {
      var j :| 0 <= j < |board| - 1 && board[1..][j] == king.value
               && forall k :: 0 <= k < j ==> !(board[1..][k].kind == King && board[1..][k].color == color);
      forall k | 0 <= k < j + 1 ensures !(board[k].kind == King && board[k].color == color) {
        if k > 0 {
          assert board[k] == board[1..][k - 1];
        }
      }
      assert board[j + 1] == king.value;
    }
  }

  /** Some piece not of `color` has `sq` among its pseudo-legal targets. */
  predicate Attacked(color: Color, board: seq<Piece>, sq: Square)
  {
    exists p :: p in board && p.color != color && sq in PseudoLegalMoves(p, board, None)
  }

  /** The king of `color` stands on an attacked square; false when `color` has no king. */
  predicate InCheck(color: Color, board: seq<Piece>)
  {
    match FindKing(board, color)
    case None => false
    case Some(king) => Attacked(color, board, SquareOf(king))
  }

  /** With a single king of `color` on the board, the side is in check exactly when that king's square is attacked. */
  lemma InCheckOfKing(color: Color, board: seq<Piece>, king: Piece)
    requires king in board && king.kind == King && king.color == color
    requires forall q :: q in board && q.kind == King && q.color == color ==> q == king
    ensures InCheck(color, board) <==> Attacked(color, board, SquareOf(king))
  {
  }

  lemma NoKingNoCheck(color: Color, board: seq<Piece>)
    requires forall p :: p in board ==> !(p.kind == King && p.color == color)
    ensures !InCheck(color, board)
  {
  }

  /** `p` as it stands after relocating whatever is on `from` to `to`. */
  function Shift(p: Piece, from: Square, to: Square): Piece
  {
    if SquareOf(p) == from then p.(row := to.row, col := to.col) else p
  }

  /** Every piece on `from` moved to `to`, everything else as it was, order kept. */
  function Relocate(board: seq<Piece>, from: Square, to: Square): (moved: seq<Piece>)
    ensures |moved| == |board|
    ensures forall i :: 0 <= i < |board| ==> moved[i] == Shift(board[i], from, to)
  {
    if |board| == 0 then [] else [Shift(board[0], from, to)] + Relocate(board[1..], from, to)
  }

  /**
   * The board on which a move from `from` to `to` is tried: pieces on `to` are
   * dropped, pieces on `from` go to `to` with kind, colour and hasMoved
   * unchanged, and every other piece stays where it was.
   */
  function Simulate(board: seq<Piece>, from: Square, to: Square): (sim: seq<Piece>)
    ensures forall q :: q in sim ==>
              || (exists p :: p in board && SquareOf(p) == from && from != to && q == p.(row := to.row, col := to.col))
              || (q in board && SquareOf(q) != to && SquareOf(q) != from)
    ensures forall p :: p in board && SquareOf(p) != to ==> Shift(p, from, to) in sim
    ensures |sim| == |RemoveAt(board, to)|
  {
    var kept := RemoveAt(board, to);
    var sim := Relocate(kept, from, to);
    assert forall q :: q in sim ==> exists i :: 0 <= i < |kept| && q == Shift(kept[i], from, to);
    assert forall p :: p in kept ==> Shift(p, from, to) in sim by {
      forall p | p in kept ensures Shift(p, from, to) in sim {
        var i :| 0 <= i < |kept| && kept[i] == p;
        assert sim[i] == Shift(p, from, to);
      }
    }
    sim
  }

  /** On a board without shared squares the simulation drops at most one piece. */
  lemma SimulateDropsAtMostOne(board: seq<Piece>, from: Square, to: Square)
    requires NoSharedSquare(board)
    ensures |Simulate(board, from, to)| == |board| || |Simulate(board, from, to)| == |board| - 1
  {
    RemoveAtDropsAtMostOne(board, to);
  }

  /** Trying `move` for `piece` leaves `piece`'s own side in check. */
  predicate InCheckAfterMove(piece: Piece, move: Square, board: seq<Piece>)
  {
    InCheck(piece.color, Simulate(board, SquareOf(piece), move))
  }

  /** The candidates after which `piece`'s side is not in check, in their original order. */
  function SafeMoves(piece: Piece, board: seq<Piece>, candidates: seq<Square>): (safe: seq<Square>)
    ensures forall m :: m in safe <==> m in candidates && !InCheckAfterMove(piece, m, board)
    ensures multiset(safe) <= multiset(candidates)
    ensures forall m :: !InCheckAfterMove(piece, m, board) ==> multiset(safe)[m] == multiset(candidates)[m]
    ensures IsSubsequence(safe, candidates)
  {
    if |candidates| == 0 then []
    else
      var first, rest := candidates[0], SafeMoves(piece, board, candidates[1..]);
      assert candidates == [first] + candidates[1..];
      if InCheckAfterMove(piece, first, board) then rest
      else
        assert ([first] + rest)[1..] == rest;
        [first] + rest
  }

  /** The legal moves: the pseudo-legal list filtered by the check test. */
  function LegalMoves(piece: Piece, board: seq<Piece>, ep: Option<Square>): (moves: seq<Square>)
    ensures forall m :: m in moves <==> m in PseudoLegalMoves(piece, board, ep) && !InCheckAfterMove(piece, m, board)
    ensures multiset(moves) <= multiset(PseudoLegalMoves(piece, board, ep))
    ensures forall m :: !InCheckAfterMove(piece, m, board) ==>
              multiset(moves)[m] == multiset(PseudoLegalMoves(piece, board, ep))[m]
    ensures IsSubsequence(moves, PseudoLegalMoves(piece, board, ep))
  {
    SafeMoves(piece, board, PseudoLegalMoves(piece, board, ep))
  }

  /** In check, and every legal move of every piece of `color` still leaves `color` in check. */
  predicate IsCheckmate(color: Color, board: seq<Piece>)
  {
    InCheck(color, board)
    && forall p :: p in board && p.color == color ==>
         forall m :: m in LegalMoves(p, board, None) ==> InCheck(color, Simulate(board, SquareOf(p), m))
  }

  /**
   * Because legal moves already exclude every move that leaves the king in
   * check, checkmate is exactly: in check, and no piece of that colour has a
   * legal move.
   */
  lemma CheckmateIffNoLegalMove(color: Color, board: seq<Piece>)
    ensures IsCheckmate(color, board) <==>
              InCheck(color, board) && forall p :: p in board && p.color == color ==> LegalMoves(p, board, None) == []
  {
    if !forall p :: p in board && p.color == color ==> LegalMoves(p, board, None) == [] {
      var p :| p in board && p.color == color && LegalMoves(p, board, None) != [];
      var m := LegalMoves(p, board, None)[0];
      assert m in LegalMoves(p, board, None);
      assert !InCheck(color, Simulate(board, SquareOf(p), m));
    }
  }
}
