/**
 * Queries and filters over a board, which is a list of pieces with empty
 * squares left out. Looking a square up returns the FIRST piece in list order
 * that stands there, as a linear `find` over the list does.
 */
module Boards {
  import opened Types
  import opened Seqs

  /** The first piece standing on (row, col), if any. */
  function PieceAt(board: seq<Piece>, row: int, col: int): (found: Option<Piece>)
    ensures found.Some? ==> found.value in board && At(found.value, row, col)
    ensures found.None? <==> forall p :: p in board ==> !At(p, row, col)
    ensures found.Some? && |board| > 0 && At(board[0], row, col) ==> found.value == board[0]
  {
    FindFrom(board, 0, row, col)
  }

  /** The piece the lookup finds is the first one on the square in list order. */
  lemma PieceAtFirst(board: seq<Piece>, row: int, col: int)
    ensures PieceAt(board, row, col).Some? ==>
              exists j :: 0 <= j < |board| && board[j] == PieceAt(board, row, col).value
                          && forall k :: 0 <= k < j ==> !At(board[k], row, col)
  {
    FindFromFirst(board, 0, row, col);
  }

  /** The scan from index i finds the first piece on the square at or after i. */
  lemma {:induction false} FindFromFirst(board: seq<Piece>, i: nat, row: int, col: int)
    requires i <= |board|
    ensures FindFrom(board, i, row, col).Some? ==>
              exists j :: i <= j < |board| && board[j] == FindFrom(board, i, row, col).value
                          && forall k :: i <= k < j ==> !At(board[k], row, col)
    decreases |board| - i
  {
    if i < |board| && !At(board[i], row, col) {
      FindFromFirst(board, i + 1, row, col);
    }
  }

  /** The first piece at or after index i standing on (row, col): the scan of a linear `find`. */
  function FindFrom(board: seq<Piece>, i: nat, row: int, col: int): (found: Option<Piece>)
    requires i <= |board|
    ensures found.Some? ==> found.value in board && At(found.value, row, col)
    ensures found.None? <==> forall k :: i <= k < |board| ==> !At(board[k], row, col)
    ensures found.Some? && i < |board| && At(board[i], row, col) ==> found.value == board[i]
    decreases |board| - i
  {
    if i == |board| then None
    else if At(board[i], row, col) then Some(board[i])
    else FindFrom(board, i + 1, row, col)
  }

  predicate Occupied(board: seq<Piece>, row: int, col: int)
  {
    PieceAt(board, row, col).Some?
  }

  /** The board without every piece standing on `sq` (list order kept). */
  function RemoveAt(board: seq<Piece>, sq: Square): (rest: seq<Piece>)
    ensures forall p :: p in rest <==> p in board && SquareOf(p) != sq
    ensures |rest| <= |board|
    ensures multiset(rest) <= multiset(board)
    ensures forall p :: SquareOf(p) != sq ==> multiset(rest)[p] == multiset(board)[p]
    ensures IsSubsequence(rest, board)
  {
    if |board| == 0 then []
    else
      assert board == [board[0]] + board[1..];
      if SquareOf(board[0]) == sq then RemoveAt(board[1..], sq)
      else [board[0]] + RemoveAt(board[1..], sq)
  }

  /** Removing a square that holds a piece drops at least that piece. */
  lemma {:induction false} RemoveAtShrinks(board: seq<Piece>, sq: Square, p: Piece)
    requires p in board && SquareOf(p) == sq
    ensures |RemoveAt(board, sq)| < |board|
  {
    if SquareOf(board[0]) != sq {
      assert p in board[1..];
      RemoveAtShrinks(board[1..], sq, p);
    }
  }

  /** No two pieces of the list share a square. */
  predicate NoSharedSquare(board: seq<Piece>)
  {
    forall i, j :: 0 <= i < j < |board| ==> SquareOf(board[i]) != SquareOf(board[j])
  }

  /** The tail of a board without shared squares has none either, and none on the head's square. */
  lemma NoSharedSquareTail(board: seq<Piece>)
    requires |board| > 0 && NoSharedSquare(board)
    ensures NoSharedSquare(board[1..])
    ensures forall p :: p in board[1..] ==> SquareOf(p) != SquareOf(board[0])
  {
    var tail := board[1..];
    forall i, j | 0 <= i < j < |tail| ensures SquareOf(tail[i]) != SquareOf(tail[j]) {
      assert tail[i] == board[i + 1] && tail[j] == board[j + 1];
    }
    forall p | p in tail ensures SquareOf(p) != SquareOf(board[0]) {
      var k :| 0 <= k < |tail| && tail[k] == p;
      assert board[k + 1] == p;
    }
  }

  /** On a board without shared squares, two pieces on the same square are the same piece. */
  lemma SameSquareSamePiece(board: seq<Piece>, p: Piece, q: Piece)
    requires NoSharedSquare(board) && p in board && q in board && SquareOf(p) == SquareOf(q)
    ensures p == q
  {
    var i :| 0 <= i < |board| && board[i] == p;
    var j :| 0 <= j < |board| && board[j] == q;
    assert !(i < j) && !(j < i);
  }

  /** On a board without shared squares, removing one square drops at most one piece. */
  lemma RemoveAtDropsAtMostOne(board: seq<Piece>, sq: Square)
    requires NoSharedSquare(board)
    ensures NoSharedSquare(RemoveAt(board, sq))
    ensures |RemoveAt(board, sq)| == |board| - (if Occupied(board, sq.row, sq.col) then 1 else 0)
  {
    RemoveAtKeepsNoSharedSquare(board, sq);
    RemoveAtLength(board, sq);
  }

  lemma {:induction false} RemoveAtKeepsNoSharedSquare(board: seq<Piece>, sq: Square)
    requires NoSharedSquare(board)
    ensures NoSharedSquare(RemoveAt(board, sq))
  {
    if |board| > 0 {
      NoSharedSquareTail(board);
      RemoveAtKeepsNoSharedSquare(board[1..], sq);
      if SquareOf(board[0]) != sq {
        var restTail := RemoveAt(board[1..], sq);
        var rest := [board[0]] + restTail;
        assert RemoveAt(board, sq) == rest;
        forall i, j | 0 <= i < j < |rest| ensures SquareOf(rest[i]) != SquareOf(rest[j]) {
          assert rest[j] == restTail[j - 1];
          if i > 0 {
            assert rest[i] == restTail[i - 1];
          } else {
            assert rest[j] in board[1..];
          }
        }
      }
    }
  }

  lemma {:induction false} RemoveAtLength(board: seq<Piece>, sq: Square)
    requires NoSharedSquare(board)
    ensures |RemoveAt(board, sq)| == |board| - (if Occupied(board, sq.row, sq.col) then 1 else 0)
  {
    if |board| > 0 {
      NoSharedSquareTail(board);
      RemoveAtLength(board[1..], sq);
      PieceAtTail(board, sq.row, sq.col);
    }
  }

  /** Past a head that stands elsewhere, the lookup is the tail's lookup. */
  lemma PieceAtTail(board: seq<Piece>, row: int, col: int)
    requires |board| > 0
    ensures !At(board[0], row, col) ==> PieceAt(board, row, col) == PieceAt(board[1..], row, col)
  {
    if !At(board[0], row, col) {
      FindFromShift(board, 1, row, col);
    }
  }

  /** Scanning the list from index i finds what scanning its tail finds from index i - 1. */
  lemma {:induction false} FindFromShift(board: seq<Piece>, i: nat, row: int, col: int)
    requires 1 <= i <= |board|
    ensures FindFrom(board, i, row, col) == FindFrom(board[1..], i - 1, row, col)
    decreases |board| - i
  {
    if i < |board| {
      assert board[1..][i - 1] == board[i];
      FindFromShift(board, i + 1, row, col);
    }
  }
}
