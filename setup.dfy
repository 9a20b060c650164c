/**
 * The starting position: white's back rank on row 7 and its pawns on row 6,
 * then black's back rank on row 0 and its pawns on row 1, every piece unmoved.
 * Both back ranks read rook, knight, bishop, queen, king, bishop, knight, rook
 * from column 0 to column 7.
 */
module Setup {
  import opened Types
  import opened Boards
  import opened Pseudo
  import opened Check

  /** The back-rank kinds from column 0 to column 7. */
  const BackRankKinds: seq<PieceType> := [Rook, Knight, Bishop, Queen, King, Bishop, Knight, Rook]

  /** The row a side's back rank stands on. */
  function HomeRow(c: Color): int
  {
    if c == White then 7 else 0
  }

  /** Eight unmoved pieces of `color` on `row`, kinds in back-rank order. */
  function BackRank(color: Color, row: int): (rank: seq<Piece>)
    ensures |rank| == 8
    ensures forall i :: 0 <= i < 8 ==> rank[i] == Piece(BackRankKinds[i], color, row, i, false)
  {
    seq(8, i requires 0 <= i < 8 => Piece(BackRankKinds[i], color, row, i, false))
  }

  /** One unmoved pawn of `color` per column of `row`. */
  function PawnRank(color: Color, row: int): (pawns: seq<Piece>)
    ensures |pawns| == 8
    ensures forall i :: 0 <= i < 8 ==> pawns[i] == Piece(Pawn, color, row, i, false)
  {
    seq(8, i requires 0 <= i < 8 => Piece(Pawn, color, row, i, false))
  }

  /** The 32-piece starting list, in the order it is written down. */
  function InitialPieces(): (pieces: seq<Piece>)
    ensures |pieces| == 32
  {
    BackRank(White, 7) + PawnRank(White, 6) + BackRank(Black, 0) + PawnRank(Black, 1)
  }

  /** The row of the piece at index i of the starting list. */
  function RowAt(i: int): int
  {
    if i < 8 then 7 else if i < 16 then 6 else if i < 24 then 0 else 1
  }

  /** The first index of the group of eight that index i falls in. */
  function GroupStart(i: int): int
  {
    if i < 8 then 0 else if i < 16 then 8 else if i < 24 then 16 else 24
  }

  /**
   * The layout of the starting list: entries 0-15 are white and 16-31 black;
   * within each colour the back rank comes first, then the pawns; the column of
   * an entry is its place within its group of eight.
   */
  lemma InitialLayout(i: int)
    requires 0 <= i < 32
    ensures var p := InitialPieces()[i];
      && p.color == (if i < 16 then White else Black)
      && p.row == RowAt(i)
      && p.col == i - GroupStart(i)
      && p.kind == (if i < 8 || 16 <= i < 24 then BackRankKinds[i - GroupStart(i)] else Pawn)
      && !p.hasMoved
  {
    var a, b, c, d := BackRank(White, 7), PawnRank(White, 6), BackRank(Black, 0), PawnRank(Black, 1);
    var pieces := InitialPieces();
    assert pieces == ((a + b) + c) + d;
    if i < 8 {
      assert pieces[i] == a[i];
    } else if i < 16 {
      assert pieces[i] == b[i - 8];
    } else if i < 24 {
      assert pieces[i] == c[i - 16];
    } else {
      assert pieces[i] == d[i - 24];
    }
  }

  /** The starting list is 16 white pieces followed by 16 black ones. */
  lemma InitialColors()
    ensures forall i :: 0 <= i < 16 ==> InitialPieces()[i].color == White
    ensures forall i :: 16 <= i < 32 ==> InitialPieces()[i].color == Black
  {
    forall i | 0 <= i < 32 ensures InitialPieces()[i].color == (if i < 16 then White else Black) {
      InitialLayout(i);
    }
  }

  /** The starting list holds 16 pieces of each colour. */
  lemma InitialCounts()
    ensures CountColor(InitialPieces(), White) == 16
    ensures CountColor(InitialPieces(), Black) == 16
  {
    var pieces := InitialPieces();
    var whites, blacks := pieces[..16], pieces[16..];
    InitialColors();
    assert pieces == whites + blacks;
    CountColorAppend(whites, blacks, White);
    CountColorAppend(whites, blacks, Black);
    CountColorAll(whites, White);
    CountColorAll(blacks, Black);
    CountColorNone(whites, Black);
    CountColorNone(blacks, White);
  }

  /** How many pieces of the list have colour c. */
  function CountColor(board: seq<Piece>, c: Color): nat
  {
    if |board| == 0 then 0
    else CountColor(board[..|board| - 1], c) + (if board[|board| - 1].color == c then 1 else 0)
  }

  lemma {:induction false} CountColorAppend(a: seq<Piece>, b: seq<Piece>, c: Color)
    ensures CountColor(a + b, c) == CountColor(a, c) + CountColor(b, c)
    decreases |b|
  {
    if |b| > 0 {
      var front := b[..|b| - 1];
      assert (a + b)[..|a + b| - 1] == a + front;
      assert (a + b)[|a + b| - 1] == b[|b| - 1];
      CountColorAppend(a, front, c);
    } else {
      assert a + b == a;
    }
  }

  lemma {:induction false} CountColorAll(s: seq<Piece>, c: Color)
    requires forall i :: 0 <= i < |s| ==> s[i].color == c
    ensures CountColor(s, c) == |s|
  {
    if |s| > 0 {
      CountColorAll(s[..|s| - 1], c);
    }
  }

  lemma {:induction false} CountColorNone(s: seq<Piece>, c: Color)
    requires forall i :: 0 <= i < |s| ==> s[i].color != c
    ensures CountColor(s, c) == 0
  {
    if |s| > 0 {
      CountColorNone(s[..|s| - 1], c);
    }
  }

  /** No two pieces of the starting list share a square, and all are on the board. */
  lemma InitialSquares()
    ensures NoSharedSquare(InitialPieces())
    ensures forall p :: p in InitialPieces() ==> OnBoard(p.row, p.col)
  {
    var pieces := InitialPieces();
    forall i, j | 0 <= i < j < 32 ensures SquareOf(pieces[i]) != SquareOf(pieces[j]) {
      InitialLayout(i);
      InitialLayout(j);
    }
    forall p | p in pieces ensures OnBoard(p.row, p.col) {
      var i :| 0 <= i < 32 && pieces[i] == p;
      InitialLayout(i);
    }
  }

  /** Every piece starts unmoved, and every pawn starts on its side's double-step row. */
  lemma InitialUnmoved()
    ensures forall p :: p in InitialPieces() ==> !p.hasMoved
    ensures forall p :: p in InitialPieces() && p.kind == Pawn ==> p.row == PawnStartRow(p.color)
    ensures forall p :: p in InitialPieces() && p.kind != Pawn ==> p.row == HomeRow(p.color)
  {
    var pieces := InitialPieces();
    forall p | p in pieces
      ensures !p.hasMoved
      ensures p.kind == Pawn ==> p.row == PawnStartRow(p.color)
      ensures p.kind != Pawn ==> p.row == HomeRow(p.color)
    {
      var i :| 0 <= i < 32 && pieces[i] == p;
      InitialLayout(i);
    }
  }

  /** Each side has exactly one king, white's on (7, 4) and black's on (0, 4); those are the kings found. */
  lemma InitialKings()
    ensures forall p :: p in InitialPieces() && p.kind == King ==>
              p == Piece(King, p.color, HomeRow(p.color), 4, false)
    ensures FindKing(InitialPieces(), White) == Some(Piece(King, White, 7, 4, false))
    ensures FindKing(InitialPieces(), Black) == Some(Piece(King, Black, 0, 4, false))
  {
    var pieces := InitialPieces();
    forall p | p in pieces && p.kind == King ensures p == Piece(King, p.color, HomeRow(p.color), 4, false) {
      var i :| 0 <= i < 32 && pieces[i] == p;
      InitialLayout(i);
    }
    InitialLayout(4);
    InitialLayout(20);
    var white, black := FindKing(pieces, White), FindKing(pieces, Black);
    assert pieces[4] in pieces && pieces[20] in pieces;
    assert white.Some? && black.Some?;
  }
}
