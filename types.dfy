/**
 * The data model of the chess rules engine: piece kinds and colours, pieces on
 * an 8x8 grid addressed by (row, col), history entries and game modes.
 *
 * White starts on rows 6 and 7 and advances toward row 0; black starts on rows
 * 0 and 1 and advances toward row 7. Row and column are plain integers: nothing
 * in the data type confines them to 0..7, the move generator checks bounds.
 */
module Types {

  datatype Option<T> = None | Some(value: T)

  /** The six kinds of piece. */
  datatype PieceType = Pawn | Rook | Knight | Bishop | Queen | King

  /** The two sides. */
  datatype Color = White | Black

  /** A piece on the board; `hasMoved` drives castling rights. */
  datatype Piece = Piece(kind: PieceType, color: Color, row: int, col: int, hasMoved: bool)

  /** A target square, as produced by the move generator. */
  datatype Square = Square(row: int, col: int)

  /** One recorded ply: a snapshot of the board, the side to move and the halfmove clock. */
  datatype HistoryEntry = HistoryEntry(board: seq<Piece>, turn: Color, halfmoveClock: int)

  /** The time control chosen on the home screen. */
  datatype GameMode = Classic | Rapid | Blitz

  /** The other side. */
  function Opponent(c: Color): (r: Color)
    ensures r != c
  {
    if c == White then Black else White
  }

  predicate At(p: Piece, row: int, col: int)
  {
    p.row == row && p.col == col
  }

  function SquareOf(p: Piece): Square
  {
    Square(p.row, p.col)
  }

  predicate OnBoard(row: int, col: int)
  {
    0 <= row <= 7 && 0 <= col <= 7
  }
}
