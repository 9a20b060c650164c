# Chess rules engine and game screen, modelled in Dafny

This project models the rules core of a two-player chess app written in
TypeScript. It covers:

- the move generator `getValidMoves`;
- check detection and the legality filter (`isInCheck`, `isInCheckAfterMove`,
  `isCheckmate`);
- the draw rules (stalemate, insufficient material, fifty-move rule, threefold
  repetition over a canonical board string, six-ply perpetual check, the
  agreed-draw placeholder);
- the 32-piece starting position and the data types;
- the game screen's turn state machine: selecting a piece, moving it
  (captures, en passant, castling, promotion, the en-passant target, the
  halfmove clock, the turn), promotion, the draw offer, reset, the clock
  display, and the classification that follows a completed move.

A board is a list of pieces with empty squares left out. A square lookup
returns the first piece in list order that stands there, as the source's
`find` does. White starts on rows 6 and 7 and moves toward row 0; black starts
on rows 0 and 1 and moves toward row 7.

Modules, in dependency order:

- `Types` (types.dfy): the data model.
- `Seqs` (seqs.dfy): generic list facts.
- `Strings` (strings.dfy): decimal printing, the default string sort, joining.
- `Boards` (boards.dfy): lookups and filters over a board.
- `Pseudo` (pseudo.dfy): the pseudo-legal move lists, as functions.
- `Check` (check.dfy): check detection, the move simulation, the legality
  filter and checkmate.
- `MoveGen` (movegen.dfy): `getValidMoves` as the game runs it. It is one
  method that appends to a list and walks rays in `while` loops, and it is
  proved to return exactly the lists that `Pseudo` and `Check` define.
- `Draw` (draw.dfy): the draw rules. `isThreefoldRepetition` is a method with
  a dictionary and an early return.
- `Setup` (setup.dfy): the starting position.
- `GameScreen` (game.dfy): the screen's state.
  - Each transition is a function on a `GameState` value.
  - The class `Game` holds the same state in fields that its methods update
    step by step. Each method is proved to leave exactly the state that the
    corresponding function gives.
  - The alert shown after a move is computed by `Classify` from a `Report`,
    which the move and promotion methods return.
  - `ReadTime` reads a clock display back into seconds. It has no
    counterpart in the app; it states what `FormatTime` preserves.

In the source, the move generator and check detection import each other. The
recursion ends because check detection always calls the generator with check
validation switched off. Here the dependency runs one way:
`Check.LegalMoves` filters `Pseudo.PseudoLegalMoves`, and
`MoveGen.GetValidMoves` returns one or the other depending on the flag.

Behaviour of the code that the model keeps as written:

- An en-passant victim leaves the board but is not added to a captured list.
- The castling step moves a rook of either colour standing in the corner.
- The draw request is recorded for the side to move. The offer dialog is shown
  while the request names the side to move, so it is answered by the side that
  asked.
- After a promotion, the deferred fifty-move test reads the halfmove clock as
  it was before the promotion, not the reset one.
- A move does not check whether a promotion is pending.
- Reset does not restore the players' clocks.
- Insufficient material compares the two bishops' piece colours, not the
  colours of their squares.
- The board key uses the first letter of the kind, so a king and a knight give
  the same letter.
- The perpetual-check test ignores its colour argument.
- The legality test's simulated board (`Check.Simulate`, utils/checkLogic.ts:21-27)
  removes only the piece on the target square and moves only the mover. An
  en-passant victim stays on it, and a castling rook does not move.
- The draw dialog has only an accept button (reset) and a reject button
  (clear the request). Both are modelled by `HandleDrawAnswer`.
- The screen keeps the selection across a promotion, so after a promotion the
  selected piece may no longer match a piece of the board.

The screen's invariant (`ValidState`) is proved to hold in every state a
sequence of taps reaches. It says that no two pieces share a square, that an
unmoved king stands on column 4, and that a selected piece's castling moves
find the rook's landing square empty. Selection takes a piece of the board,
because the board component only offers the pieces it shows
(src/components/Board.tsx:64-78).

## Model

| member | source | states |
|---|---|---|
| Types.Opponent | src/screens/GameScreen.tsx:176 | the other side is never the same side |
| Boards.PieceAt | src/utils/chessLogic.ts:13-14 | the lookup finds a piece of the board on that square; it finds nothing exactly when no piece stands there; when the list's head stands there, it finds the head |
| Boards.PieceAtFirst | src/utils/chessLogic.ts:13-14 | the piece found is the first one on that square in list order: it is at some index, and no earlier piece stands on the square |
| Boards.FindFrom | src/utils/chessLogic.ts:13-14 | the linear scan from index i finds a piece on the square, finds nothing exactly when no piece from index i on stands there, and finds the piece at index i when it stands there |
| Boards.FindFromFirst | src/utils/chessLogic.ts:13-14 | the scan from index i finds the first piece on the square at or after index i |
| Boards.RemoveAt | utils/checkLogic.ts:22 | the filter keeps exactly the pieces off the square, every copy of each, in their order (a subsequence of the board); it never adds a piece or a copy |
| Boards.RemoveAtShrinks | src/screens/GameScreen.tsx:114-120 | removing a square that holds a piece makes the board strictly shorter |
| Boards.RemoveAtDropsAtMostOne | utils/checkLogic.ts:22 | on a board without shared squares the filter removes one piece when the square is occupied and none otherwise, and no squares become shared |
| Boards.SameSquareSamePiece | src/screens/GameScreen.tsx:153 | on a board without shared squares two pieces on one square are the same piece |
| Pseudo.SquareStates | src/utils/chessLogic.ts:16-19 | an unfolding of `IsEnemy` and `IsFriendly`, used as a proof step: a square is occupied exactly when it holds an enemy or a friend, and never both |
| Pseudo.PawnMoves | src/utils/chessLogic.ts:31-62 | characterised by PawnTargets, PawnNoOtherTarget and PawnNeverFriendly |
| Pseudo.PawnPushes | src/utils/chessLogic.ts:35-44 | one step ahead exactly when that square is empty; two steps exactly from the start row over two empty squares; nothing else |
| Pseudo.PawnCapture | src/utils/chessLogic.ts:47-61 | a diagonal is listed exactly when it holds an enemy or is the en-passant target, and no other square is listed |
| Pseudo.PawnTargets | src/utils/chessLogic.ts:31-61 | for the pawn's whole list: single step, double step, left and right diagonal each exactly under their conditions, and no other target |
| Pseudo.PawnForwardTargets | src/utils/chessLogic.ts:35-44 | the forward squares are in the pawn's list exactly under the push conditions |
| Pseudo.PawnForwardFromPushes | src/utils/chessLogic.ts:35-44 | the diagonals never add a forward square |
| Pseudo.PawnDiagonalTarget | src/utils/chessLogic.ts:47-61 | each diagonal is in the pawn's list exactly when it holds an enemy or is the en-passant target |
| Pseudo.PawnDiagonalFromCapture | src/utils/chessLogic.ts:47-61 | a diagonal is in the pawn's list exactly when its own capture entry holds it |
| Pseudo.PawnNoOtherTarget | src/utils/chessLogic.ts:31-61 | the pawn targets only the two forward squares and the two diagonals |
| Pseudo.PawnCapturesBothSides | src/utils/chessLogic.ts:47 | the captures are the left diagonal's entries followed by the right diagonal's |
| Pseudo.Ray | src/utils/chessLogic.ts:72-84 | characterised by RayShape, RayPath, RayEnd and RayTargetsSafe |
| Pseudo.RayOverEmpty | src/utils/chessLogic.ts:75-77 | an unfolding of `Ray`, used as a proof step: on an empty on-board square the ray takes it and continues with the next square |
| Pseudo.RayAtOccupied | src/utils/chessLogic.ts:78-81 | an unfolding of `Ray`, used as a proof step: on an occupied square the ray ends, taking the square only if it holds an enemy |
| Pseudo.RayShape | src/utils/chessLogic.ts:65-139 | a ray starts next to the piece, advances one step at a time, stays on the board, crosses only empty squares before its last, ends on an enemy if it ends occupied, and otherwise stops at the edge or before a friend |
| Pseudo.RayPath | src/utils/chessLogic.ts:72-84 | the ray's squares are consecutive on-board steps, all empty but the last |
| Pseudo.RayEnd | src/utils/chessLogic.ts:78-81 | an occupied last square is an enemy's; after an empty last square comes the edge or a friend |
| Pseudo.RayLastEnemy | src/utils/chessLogic.ts:78-81 | a ray that ends on an occupied square ends on an enemy |
| Pseudo.RayStop | src/utils/chessLogic.ts:75-81 | a ray whose last square is empty stops at the edge or before a friend |
| Pseudo.RayTargetsSafe | src/utils/chessLogic.ts:72-84 | every ray square is on the board and not held by a friend |
| Pseudo.RaysTargetsSafe | src/utils/chessLogic.ts:65-139 | the same for all rays of a rook, bishop or queen |
| Pseudo.Steps | src/utils/chessLogic.ts:141-171 | characterised by StepsExactly and StepsSafe |
| Pseudo.StepsExactly | src/utils/chessLogic.ts:21-28 | a knight or king target is exactly an offset square that is on the board and not held by a friend |
| Pseudo.StepsSafe | src/utils/chessLogic.ts:141-171 | every knight or king step target is on the board and not a friend's |
| Pseudo.Castling | src/utils/chessLogic.ts:174-201 | column 6 is offered exactly for an unmoved king with an unmoved rook in column 7 and columns 5-6 empty; column 2 exactly with the rook in column 0 and columns 1-3 empty; nothing else; rook colour is not examined |
| Pseudo.CastlingSafe | src/utils/chessLogic.ts:183-198 | castling targets an empty square on the king's row |
| Pseudo.CastlingOnBoard | src/utils/chessLogic.ts:186-199 | castling targets lie on the board when the king does |
| Pseudo.PseudoLegalMoves | src/utils/chessLogic.ts:21-204 | characterised by PseudoLegalNeverFriendly, PseudoLegalOnBoard and KingWideMoveIsCastling; the generator method is proved equal to it by MoveGen.GetValidMoves |
| Pseudo.PseudoLegalNeverFriendly | src/utils/chessLogic.ts:21-203 | no target holds a piece of the mover's colour, except a pawn's en-passant square |
| Pseudo.PawnNeverFriendly | src/utils/chessLogic.ts:31-61 | a pawn target is empty, an enemy's or the en-passant square |
| Pseudo.PseudoLegalOnBoard | src/utils/chessLogic.ts:21-203 | with all pieces and the en-passant square on the board, every target is on the board except a pawn's forward move, which is not bounds-checked |
| Pseudo.PawnDiagonalsOnBoard | src/utils/chessLogic.ts:47-61 | a pawn's diagonal targets lie on the board |
| Pseudo.KingWideMoveIsCastling | src/utils/chessLogic.ts:158-203 | a king target two columns away is a castling target on the king's row |
| Pseudo.KingStepsNear | src/utils/chessLogic.ts:159-171 | a king step changes the column by at most one |
| Check.FindKing | utils/checkLogic.ts:5 | the king found is the first king of that colour in list order; none is found exactly when there is none |
| Check.InCheck | utils/checkLogic.ts:4-14 | characterised by InCheckOfKing and NoKingNoCheck |
| Check.InCheckOfKing | utils/checkLogic.ts:4-14 | with a single king of the colour, the side is in check exactly when some piece of the other colour has the king's square among its pseudo-legal targets |
| Check.NoKingNoCheck | utils/checkLogic.ts:5-6 | a side without a king is never in check |
| Check.Relocate | utils/checkLogic.ts:23-27 | every piece on the origin goes to the destination, everything else stays, order kept |
| Check.Simulate | utils/checkLogic.ts:21-27 | the simulated board holds only the moved piece (kind, colour and hasMoved unchanged) and untouched pieces off both squares; every piece off the destination survives; its length is that of the filtered board |
| Check.SimulateDropsAtMostOne | utils/checkLogic.ts:22 | on a board without shared squares the simulation keeps the piece count or drops exactly one |
| Check.InCheckAfterMove | utils/checkLogic.ts:16-30 | characterised by Simulate (the board it tests) and, through the legality filter, by SafeMoves and LegalMoves |
| Check.SafeMoves | src/utils/chessLogic.ts:211-213 | a move is kept exactly when it was a candidate and does not leave the mover's side in check; every copy of a kept move stays, the order is kept (a subsequence), nothing is added |
| Check.LegalMoves | src/utils/chessLogic.ts:206-213 | the legal list is exactly the pseudo-legal moves that do not leave the own king in check, with every copy, in the pseudo-legal order (a subsequence) |
| Check.IsCheckmate | utils/checkLogic.ts:32-49 | characterised by CheckmateIffNoLegalMove |
| Check.CheckmateIffNoLegalMove | utils/checkLogic.ts:32-48 | checkmate holds exactly when the side is in check and none of its pieces has a legal move |
| MoveGen.GetValidMoves | src/utils/chessLogic.ts:5-213 | with the flag set the result is the pseudo-legal list, otherwise the legal list |
| MoveGen.AddPawnMoves | src/utils/chessLogic.ts:31-62 | appends exactly the pawn's list |
| MoveGen.AddPawnCaptures | src/utils/chessLogic.ts:47-61 | appends the diagonal entries of the given offsets in order |
| MoveGen.AddPawnPushes | src/utils/chessLogic.ts:35-44 | appends exactly the forward moves |
| MoveGen.AddPawnCapture | src/utils/chessLogic.ts:48-60 | appends the enemy entry, then the en-passant entry, of one diagonal |
| MoveGen.AddRays | src/utils/chessLogic.ts:72-85 | appends the rays of the directions one after another |
| MoveGen.WalkRay | src/utils/chessLogic.ts:73-84 | the while loop appends exactly the ray |
| MoveGen.AddSteps | src/utils/chessLogic.ts:152-154 | appends one step target per offset, in order |
| MoveGen.AddMove | src/utils/chessLogic.ts:21-28 | appends the square exactly when it is on the board and not held by a friend |
| MoveGen.AddCastling | src/utils/chessLogic.ts:174-201 | appends king-side then queen-side castling exactly under their conditions |
| Draw.IsStalemate | utils/drawLogic.ts:7-13 | characterised by GameScreen.StalemateIffNoLegalMove and NoLegalMoveIsMateOrStalemate |
| Draw.NoLegalMoveIsMateOrStalemate | utils/drawLogic.ts:7-13 | a side without a legal move is checkmated or stalemated, and never both |
| Draw.NonKings | utils/drawLogic.ts:18 | the non-king pieces with their multiplicities |
| Draw.IsInsufficientMaterial | utils/drawLogic.ts:17-42 | characterised by InsufficientMaterialByMaterial and InsufficientMaterialOrderFree |
| Draw.InsufficientMaterialByMaterial | utils/drawLogic.ts:17-42 | insufficient material holds exactly for no non-king piece, one bishop or knight, or two bishops of different piece colours |
| Draw.InsufficientAmongByMaterial | utils/drawLogic.ts:20-41 | the three tests on a list agree with the three cases on its multiset |
| Draw.LoneMinorOfOne | utils/drawLogic.ts:24-29 | one piece is a lone minor exactly when it is a bishop or knight |
| Draw.BishopsOfTwo | utils/drawLogic.ts:32 | of two pieces, both are bishops exactly when the bishop filter keeps two |
| Draw.OppositeBishopsOfTwo | utils/drawLogic.ts:31-39 | two pieces are opposite bishops exactly when both are bishops of different piece colours |
| Draw.InsufficientMaterialOrderFree | utils/drawLogic.ts:17-42 | reordering the board does not change the verdict |
| Draw.IsFiftyMoveRule | utils/drawLogic.ts:46-48 | characterised by GameScreen.ClassifyByMobility and GameScreen.PromotionReadsOldClock |
| Draw.Serialize | utils/drawLogic.ts:89-95 | characterised by SerializeOrderFree and KingAndKnightShareKey |
| Draw.SerializeOrderFree | utils/drawLogic.ts:89-95 | the board key does not depend on the order of the list |
| Draw.KingAndKnightShareKey | utils/drawLogic.ts:91 | turning a king into a knight of the same colour on the same square keeps the key |
| Draw.IsThreefoldRepetition | utils/drawLogic.ts:52-64 | the counting loop with early return answers true exactly when some key occurs three times |
| Draw.ThriceInPrefix | utils/drawLogic.ts:58-60 | three copies in a prefix are a repetition of the whole history |
| Draw.NotThriceWhenAllBelow | utils/drawLogic.ts:63 | when no count reached three there is no repetition |
| Draw.RepetitionPersists | utils/drawLogic.ts:52-64 | recording more positions never undoes a repetition |
| Draw.RepeatedThriceByPlaces | utils/drawLogic.ts:52-64 | a count of three is the same as three distinct indices with that key |
| Draw.Positions | utils/drawLogic.ts:52-64 | the indices holding a key, strictly increasing |
| Draw.PositionsCount | utils/drawLogic.ts:56-57 | the number of indices holding a key is its count |
| Draw.LastSix | utils/drawLogic.ts:73 | the slice is the last six entries in order, or all of them when there are fewer |
| Draw.IsPerpetualCheck | utils/drawLogic.ts:68-78 | characterised by PerpetualCheckByIndex and PerpetualCheckIgnoresOlder |
| Draw.PerpetualCheckByIndex | utils/drawLogic.ts:68-78 | perpetual check holds exactly with six entries or more and the side opposite the recorded turn in check in each of the last six; the colour argument does not matter |
| Draw.PerpetualCheckIgnoresOlder | utils/drawLogic.ts:73 | entries before the last six do not change the verdict |
| Draw.IsAgreedDraw | utils/drawLogic.ts:82-85 | the placeholder never reports an agreed draw |
| Strings.DigitChar | utils/drawLogic.ts:91 | a single decimal digit becomes a digit character |
| Strings.NatToString | utils/drawLogic.ts:91 | the decimal text of a number is one or more digits, one digit below 10, two from 10 to 99, at least three from 100 |
| Strings.IntToString | src/screens/GameScreen.tsx:50-51 | a non-negative number prints as its digits, a negative one as a minus sign before its magnitude's digits |
| Strings.DigitsValueOfNatToString | src/screens/GameScreen.tsx:50-51 | reading the printed digits back gives the number |
| Strings.NatToStringInjective | utils/drawLogic.ts:91 | different numbers print differently |
| Strings.Insert | utils/drawLogic.ts:92 | insertion adds exactly one copy of the string |
| Strings.Sort | utils/drawLogic.ts:92 | sorting keeps the same strings |
| Strings.SortSorted | utils/drawLogic.ts:92 | the sort returns its input in ascending order |
| Strings.SortPermutationInvariant | utils/drawLogic.ts:92 | the sorted list depends only on which strings are given |
| Strings.SortedUnique | utils/drawLogic.ts:92 | two sorted lists with the same strings are equal |
| Strings.LexLeTotal | utils/drawLogic.ts:92 | any two strings are ordered one way or the other |
| Strings.LexLeAntisymmetric | utils/drawLogic.ts:92 | strings ordered both ways are equal |
| Strings.LexLeTransitive | utils/drawLogic.ts:92 | the string order is transitive |
| Setup.BackRank | utils/initialPieces.ts:4-11 | eight unmoved pieces of one colour on one row, rook, knight, bishop, queen, king, bishop, knight, rook by column |
| Setup.PawnRank | utils/initialPieces.ts:12-14 | eight unmoved pawns of one colour on one row, one per column |
| Setup.InitialPieces | utils/initialPieces.ts:3-27 | the starting list has 32 pieces |
| Setup.InitialLayout | utils/initialPieces.ts:4-26 | entry by entry: colour, row, column, kind, unmoved |
| Setup.InitialColors | utils/initialPieces.ts:4-26 | entries 0-15 are white and 16-31 black |
| Setup.InitialCounts | utils/initialPieces.ts:3-26 | 16 pieces of each colour |
| Setup.CountColorAppend | utils/initialPieces.ts:3-26 | counts add up over concatenation |
| Setup.InitialSquares | utils/initialPieces.ts:4-26 | no two pieces share a square and every piece is on the board |
| Setup.InitialUnmoved | utils/initialPieces.ts:4-26 | every piece is unmoved; pawns stand on their double-step row and the rest on their home row |
| Setup.InitialKings | utils/initialPieces.ts:8-20 | each king stands unmoved on column 4 of its home row; the kings found are white's on (7, 4) and black's on (0, 4) |
| GameScreen.InitialTime | src/screens/GameScreen.tsx:17-21 | classic gives 1800 seconds, rapid 600 and blitz 180: a positive whole number of minutes, at most 30 |
| GameScreen.InitialState | src/screens/GameScreen.tsx:17-43 | characterised by InitialStateValid and Game.constructor |
| GameScreen.ResetState | src/screens/GameScreen.tsx:55-66 | characterised by ResetIsFreshGame |
| GameScreen.ResetIsFreshGame | src/screens/GameScreen.tsx:55-66 | a reset is the opening state of a fresh game except for the two clocks; resetting twice is resetting once |
| GameScreen.InitialBoardValid | utils/initialPieces.ts:3-27 | the starting board has no shared squares and both kings stand unmoved on column 4 |
| GameScreen.InitialStateValid | src/screens/GameScreen.tsx:30-43 | the opening state and every reset state satisfy the screen invariant |
| GameScreen.DrawRequested | src/screens/GameScreen.tsx:68-70 | characterised by DrawRequestAsksRequester |
| GameScreen.DrawAnswered | src/screens/GameScreen.tsx:349-365 | characterised by DrawAnswerEffect |
| GameScreen.DrawRequestAsksRequester | src/screens/GameScreen.tsx:68-70 | a request opens the dialog at once, because it names the side that is to move; the other two clauses unfold `DrawRequested` (it records the side to move and changes nothing else) |
| GameScreen.DrawAnswerEffect | src/screens/GameScreen.tsx:349-365 | accepting resets the game, rejecting only clears the request, without the dialog nothing changes, and afterwards the dialog is closed unless nothing changed; the invariant is kept |
| GameScreen.Selected | src/screens/GameScreen.tsx:72-78 | characterised by SelectionEffect and SelectionKeepsValid |
| GameScreen.SelectionEffect | src/screens/GameScreen.tsx:72-78 | a piece of the other side is ignored; otherwise it is selected and its valid moves are exactly its legal moves, with nothing else changed |
| GameScreen.SelectionKeepsValid | src/screens/GameScreen.tsx:72-78 | selecting a piece of the board keeps the invariant |
| GameScreen.CastlingLandingFree | src/utils/chessLogic.ts:174-201 | on a valid board, a generated king move that brings a castling rook along leaves the rook's landing square empty |
| GameScreen.VictimSquare | src/screens/GameScreen.tsx:111-121 | the cleared square is the target, or for en passant the square one step back from it as seen from the mover |
| GameScreen.CastleRook | src/screens/GameScreen.tsx:123-135 | a rook moves exactly when the king moves two columns, from column 7 going right or column 0 going left, to the square the king passed over |
| GameScreen.MoveRooks | src/screens/GameScreen.tsx:138-143 | the castling rook step keeps the length and changes each piece independently |
| GameScreen.MoveRooksMembers | src/screens/GameScreen.tsx:138-143 | each piece's image is on the new board, and every piece of the new board is such an image |
| GameScreen.MoveOnto | src/screens/GameScreen.tsx:146-151 | the landing step keeps the length and changes each piece independently |
| GameScreen.MoveOntoMembers | src/screens/GameScreen.tsx:146-151 | each piece's image is on the new board, and every piece of the new board is such an image |
| GameScreen.CastledMembers | src/screens/GameScreen.tsx:133-144 | the castling step changes only castling rooks, each to the column the king passed over |
| GameScreen.CastledOrigin | src/screens/GameScreen.tsx:133-151 | a piece left on the mover's square after the castling step came through unchanged |
| GameScreen.CastledOffTarget | src/screens/GameScreen.tsx:111-144 | after the clearing and castling steps nothing stands on the target |
| GameScreen.NextBoard | src/screens/GameScreen.tsx:109-151 | characterised by NextBoardCount, NextBoardOthers, NextBoardMover and NextBoardValid |
| GameScreen.NextBoardCount | src/screens/GameScreen.tsx:111-151 | a move never adds pieces; on a board without shared squares it removes at most one; it removes one when the victim square is occupied |
| GameScreen.NextBoardOthers | src/screens/GameScreen.tsx:111-151 | nothing changes but the mover, the victim and a castling rook, in both directions |
| GameScreen.NextBoardNoSharedSquare | src/screens/GameScreen.tsx:109-151 | a move keeps the board free of shared squares when an en-passant target is empty and the castling rook's landing square is empty |
| GameScreen.MoveRooksNoSharedSquare | src/screens/GameScreen.tsx:138-143 | the castling rook step onto an empty square keeps the board free of shared squares |
| GameScreen.MoveOntoNoSharedSquare | src/screens/GameScreen.tsx:146-151 | the landing step onto an empty square keeps the board free of shared squares |
| GameScreen.NextBoardValid | src/screens/GameScreen.tsx:109-151 | under the same conditions a move keeps a valid board: no shared squares, unmoved kings on column 4 |
| GameScreen.NextBoardUnmoved | src/screens/GameScreen.tsx:109-151 | a piece of the new board that has not moved was on the old board |
| GameScreen.NextBoardTargetMoved | src/screens/GameScreen.tsx:109-151 | when an en-passant target is empty, everything on the target square after a move has moved |
| GameScreen.NextBoardMover | src/screens/GameScreen.tsx:146-153 | the piece then found on the target is the mover, moved there and marked moved, when the board has no shared squares, the mover stands on it off the victim square, and an en-passant target is empty |
| GameScreen.DoubleStepTarget | src/screens/GameScreen.tsx:166-173 | a new en-passant target exists exactly after a pawn moved two rows; it is the skipped square in the target column |
| GameScreen.Classify | src/screens/GameScreen.tsx:186-206 | characterised by ClassifyByMobility |
| GameScreen.ClassifyByMobility | src/screens/GameScreen.tsx:186-206 | the alert is the fifty-move draw from 100 half-moves; otherwise checkmate (won by the mover), stalemate, check or nothing according to check and the existence of a legal move |
| GameScreen.StalemateIffNoLegalMove | utils/drawLogic.ts:7-13 | stalemate is exactly: not in check and no legal move |
| GameScreen.Moved | src/screens/GameScreen.tsx:80-184 | characterised by MoveRejected, MoveCaptures, MoveSuspendsOnPromotion, MovePromotionSuspends, MoveCompletes, MoveDropsAtMostOne and MoveKeepsValid |
| GameScreen.Taken | src/screens/GameScreen.tsx:90-151 | characterised by MoveCaptures and TakenKeepsValid |
| GameScreen.Settled | src/screens/GameScreen.tsx:153-184 | characterised by MoveSuspendsOnPromotion, MovePromotionSuspends, MoveCompletes and SettledKeepsValid |
| GameScreen.MoveRejected | src/screens/GameScreen.tsx:80-88 | without a selection a tap changes nothing; off the valid moves it only drops the selection and its moves |
| GameScreen.MoveCaptures | src/screens/GameScreen.tsx:99-107 | an accepted move records a piece on the target in its colour's list, records nothing else, clears the selection and request and keeps the clocks |
| GameScreen.MoveSuspendsOnPromotion | src/screens/GameScreen.tsx:153-164 | whenever the piece found on the target after the board update is a pawn on its last row, the move suspends for the promotion choice: pending square and that pawn's colour set, en-passant target cleared, turn and halfmove clock unchanged, no report |
| GameScreen.MovePromotionSuspends | src/screens/GameScreen.tsx:146-164 | the selected pawn itself reaching its last row suspends for the promotion choice, with the same effects, when the board has no shared squares, the pawn stands on the board, the move is not en passant and the target is not the pawn's own square |
| GameScreen.PawnNeverOwnSquare | src/utils/chessLogic.ts:31-62 | a pawn's move list never holds the pawn's own square |
| GameScreen.DoubleStepTargetRow | src/screens/GameScreen.tsx:166-173 | after a two-row pawn move from its list, the en-passant target lies on row 5 for white and row 2 for black |
| GameScreen.MoveCompletes | src/screens/GameScreen.tsx:166-184 | a non-promoting move passes the turn, restarts the clock after a pawn move or any capture and otherwise counts up, sets the en-passant target to the double-step target of the piece on the landing square, and reports the new position |
| GameScreen.MoveDropsAtMostOne | src/screens/GameScreen.tsx:109-151 | in a valid state a tap removes at most one piece from the board and adds none; an accepted move removes one exactly when the victim square is occupied |
| GameScreen.MoveKeepsValid | src/screens/GameScreen.tsx:80-184 | every tap keeps the screen invariant |
| GameScreen.TakenKeepsValid | src/screens/GameScreen.tsx:90-151 | recording a capture and updating the board keeps the invariant, a recorded piece having left the board |
| GameScreen.SettledKeepsValid | src/screens/GameScreen.tsx:153-184 | suspending or passing the turn keeps the invariant when everything on the landing square has moved |
| GameScreen.Retype | src/screens/GameScreen.tsx:253-258 | only pieces on the pending square change, and only their kind |
| GameScreen.RetypeKeepsSquares | src/screens/GameScreen.tsx:253-258 | the promotion's retyping occupies the same squares, shares no new square, and its pieces are old ones or retyped pieces from the pending square |
| GameScreen.Promoted | src/screens/GameScreen.tsx:250-290 | characterised by PromotionEffect and PromotionReadsOldClock |
| GameScreen.PromotionEffect | src/screens/GameScreen.tsx:250-266 | without a pending promotion nothing happens; otherwise only the pending square's kind changes, the turn passes, the clock restarts, the request is cleared and the invariant is kept |
| GameScreen.PromotionReadsOldClock | src/screens/GameScreen.tsx:268-272 | the report after a promotion carries the clock from before it, so it reports a fifty-move draw exactly when that old clock was 100 or more |
| GameScreen.Pad2 | src/screens/GameScreen.tsx:50-51 | padding gives at least two characters, ends with the input and puts only zeros in front |
| GameScreen.JsRem | src/screens/GameScreen.tsx:51 | the remainder of a non-negative number is the usual one; otherwise its magnitude is the magnitude's remainder and it takes the dividend's sign |
| GameScreen.Pad2Value | src/screens/GameScreen.tsx:50-51 | a padded number is all digits and reads back to the number |
| GameScreen.FormatTime | src/screens/GameScreen.tsx:48-53 | characterised by FormatTimeParts, FormatTimeReadsBack, FormatTimeShape, FormatTimeWidth, FormatTimeInjective and FormatTimeNegative |
| GameScreen.FormatTimeParts | src/screens/GameScreen.tsx:48-53 | a non-negative time shows padded minutes, the separator and padded seconds |
| GameScreen.JoinedParts | src/screens/GameScreen.tsx:52 | in the joined text the minutes come first, then the separator, then the two characters of seconds |
| GameScreen.JoinedDigits | src/screens/GameScreen.tsx:52 | digits joined to two digits give digits around the separator |
| GameScreen.Pad2Digits | src/screens/GameScreen.tsx:50-51 | padding digits gives digits |
| GameScreen.FormatTimeReadsBack | src/screens/GameScreen.tsx:48-53 | reading the display back gives the number of seconds |
| GameScreen.FormatTimeShape | src/screens/GameScreen.tsx:48-53 | the display is digits, the separator, then two digits |
| GameScreen.FormatTimeWidth | src/screens/GameScreen.tsx:50-52 | the display is seven characters long exactly when the time is under 100 minutes |
| GameScreen.FormatTimeInjective | src/screens/GameScreen.tsx:48-53 | different non-negative times display differently |
| GameScreen.FormatTimeNegative | src/screens/GameScreen.tsx:50 | a negative time starts with a minus sign |
| GameScreen.Game.constructor | src/screens/GameScreen.tsx:18-43 | the screen opens in the initial state for its mode, which satisfies the invariant |
| GameScreen.Game.ResetGame | src/screens/GameScreen.tsx:55-66 | the fields become the reset state and the invariant holds |
| GameScreen.Game.HandleRequestDraw | src/screens/GameScreen.tsx:68-70 | the fields become the requested state and the invariant is kept |
| GameScreen.Game.HandleDrawAnswer | src/screens/GameScreen.tsx:349-365 | the fields become the answered state and the invariant is kept |
| GameScreen.Game.HandleSelectPiece | src/screens/GameScreen.tsx:72-78 | for a piece of the board, the fields become the selected state, the valid moves coming from the generator, and the invariant is kept |
| GameScreen.Game.HandleMove | src/screens/GameScreen.tsx:80-185 | the fields become the moved state, the returned report is the move's report, and the invariant is kept |
| GameScreen.Game.TakeMove | src/screens/GameScreen.tsx:90-151 | the fields become the taken state (capture recorded, board updated, selection and request cleared), and the returned flag is whether the move captures |
| GameScreen.Game.MoveOnBoard | src/screens/GameScreen.tsx:109-151 | the board built step by step is the next board |
| GameScreen.Game.Commit | src/screens/GameScreen.tsx:178-184 | the board and captured lists are stored, the selection, its moves and the request cleared, nothing else changed |
| GameScreen.Game.SettleMove | src/screens/GameScreen.tsx:153-184 | the fields become the settled state and the report is the settled report |
| GameScreen.Game.HandlePromotion | src/screens/GameScreen.tsx:250-290 | the fields become the promoted state, the returned report is the promotion's report, and the invariant is kept |

## Left out

- The countdown clock is left out: the `setInterval` timer, the loss on time and its alert (src/screens/GameScreen.tsx:210-248). It is driven by a timer running alongside the taps. The players' clocks are set when the screen opens and never change in this model.
- The `setTimeout` deferral and the `Alert` dialogs after a move or promotion are not modelled as such. The move and promotion methods return a `Report` of what the deferred code reads, and `Classify` gives the alert. The alert's OK button, which resets the game, is the `ResetGame` transition.
- `FormatTime` takes an integer. The guard for a non-number or NaN, and fractional seconds, are not modelled.
- The `?? 1800` fallback for an unknown mode is left out: `GameMode` has only its three values, so the lookup never misses.
- The promotion dialog offers only queen, rook, bishop and knight. `HandlePromotion` accepts any kind.
- Rendering, touch handling, navigation, the matchmaking screens and the image lookups are not part of this model.
- JavaScript numbers are modelled as unbounded integers. Every coordinate and count in the core is a small whole number, so no rounding or overflow arises.
- GameScreen.NextBoardMover: assumes four things. (1) The board has no shared squares; this is part of the invariant. (2) The selected piece stands on the board. The screen keeps a selection across a promotion, which can retype the selected pawn, so the model does not show that this holds in play. (3) The victim square is not the selected piece's own square. (4) An en-passant target is empty. The model does not carry (3) or (4) in the invariant. In play the generator does not list a piece's own square (for pawns, `PawnNeverOwnSquare`), and an en-passant target is the square a pawn just skipped.
- GameScreen.MovePromotionSuspends: assumes no shared squares, that the selected pawn stands on the board (for the same reason as `NextBoardMover`), that the move is not en passant, and that the target is not the pawn's own square. None of the last three is part of the invariant. In play a pawn's list never holds its own square (`PawnNeverOwnSquare`). An en-passant target lies on row 2 or 5 (`DoubleStepTargetRow`), so a move to a last row is not en passant. `MoveSuspendsOnPromotion` states the suspension itself without these assumptions, in terms of the piece found on the target.
- The board snapshots for threefold repetition and perpetual check are given as a history list. The screen never records one.
