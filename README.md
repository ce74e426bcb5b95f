# numerator-chess rules engine in Dafny

This project models the rules engine of the numerator-chess service. It covers:

- the value types: colours, piece kinds, pieces and their one-letter symbols;
- the 8x8 board, set up in the standard starting position;
- pseudo-legal move generation for every piece kind;
- the in-place move;
- the text picture of the board;
- the game object, which keeps the side to move, a status and a move history.

Squares are `(file, rank)` pairs: `(0, 0)` is a1 and `(7, 7)` is h8.

The project is split into modules that follow the program's structure:

- `Models` (models.dfy) holds the value types. These are datatypes with pure functions.
- `Grids` (grids.dfy) holds the board contents as a value `Grid`, indexed `[file][rank]`. It also has the bounds test, the starting position, and `Apply`, which gives the grid after a move.
- `MoveRules` (moverules.dfy) holds move generation as pure functions of a grid. They produce candidates in the engine's order:
  - pawn: forward step, double step, then the captures to the left and right;
  - knight: its eight offsets in the engine's order;
  - rook, bishop and queen: rays in the engine's direction order;
  - king: its eight neighbours, file offset outermost.

  The lemmas state the rule each kind obeys.
- `Ascii` (ascii.dfy) is the specification of the text picture and the proof of its layout.
- `Chessboard` (board.dfy) holds `class Board` over an `array2<Option<Piece>>`. The ghost field `cells` is tied to the array by `Valid()`. Each method is proved against the pure functions:
  - the constructor's fill loop;
  - move generation, as the same `for` and `while` loops that append to a local list;
  - the two cell writes of `Move`;
  - the nested loops of the picture.

  `GenerateMoves` and its helpers have no `modifies` clause, so they cannot change the board.
- `Games` (game.dfy) holds `class Game`, with `turn`, `status` and `history` fields and its `Move` state machine, plus three concrete game scenarios.

## Model

| member | source | states |
|---|---|---|
| Models.Opposite | app/models.py:14-16 | the opposite colour is never the colour itself |
| Models.OppositeInvolution | app/models.py:15-16 | taking the opposite twice gives back the original colour |
| Models.Letter | app/models.py:34-37 | every piece kind is named by one of p, r, n, b, q, k |
| Models.Symbol | app/models.py:33-38 | a symbol is one character; upper case from P R N B Q K for White, lower case from p r n b q k for Black; lower-casing it gives the kind's letter |
| Models.SymbolInjective | app/models.py:34-38 | two pieces with the same symbol are the same piece, so the twelve pieces have twelve distinct symbols |
| Models.SymbolIgnoresColorUpToCase | app/models.py:34-38 | the White and Black symbols of a kind differ only in case |
| Grids.OnBoardSquares | app/board.py:35-37 | the bounds test accepts a square exactly when it is one of the sixty-four squares a1 to h8, which are listed each once |
| Grids.StartGrid | app/board.py:19-28 | the set-up position: rank 0 holds White R N B Q K B N R, rank 1 White pawns, rank 6 Black pawns, rank 7 Black R N B Q K B N R, and ranks 2 to 5 are empty |
| Grids.StartingKings | app/board.py:20-28 | in the starting position the only kings stand on file e, rank 0 or rank 7 |
| Grids.Apply | app/board.py:104-105 | after a move the source square is empty, the destination holds the former source piece, and every other square is unchanged |
| MoveRules.SliderDirections | app/board.py:73-78 | every direction a sliding piece walks is a unit step, one square along a file, rank or diagonal |
| MoveRules.RookDirectionsSpec | app/board.py:75-76 | the rook's directions are exactly the four unit steps along a file or rank, each listed once |
| MoveRules.BishopDirectionsSpec | app/board.py:77-78 | the bishop's directions are exactly the four diagonal unit steps, each listed once |
| MoveRules.SliderDirectionsSpec | app/board.py:73-78 | a rook walks the four file and rank directions, a bishop the four diagonals, a queen all eight, each once; pawns, knights and kings walk none |
| MoveRules.Steps | app/board.py:66-72 | a stepping piece gets no more candidates than it has offsets, and each candidate is on the board and not held by the mover's colour |
| MoveRules.StepsSpec | app/board.py:65-72 | a square is offered exactly when some offset reaches it and it is on the board and not held by the mover's colour |
| MoveRules.StepsDistinct | app/board.py:65-96 | distinct offsets give distinct candidates, so no square is offered twice |
| MoveRules.Ray | app/board.py:80-88 | every square the walk along a direction collects is on the board and not held by the mover's colour |
| MoveRules.RayIsRay | app/board.py:79-88 | the walk along a direction collects every empty square up to the first occupied one, includes that square only when it holds an enemy, and includes nothing beyond it |
| MoveRules.RayUnique | app/board.py:79-88 | only one sequence of squares has the ray property, so the walk is determined by it |
| MoveRules.Rays | app/board.py:79-88 | a sliding piece's candidates, direction by direction, are each on the board and never held by the mover's colour |
| MoveRules.RaysSpec | app/board.py:79-88 | a sliding piece's candidates are exactly the union of its rays, one per direction |
| MoveRules.RayOnEmptyBoard | app/board.py:81-88 | on an otherwise empty board a ray runs to the edge: its length is the number of squares to the edge |
| MoveRules.LoneRayLength | app/board.py:79-88 | a lone piece's ray has as many squares as lie between the piece and the nearer edge it heads for |
| MoveRules.PawnAdvance | app/board.py:51-59 | a pawn's advance offers at most two squares, each on the board and empty |
| MoveRules.PawnCaptures | app/board.py:60-64 | the capture search offers no more squares than file offsets, each on the board and holding an enemy |
| MoveRules.PawnMoves | app/board.py:50-64 | a pawn has at most four candidates, each on the board and not held by the mover's colour |
| MoveRules.PawnMovesSpec | app/board.py:50-64 | a pawn is offered a square exactly when it is the empty square ahead; or the square two ahead, from the start rank, with both squares empty; or a diagonal square ahead holding an enemy. The double-step target from the start rank is always on the board |
| MoveRules.PawnRuleSpec | app/board.py:50-64 | for a pawn on the board, the full move generator offers a square exactly when it is a pawn target: the empty square ahead, the double step from the start rank over two empty squares, or a diagonal square ahead holding an enemy |
| MoveRules.Moves | app/board.py:42-44 | an empty square has no candidates |
| MoveRules.MovesSafe | app/board.py:47-96 | every candidate is on the board and never holds a piece of the mover's colour; the source square is never its own candidate |
| MoveRules.SteppingMovesSpec | app/board.py:65-96 | a knight or king has at most eight candidates, none repeated, each one of its fixed offsets, and gets exactly those offset squares that are on the board and not friendly |
| MoveRules.SlidingMovesSpec | app/board.py:73-88 | a rook, bishop or queen has exactly the squares of its rays in its directions |
| MoveRules.LoneOrthogonalRays | app/board.py:79-88 | on an otherwise empty board the four file and rank rays from a square run to the four edges |
| MoveRules.LoneRook | app/board.py:73-88 | a rook alone on the board has fourteen candidates wherever it stands, the corner a1 included |
| MoveRules.OpenStartingPawn | app/board.py:50-64 | a pawn on its start rank with both squares ahead empty and no enemy diagonally ahead is offered the single step and then the double step, and nothing else |
| MoveRules.StartingPawnMoves | app/board.py:50-64 | from the starting position each pawn may advance one or two squares and has no capture |
| Ascii.CellText | app/board.py:114-115 | a cell is drawn as one character, and as "." exactly when it is empty |
| Ascii.JoinCells | app/board.py:116 | joining one-character cells with a one-character separator puts cell j at column 2j and the separator at every odd column |
| Ascii.JoinLines | app/board.py:117 | joining fifteen-character lines with a newline puts a newline at every sixteenth position |
| Ascii.RowText | app/board.py:112-116 | a rank is fifteen characters: the cells of files a to h at even columns, single spaces between them |
| Ascii.Render | app/board.py:109-117 | the picture has 127 characters: eight lines, rank 7 at the top down to rank 0, files a to h left to right, cells separated by single spaces, "." for empty cells, lines separated by newlines |
| Chessboard.Board.constructor | app/board.py:12-28 | a new board holds exactly the starting position |
| Chessboard.Board.PieceAt | app/board.py:31-33 | reading a square of the array gives the piece on that square of the grid |
| Chessboard.Board.SameColor | app/board.py:47 | a square counts as friendly exactly when it holds a piece of the mover's colour |
| Chessboard.Board.GenerateMoves | app/board.py:40-97 | the loops produce exactly the specified candidate list, in order, and do not change the board |
| Chessboard.Board.PawnMoves | app/board.py:50-64 | the pawn branch produces exactly the specified pawn candidates |
| Chessboard.Board.PawnCaptures | app/board.py:60-64 | the capture loop produces the left and then the right diagonal square, each only when it holds an enemy |
| Chessboard.Board.StepMoves | app/board.py:65-72 | the offset loop produces exactly the specified stepping candidates, offset by offset |
| Chessboard.Board.StepTo | app/board.py:70-72 | one offset's test adds its square exactly when the square is on the board and not held by the mover's colour |
| Chessboard.Board.SlidingMoves | app/board.py:73-88 | the direction loop produces exactly the concatenated rays |
| Chessboard.Board.WalkRay | app/board.py:80-88 | the while loop stepping along a direction produces exactly the specified ray |
| Chessboard.Board.Move | app/board.py:100-106 | the move succeeds exactly when the source holds a piece and the destination is one of its candidates; on success the grid is the grid after the move; on failure the grid is unchanged |
| Chessboard.Board.Render | app/board.py:109-117 | the nested loops produce exactly the specified picture |
| Chessboard.Board.RenderRank | app/board.py:112-116 | the inner loop produces exactly the text of one rank |
| Games.Game.constructor | app/game.py:15-20 | a new game is in the starting position, White to move, in progress, with an empty history |
| Games.Game.Move | app/game.py:23-31 | the status never changes. The move succeeds exactly when the game is in progress and the board accepts it, with no check of whose piece it is. On success the board is the grid after the move, the history gains one entry recording the side that was to move, and the turn passes. On failure board, history and turn are unchanged |
| Games.KingsPawnReply | tests/test_game.py:8 | after e2-e4, Black's e-pawn may still advance two squares |
| Games.OpeningScenario | tests/test_game.py:3-8 | from a new game, e2-e4 and then e7-e5 are both accepted |
| Games.BlackMovesFirstScenario | app/game.py:23-29 | Black may make the first move; the turn then passes to Black, and the history records White as the mover |
| Games.TripleStepRefused | app/game.py:26-31 | a pawn's three-square advance is refused, and turn and history stay as they were |

## Left out

- app/main.py, app/storage.py and app/schemas.py are not part of this model. They hold HTTP routing, a process-wide registry of games and request validation.
- Game ids: app/game.py:16 draws a random UUID. Here the id is a constructor parameter with no effect on the rules.
- History entries: app/game.py:28 formats each entry as a string. Here each entry is a record of the colour to move, the source square and the destination square. The text format is not modelled.
- Out-of-board source squares: `piece_at` (app/board.py:31-33) has no bounds check. In Python, negative indexes wrap around and large ones raise. `Chessboard.Board.PieceAt`, `Chessboard.Board.GenerateMoves` and `Chessboard.Board.Move` therefore require an on-board square. `Games.Game.Move` requires it only while the game is in progress, because its status test comes first. The wrap-around is not modelled.
- Chessboard.Board.StepMoves: for the king, the nested loops over file and rank offsets (app/board.py:90-96) are modelled as one loop over the eight offsets. The order and the skipped (0, 0) offset are the same.
- Chessboard.Board.GenerateMoves: is a method without a `modifies` clause, paired with the pure function `MoveRules.Moves`. It is not itself a function over the array.
- Check, checkmate and stalemate are never detected (app/game.py:30), so the `Checkmate` and `Stalemate` statuses are never reached. Castling, en passant and promotion do not exist in the engine either, so none of them is modelled.
