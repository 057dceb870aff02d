# Chessplz rules engine in Dafny

This project models the chess engine of the Chessplz Android app. That is the
`ChessGameState` class and the piece vocabulary it uses. It proves what the
engine guarantees about its moves and its state.

The engine is a mutable object. It holds an 8x8 board of optional pieces and a
small amount of selection and turn state. The UI drives it through three
operations:

- `selectSquare` is a five-branch state machine: select, deselect, move and
  pass the turn, reselect, and fall-through deselect.
- `getPiece` reads one square.
- `resetGame` restores the start position.

The destinations offered for a selected piece come from `calculateValidMoves`.
It generates pseudo-legal moves for each piece type and does no check
filtering.

The model has three layers:

- **Values** (`pieces.dfy`, `board.dfy`):
  - the `PieceType`, `ChessColor` and `ChessPiece` datatypes;
  - `toBoolean` and `getPieceUnicode`;
  - squares, and the board as an 8x8 grid of `Option<ChessPiece>`.
- **Specification** (`move_rules.dfy`, `game_spec.dfy`):
  - pure functions giving each piece type's destinations: `Ray`, `Rays`,
    `Candidates`, `PawnTargets` and the dispatcher `Targets`;
  - the engine's observable state as a `GameView` value;
  - `movePiece`, `selectSquare` and `resetGame` as functions on that value;
  - the lemmas stating what these guarantee.
- **Engine** (`game_state.dfy`): the class `ChessGameState`.
  - The board is an `array2` and the other state is in fields.
  - Each method has the loops of `ChessGameState.kt`.
  - Each method is proved to produce exactly the value of the matching
    specification function: `ensures View() == Move(old(View()), from, to)`,
    `ensures r == Targets(Cells(), pos)`, and so on.

`calculateValidMoves` reads the capture square of a pawn without checking its
row (ChessGameState.kt:122-128). So for a White pawn on row 0 or a Black pawn
on row 7, the read goes off the board and the call throws. The model returns
this as an explicit fault: `Err(CaptureRowOutOfRange(row))`.

- `selectSquare` reports the fault as the outcome `Crashed(fault)`.
- The state is left as the exception leaves it: the selection is already
  recorded and the offered moves are unchanged.
- `FarRankFaultReachable` shows that the fault is reachable through a move the
  generator itself offers, since pawns are never promoted.

`ChessGameState.kt` has no king-safety filtering, castling, check, checkmate,
stalemate or terminal game-over state. The model follows the code:

- the moves are pseudo-legal;
- kings can be captured;
- `gameOver` and `winner` are only ever reset, and the invariant records that
  they stay `false` and `None`.

## Model

| member | source | states |
|---|---|---|
| `Pieces.EnumerationsAreComplete` | app/src/main/java/com/example/test/chess/ChessPiece.kt:4-11 | There are exactly six distinct piece types and two distinct colours, and every value is one of them. |
| `Pieces.PieceEquality` | app/src/main/java/com/example/test/chess/ChessPiece.kt:14 | Two pieces are equal exactly when their type and their colour are equal. |
| `Pieces.ToBoolean` | app/src/main/java/com/example/test/chess/ChessPiece.kt:16 | `toBoolean` is true exactly for White. |
| `Pieces.ToBooleanSeparates` | app/src/main/java/com/example/test/chess/ChessPiece.kt:16 | Comparing two colours' booleans is the same as comparing the colours. This is what makes `selectSquare`'s test against `whiteToMove` a test of the side. |
| `Pieces.PieceUnicode` | app/src/main/java/com/example/test/chess/ChessPiece.kt:18-35 | The glyph is defined for all 12 pieces and is one character. Its code point is the colour's block start (U+2654 for White, U+265A for Black) plus the type's place in king, queen, rook, bishop, knight, pawn order. White pieces get exactly U+2654..U+2659 and Black pieces exactly U+265A..U+265F. |
| `Pieces.PieceUnicodeInjective` | app/src/main/java/com/example/test/chess/ChessPiece.kt:18-35 | Distinct pieces get distinct glyphs. |
| `GameSpec.NextVersion` | app/src/main/java/com/example/test/chess/ChessGameState.kt:98 | `boardVersion++` on a Kotlin `Int` adds exactly one modulo 2^32. Below the largest `Int` it is plain `+1`. |
| `GameSpec.InitialGrid` | app/src/main/java/com/example/test/chess/ChessGameState.kt:32-58 | The start position is an 8x8 grid. Row 0 is Black's rook, knight, bishop, queen, king, bishop, knight, rook; row 1 is Black pawns; row 6 is White pawns; row 7 is White's back rank in the same order; rows 2-5 are empty. |
| `GameSpec.InitialGridMirrored` | app/src/main/java/com/example/test/chess/ChessGameState.kt:32-58 | The start position is colour-symmetric. A square and its mirror across the middle rows are both empty, or hold the same piece type in opposite colours. |
| `GameSpec.InitialKings` | app/src/main/java/com/example/test/chess/ChessGameState.kt:32-58 | The start position has exactly one king of each colour, on column 4 of its back rank. |
| `GameSpec.Move` | app/src/main/java/com/example/test/chess/ChessGameState.kt:88-99 | On an empty source, nothing changes. For distinct squares, the source piece lands on the destination and the source becomes empty, and the other squares keep their pieces. For equal squares, the square ends empty and its piece is appended to the captured pieces. For distinct squares, the destination's prior occupant, if any, is appended to the captured pieces. In both cases the version advances by `NextVersion`, and every other field is unchanged. |
| `GameSpec.SelectKeepsInv` | app/src/main/java/com/example/test/chess/ChessGameState.kt:62-86 | `selectSquare` preserves the object invariant, also when the generator fails: no selection means no offered moves, a selection holds a piece of the side to move, offered moves are on the board, and the game is never over. |
| `GameSpec.SelectFrame` | app/src/main/java/com/example/test/chess/ChessGameState.kt:62-86 | Outside the move branch, only the selection and the offered moves change. In the move branch, the result is `movePiece`, with the selection cleared and the turn flipped. |
| `GameSpec.SelectCrashesOnFarRankPawn` | app/src/main/java/com/example/test/chess/ChessGameState.kt:62-86 | `selectSquare` fails exactly when it is (re)selecting an own pawn that stands on its far rank. |
| `GameSpec.SelectKeepsSynced` | app/src/main/java/com/example/test/chess/ChessGameState.kt:62-86 | Unless the call fails, the offered moves stay equal to the generator's output for the selected square on the current board. |
| `GameSpec.SelectMovesOwnPieceToTarget` | app/src/main/java/com/example/test/chess/ChessGameState.kt:73-78 | A move made by `selectSquare` starts from a piece of the side to move. Its destination is one the generator offers for that piece, differs from the source, and holds no own piece. |
| `GameSpec.SelectPassesTurn` | app/src/main/java/com/example/test/chess/ChessGameState.kt:73-78 | After a move, the other side is to move and nothing is selected. The moved piece stands on the destination, its source is empty, it belongs to the side that just moved, and the version has advanced. |
| `GameSpec.FarRankFaultReachable` | app/src/main/java/com/example/test/chess/ChessGameState.kt:110-128 | A White pawn on row 1 with an empty square ahead is offered row 0. After that move, the generator fails for that pawn. |
| `GameSpec.ResetEstablishesInv` | app/src/main/java/com/example/test/chess/ChessGameState.kt:283-293 | After `resetGame`, the state satisfies the invariant and is synced. It has the start position, White to move, and the version advanced by one. |
| `MoveRules.Ray` | app/src/main/java/com/example/test/chess/ChessGameState.kt:188-202 | Every square of one ray is on the board and holds no piece of the mover's colour. |
| `MoveRules.RayIsWalk` | app/src/main/java/com/example/test/chess/ChessGameState.kt:190-199 | The i-th square of a ray lies i steps beyond its first square along the ray's direction. |
| `MoveRules.RayPrefixEmpty` | app/src/main/java/com/example/test/chess/ChessGameState.kt:192-197 | Every square of a ray except the last is empty, so nothing beyond the first occupied square is included. |
| `MoveRules.RayEndsAtStop` | app/src/main/java/com/example/test/chess/ChessGameState.kt:192-197 | A ray that is empty, or that ends on an empty square, stopped at the board edge or in front of an own piece. |
| `MoveRules.RayNextStops` | app/src/main/java/com/example/test/chess/ChessGameState.kt:192-197 | The square just past such a ray is off the board or holds an own piece. |
| `MoveRules.RayExactly` | app/src/main/java/com/example/test/chess/ChessGameState.kt:188-202 | The square k steps along the line is on the ray exactly when three things hold: it is on the board, it holds no own piece, and every square before it on the line is empty. |
| `MoveRules.RayOnlyPastEmptySquares` | app/src/main/java/com/example/test/chess/ChessGameState.kt:188-202 | The only-if half of `RayExactly`: a square on the ray lies past empty squares only. |
| `MoveRules.RayReachesClearSquare` | app/src/main/java/com/example/test/chess/ChessGameState.kt:188-202 | The if half of `RayExactly`: a clear square past empty squares is on the ray. |
| `MoveRules.RaysMembers` | app/src/main/java/com/example/test/chess/ChessGameState.kt:132-173 | A square is among a piece's rays exactly when it is on the ray along one of its directions. |
| `MoveRules.RaysSound` | app/src/main/java/com/example/test/chess/ChessGameState.kt:132-173 | Every rook or bishop destination is on the board and holds no own piece. |
| `MoveRules.QueenRaysSound` | app/src/main/java/com/example/test/chess/ChessGameState.kt:204-262 | Every queen destination is on the board and holds no own piece. |
| `MoveRules.SameColourRookRays` | app/src/main/java/com/example/test/chess/ChessGameState.kt:132-202 | A rook or a bishop put on a square held by its own colour gets exactly that square's orthogonal or diagonal rays. |
| `MoveRules.QueenIsRookAndBishop` | app/src/main/java/com/example/test/chess/ChessGameState.kt:204-262 | A queen's destinations are exactly the union of those of a same-coloured rook and a same-coloured bishop on its square. |
| `MoveRules.RaysIgnoreOrigin` | app/src/main/java/com/example/test/chess/ChessGameState.kt:132-173 | The rays from a square depend only on the colour standing there, not on which piece it is. |
| `MoveRules.RayIgnoresOrigin` | app/src/main/java/com/example/test/chess/ChessGameState.kt:188-202 | The same holds for a single ray. |
| `MoveRules.CandidatesMembers` | app/src/main/java/com/example/test/chess/ChessGameState.kt:175-186 | A fixed-offset destination is exactly an offset square that is on the board and holds no own piece. |
| `MoveRules.KnightTargets` | app/src/main/java/com/example/test/chess/ChessGameState.kt:175-186 | The knight's destinations are exactly the on-board (±1,±2)/(±2,±1) jumps that hold no own piece. |
| `MoveRules.KingTargets` | app/src/main/java/com/example/test/chess/ChessGameState.kt:264-277 | The king's destinations are exactly the on-board squares at Chebyshev distance 1 that hold no own piece. |
| `MoveRules.PawnTargetsExactly` | app/src/main/java/com/example/test/chess/ChessGameState.kt:106-130 | A pawn's destinations are exactly these: the square ahead if empty; two ahead from the start row (6 for White, 1 for Black) if both squares are empty; a diagonal-forward square only if it holds an enemy piece. |
| `MoveRules.TargetsFailOnlyOnFarRank` | app/src/main/java/com/example/test/chess/ChessGameState.kt:122-128 | The generator fails exactly for a White pawn on row 0 or a Black pawn on row 7. |
| `MoveRules.TargetsSound` | app/src/main/java/com/example/test/chess/ChessGameState.kt:101-281 | Every destination of every piece is on the board, differs from the piece's square, and holds no piece of the mover's colour. So captures land on enemy pieces only, kings included. |
| `GameState.ChessGameState.constructor` | app/src/main/java/com/example/test/chess/ChessGameState.kt:28-30 | A new engine has the start position, no selection, White to move, nothing captured, version 0, and satisfies the invariant. |
| `GameState.ChessGameState.InitializeBoard` | app/src/main/java/com/example/test/chess/ChessGameState.kt:32-58 | Rows 0, 1, 6 and 7 receive the start placement, and rows 2-5 keep whatever they held. |
| `GameState.ChessGameState.PlaceBackRank` | app/src/main/java/com/example/test/chess/ChessGameState.kt:34-41 | One back rank receives rook, knight, bishop, queen, king, bishop, knight, rook, and every other row is unchanged. |
| `GameState.ChessGameState.PlacePawns` | app/src/main/java/com/example/test/chess/ChessGameState.kt:42-49 | One row is filled with pawns of one colour, and every other row is unchanged. |
| `GameState.ChessGameState.GetPiece` | app/src/main/java/com/example/test/chess/ChessGameState.kt:60 | Returns the piece on the requested square of the board. |
| `GameState.ChessGameState.SelectSquare` | app/src/main/java/com/example/test/chess/ChessGameState.kt:62-86 | The new state and the outcome are exactly `Select` of the old state, and the invariant is kept. |
| `GameState.ChessGameState.ChooseSquare` | app/src/main/java/com/example/test/chess/ChessGameState.kt:79-81 | Records the selection, then stores the generator's moves. If the generator fails, the old moves stay in place: this is `Choose`. |
| `GameState.ChessGameState.ClearSelection` | app/src/main/java/com/example/test/chess/ChessGameState.kt:70-72 | Clears the selection and the offered moves, and changes nothing else. |
| `GameState.ChessGameState.MovePiece` | app/src/main/java/com/example/test/chess/ChessGameState.kt:88-99 | The new state is exactly `Move` of the old state. |
| `GameState.ChessGameState.CalculateValidMoves` | app/src/main/java/com/example/test/chess/ChessGameState.kt:101-281 | Returns exactly `Targets` of the board for the square, including the far-rank pawn fault. |
| `GameState.ChessGameState.PawnMoves` | app/src/main/java/com/example/test/chess/ChessGameState.kt:106-130 | Returns exactly `PawnTargets`. The capture loop returns the fault on the first on-board column when the capture row is off the board. |
| `GameState.ChessGameState.PawnAdvanceMoves` | app/src/main/java/com/example/test/chess/ChessGameState.kt:107-120 | Returns exactly the single step and the double step of `PawnAdvances`, in that order. |
| `GameState.ChessGameState.SlideRay` | app/src/main/java/com/example/test/chess/ChessGameState.kt:188-202 | The stepping loop along one direction returns exactly `Ray` from the next square. |
| `GameState.ChessGameState.SlideMoves` | app/src/main/java/com/example/test/chess/ChessGameState.kt:132-173 | The rays along each direction, in order, are exactly `Rays`. |
| `GameState.ChessGameState.LandingMove` | app/src/main/java/com/example/test/chess/ChessGameState.kt:178-184 | One offset gives exactly `Landing`: the offset square if it is on the board and holds no own piece. |
| `GameState.ChessGameState.JumpMoves` | app/src/main/java/com/example/test/chess/ChessGameState.kt:175-186 | The knight's offset loop returns exactly `Candidates` over the knight's offsets in source order. |
| `GameState.ChessGameState.KingMoves` | app/src/main/java/com/example/test/chess/ChessGameState.kt:264-277 | The nested delta loops, skipping (0, 0), return exactly `Candidates` over the eight king steps in loop order. |
| `GameState.ChessGameState.ResetGame` | app/src/main/java/com/example/test/chess/ChessGameState.kt:283-293 | The new state is exactly `Reset` of the old state: the start position with every field reset and the version advanced. It satisfies the invariant and is synced. |

## Left out

- The UI files are not part of this model: `ChessBoardDragDrop.kt`, `ChessUI.kt` and `DragDropState.kt`. They contain gesture handling, floating-point offsets and layout, and they create the engine and call only `selectSquare`, `resetGame`, `getPiece`, `toBoolean`, `getPieceUnicode` and the read-only fields.
- `Position` is not defined in the Kotlin files of this model. The model assumes it is a data class, so two positions are equal exactly when their row and column are equal; `selectSquare` relies on that equality in `selectedPosition == pos` and `pos in validMoves` (ChessGameState.kt:70, :73).
- Compose's `mutableStateOf` delegates (ChessGameState.kt:11-25) are plain fields here. Recomposition and change notification are framework behaviour.
- The engine has no check detection, king-safety filtering, castling, en passant, promotion, checkmate or stalemate, so the model has none.
- An exception escaping `selectSquare` is not modelled beyond the point where it is raised. It is the far-rank pawn probe, reported as `Crashed`.
- `GameState.ChessGameState.GetPiece`: requires in-range coordinates. Kotlin throws on others, and the engine's own calls are in range apart from the pawn capture probe, which `PawnMoves` models as the fault result.
- `GameState.ChessGameState.SelectSquare`: requires an on-board square. For any other square the source throws at its first `getPiece`, and the UI only passes squares clamped to the board.
- `GameState.ChessGameState.SlideMoves`: the four literal rook and queen `for` loops over decreasing and increasing rows and columns are modelled by one stepping loop per direction. That loop is the bishop's `while` form, run over the directions up, down, left, right. It visits the same squares in the same order.
- `GameState.ChessGameState.SlideRay`: the bishop branch reads the stopping square twice (ChessGameState.kt:193, 195). The model reads it once, since nothing changes in between.
- `GameSpec.Move`: `movePiece` with equal source and destination is modelled as written. The piece is appended to the captured pieces and disappears. `selectSquare` never makes such a call.
- Square coordinates are unbounded integers. Every coordinate the engine computes stays within a few squares of the board, so Kotlin's 32-bit `Int` cannot overflow there.
