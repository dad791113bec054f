# Gobblet Gobblers engine — a verified Dafny model

Gobblet Gobblers is tic-tac-toe with nesting pieces. Each player owns two
Small, two Medium and two Large pieces. A move either places a piece from
the player's stock or relocates the visible top piece of one square. A
piece may cover ("gobble") a strictly smaller one. A player wins when the
visible tops of a row, column or diagonal are all theirs.

This project models the engine of the Go program in these modules:

| module | file | Go source |
|---|---|---|
| `Pieces` | pieces.dfy | game/pieces.go: players, sizes, pieces, `Opponent` |
| `Moves` | move.dfy | game/move.go: moves and their two constructors |
| `GameBoard` | board.dfy | game/board.go: the board class, validation, make/undo, win detection, move generation |
| `ZobristHash` | zobrist_hash.dfy | game/zobrist_hash.go: key lookups |
| `ZobristTransposition` | zobrist_transposition.dfy | ai/zobrist_transposition.go: whole-board hash, the package-level transposition table |
| `Transposition` | transposition_table.dfy | ai/transposition_table.go: the transposition-table object |
| `Evaluation` | evaluation.dfy | ai/evaluation.go: the three-valued terminal score |
| `Evaluator` | evaluator.dfy | ai/evaluator.go: terminal score with depth bias plus the line heuristic |
| `Minimax` | minimax.dfy | ai/minimax.go: fail-soft alpha-beta search, `SolvePosition`, `GetBestMove` |

Three helper modules stand in for pieces of Go:
- `Wrappers` provides `Option`, which models nil pointers.
- `Int64` covers Go's 64-bit `int`: `math.MinInt`/`math.MaxInt`, wrap-around, and the builtins `max` and `min`.
- `Bitwise` defines XOR on naturals and proves its algebra: it is commutative, associative and self-inverse, and it keeps 64-bit words as 64-bit words.

**Values and objects.** The board is a value `State` made of:
- nine stacks in row-major order;
- the stock map;
- the side to move.

Every rule is a function on `State`. The class `GameBoard.Board` has the same fields and changes them in place. Each of its methods is proved against those functions through `Snapshot()`. The transposition tables are classes whose `entries` map the methods update.

**Zobrist keys.** Go draws the keys at start-up from `rand`. Here they are a `Keys` value passed in, constrained only by their shape, so every property holds for every key table.

**Minimax against plain minimax.** `Minimax.Value` is plain minimax over the same move lists, in the same order. `Minimax.Search` models `minimax`. Its result is proved fail-soft against `Value` for every window (`FailSoft` in `ZobristTransposition`). At the full window `(MinInt, MaxInt)` the result therefore equals `Value`, which is what `SolvePosition` reports.

**The table never answers — under one assumption.** `storeHash` never records a move, so every entry holds the zero `Move` (`ZobristTransposition.LookupNeverMoves`). A hit is only used when `IsValidMove` accepts its stored move (ai/minimax.go:40). The model assumes that this validity check rejects the zero move. game/board.go as written does not: its `IsValidMove` returns one result where ai/minimax.go expects two, and on `Move{}` it hands the nil `To` to the bounds check (game/board.go:110), and its ownerless piece indexes the stock row of `None`, which does not exist (game/board.go:187), so it panics. In the model the zero move targets square (0,0) and places an ownerless piece, which has no stock, so it is invalid (`GameBoard.ZeroMoveInvalid`). Under that assumption no hit is ever returned, and search with the table behaves as search without it. With board.go as written, the first table hit would panic instead.

**How the modelled Go files disagree.** The files modelled here come from different iterations of the repository and do not compile together. The model settles each mismatch as follows:
- The side to move (`ActivePlayer`) is a board field. Make flips it and undo restores it.
- `MustMakeMove` is `MakeMove` for a move known to be valid.
- Make is the corrected make of "## Findings": the stock is debited for placements only. The `Board` class, and with it the whole search, runs on that corrected make; `GameBoard.ApplyAsWritten` keeps the make as board.go writes it.
- `MustUndoMove` is the exact inverse of make.
- The lines are the eight lines `CheckWin` visits, in its order.
- `Piece.ID` numbers Player1's pieces 0..2 and Player2's 3..5, by size.
- `GetPossibleMoves` takes the player, as game/board.go declares it; the search passes the side to move.
- The search takes the table, the key table and the board as parameters instead of using globals.

## Model

| member | source | states |
|---|---|---|
| Pieces.Size.Rank | game/pieces.go:17-21 | the rank of a size is below 3 |
| Pieces.SizeOfRank | game/pieces.go:17-21 | the size with a given rank, the inverse of Rank |
| Pieces.Piece.ID | game/zobrist_hash.go:27-29 | an owned piece's ID is below 6; ID / 3 selects the owner and ID % 3 is the size's rank |
| Pieces.IDInjective | game/zobrist_hash.go:27-29 | two owned pieces have the same ID iff they are the same piece |
| Pieces.Opponent | game/pieces.go:46-55 | Player1 and Player2 are swapped; None has no opponent (each direction an iff) |
| Pieces.OpponentInvolution | game/pieces.go:46-55 | Opponent is an involution, and no player is its own opponent |
| Pieces.SizeOrder | game/pieces.go:17-21 | Small < Medium < Large; ranks are equal only for equal sizes and always comparable |
| Moves.NewMove | game/move.go:9-22 | a placement: no `From`, the given target, piece (player, size), and it places a new piece |
| Moves.NewMoveExisting | game/move.go:24-34 | a relocation: `From` and `To` as given, the zero piece, so it moves an existing piece |
| Moves.TagsExclusive | game/move.go:36-42 | exactly one of MovesExistingPiece and PlacesNewPiece holds; the first iff the piece is the zero piece |
| GameBoard.IsWithinBounds | game/board.go:179-184 | true iff row and column are both in 0..2 |
| GameBoard.GetPositionStack | game/board.go:190-192 | the stack stored at row-major index 3*row+col; every piece in it is owned |
| GameBoard.TopPiece | game/board.go:46-52 | nil iff the stack is empty, otherwise its last piece, which has an owner |
| GameBoard.HasPieceAvailable | game/board.go:186-188 | true iff the owner is a player whose stock for that size is at least 1 |
| GameBoard.AvailablePieces | game/board.go:165-177 | exactly the player's pieces with stock left, in increasing size |
| GameBoard.Lines | game/board.go:54-71 | eight lines of three in-bounds squares |
| GameBoard.CheckLine | game/board.go:76-84 | a winner only when all three pieces are present and share that owner; three pieces with one owner give that owner |
| GameBoard.LineOwnerSpec | game/board.go:76-84 | a line's owner owns all three visible pieces, and an owner of all three is the line's owner |
| GameBoard.FirstOwnerSpec | game/board.go:54-74 | the first won line decides: None iff no line is won, else a line won by the result exists |
| GameBoard.WinnerSpec | game/board.go:54-74 | CheckWin is None iff no row, column or diagonal shows three tops of one owner; otherwise the winner owns such a line |
| GameBoard.ValidMoveRules | game/board.go:105-163 | out-of-bounds `To` or `From` is invalid; a placement without stock is invalid; a valid move onto a piece is strictly larger; a placement in stock onto `To` is valid iff `To` is empty or shows a smaller piece; a valid relocation lifts the matching top piece of a different square and lifting it reveals no winner |
| GameBoard.ZeroMoveInvalid | game/board.go:114-117 | the zero move is never valid |
| GameBoard.ApplyEffect | game/board.go:19-44 | a valid make pushes the piece on `To`, pops `From` for a relocation, keeps every other square, takes exactly one piece from the stock for a placement only, and flips the side to move |
| GameBoard.ApplyAsWritten | game/board.go:19-36 | make as board.go writes it keeps the board well formed (its stock effect is in AsWrittenBreaksStock) |
| GameBoard.UndoInvertsApply | ai/minimax.go:55-57 | undo after make restores the board exactly, stock and side to move included |
| GameBoard.ApplyKeepsStock | game/board.go:32-36 | the corrected make keeps every piece accounted for: stock plus pieces on the board stays two per owner and size |
| GameBoard.AsWrittenBreaksStock | game/board.go:32-36 | on a relocation board.go's make takes one more piece from the stock than the corrected make, and from any conserving board it breaks the accounting |
| GameBoard.StockBreaksAsWritten | game/board.go:24-35 | from the new board: Player1 places Large on (0,0), the piece may then move to (1,1), and after board.go's make the Large stock shows 0 while one Large is on the board, so one piece is missing from the accounting |
| GameBoard.NewStateFacts | game/board.go:10-17 | the new board has every square empty, stock 2/2/2 for both players, Player1 to move, every piece accounted for |
| GameBoard.NewStateNoWinner | game/board.go:10-17 | nobody has won on the new board |
| GameBoard.EmptyGridNoWinner | game/board.go:76-79 | a board of empty squares has no winner |
| GameBoard.PlaceOnEmpty | game/board.go:151-156 | a placement in stock onto an empty in-bounds square is valid |
| GameBoard.PlacementsSpec | game/board.go:91-96 | the placements kept on one square are exactly the valid placements of the given pieces there |
| GameBoard.PossibleMovesSpec | game/board.go:86-103 | GetPossibleMoves yields exactly the valid placements of the player's available pieces and no relocation |
| GameBoard.FreshBoardHas27Moves | game/board_test.go:111 | the new board offers Player1 9 squares x 3 sizes = 27 moves |
| GameBoard.Board.constructor | game/board.go:10-17 | NewBoard is the new board |
| GameBoard.Board.RemovePiece | game/board.go:38-44 | the top of a non-empty square is popped, nothing else changes |
| GameBoard.Board.PlacePiece | game/board.go:32-36 | the corrected placePiece of "## Findings": the piece is pushed on the square, and taken from the stock only when it comes from there |
| GameBoard.Board.MustMakeMove | game/board.go:24-27 | the board becomes the corrected make of "## Findings" of the valid move |
| GameBoard.Board.MakeMove | game/board.go:19-30 | ok iff the move is valid; the board becomes the corrected make of "## Findings" when ok and is unchanged otherwise |
| GameBoard.Board.MustUndoMove | ai/minimax.go:57 | the board becomes the undo of the move |
| GameBoard.Board.CheckWin | game/board.go:54-74 | the winner of the board, visiting rows and columns pairwise and then the diagonals |
| GameBoard.Board.IsValidMove | game/board.go:105-163 | the validity of the move, with the board as it was afterwards, even after the temporary lift of a relocation |
| GameBoard.Board.GetPossibleMoves | game/board.go:86-103 | the valid placements square by square in row-major order, smallest piece first |
| GameBoard.SquarePlacements | game/board.go:91-96 | the valid placements of the given pieces on one square, in order |
| ZobristHash.Slot | game/zobrist_hash.go:31-33 | the array index of a player: 0 iff None, 1 iff Player1 |
| ZobristHash.GetZobristValue | game/zobrist_hash.go:27-29 | the table key at (row, col, owner-major size index), a 64-bit word |
| ZobristHash.GetPlayerZobristValue | game/zobrist_hash.go:19-33 | the side-to-move key, a 64-bit word; None's slot is never filled and is 0 |
| ZobristTransposition.Hash | ai/zobrist_transposition.go:41-58 | the XOR of the key of every piece of every stack, covered pieces included, and of the side-to-move key |
| ZobristTransposition.HashStack | ai/zobrist_transposition.go:47-50 | the inner loop toggles the key of every piece of the stack on its square, bottom first |
| ZobristTransposition.HashIsWord | ai/zobrist_transposition.go:41-58 | the hash fits in a uint64 |
| ZobristTransposition.HashAnyOrder | ai/zobrist_transposition.go:45-52 | any enumeration of the board's (square, piece) pairs, each as often as it occurs, gives the same hash |
| ZobristTransposition.PushHash | ai/zobrist_transposition.go:48-49 | pushing a piece toggles exactly its key on that square; the stock does not enter the hash |
| ZobristTransposition.PopHash | ai/zobrist_transposition.go:48-49 | popping a square toggles exactly the key of its top piece there |
| ZobristTransposition.TurnHash | ai/zobrist_transposition.go:55 | changing the side to move toggles the old and the new side-to-move key |
| ZobristTransposition.ApplyHash | ai/zobrist_transposition.go:41-58 | a make changes the hash by XOR with the move's toggle: `From` key, `To` key, both side keys |
| ZobristTransposition.UndoHash | ai/zobrist_transposition.go:41-58 | an undo changes the hash by XOR with the toggle of the make it reverts |
| ZobristTransposition.MakeUndoRestoresHash | game/zobrist_hash_test.go:11-16 | make then undo restores the hash, for placements and relocations |
| ZobristTransposition.RedoReproducesHash | game/zobrist_hash_test.go:17-20 | redoing an undone move reproduces the post-move hash |
| ZobristTransposition.MoveChangesHash | game/zobrist_hash_test.go:22-24 | a move changes the hash iff the XOR of its toggled keys is not 0 |
| ZobristTransposition.NewBoardHash | game/zobrist_hash_test.go:6-10 | the new board hashes to Player1's side-to-move key |
| ZobristTransposition.StoreIn | ai/zobrist_transposition.go:78-85 | the key is present afterwards; other keys are untouched; the entry's depth becomes the larger of the two; entries keep the zero move |
| ZobristTransposition.Table.constructor | ai/zobrist_transposition.go:10 | the table starts empty |
| ZobristTransposition.Table.LookupHash | ai/zobrist_transposition.go:60-76 | a miss `(false, NoWin, zero move)` for an absent key or a shallower entry; a hit reports the entry's evaluation and move |
| ZobristTransposition.Table.StoreHash | ai/zobrist_transposition.go:78-85 | the map becomes StoreIn of the old map |
| ZobristTransposition.LookupRules | ai/zobrist_transposition.go:66-75 | at sufficient depth an Exact entry hits, a LowerBound hits iff it is at least beta, an UpperBound hits iff it is at most alpha |
| ZobristTransposition.HitIsFailSoft | ai/zobrist_transposition.go:66-73 | a hit on an entry that is sound for the position is a correct fail-soft answer for the window |
| ZobristTransposition.StoreKeepsDeeper | ai/zobrist_transposition.go:81-84 | a store no deeper than the entry, equal depth included, is a no-op |
| ZobristTransposition.StoreWrites | ai/zobrist_transposition.go:81-84 | a store into a new key or at a greater depth writes the entry, with the zero move |
| ZobristTransposition.LookupNeverMoves | ai/zobrist_transposition.go:83 | every lookup of a table filled by storeHash reports the zero move |
| Transposition.Lookup | ai/transposition_table.go:35-51 | a miss for an absent key or a shallower entry; a hit reports the entry's evaluation and move; otherwise a miss |
| Transposition.Store | ai/transposition_table.go:53-60 | the key is present; other keys are untouched; for a new key or a strictly greater depth the entry becomes (evaluation, depth, bestMove, boundType), otherwise it stays as it was |
| Transposition.TranspositionTable.constructor | ai/transposition_table.go:29-33 | a new table is empty |
| Transposition.TranspositionTable.LookupHash | ai/transposition_table.go:35-51 | returns Lookup of the entries and has no modifies clause, so it changes nothing |
| Transposition.TranspositionTable.StoreHash | ai/transposition_table.go:53-60 | the entries become Store of the old entries |
| Transposition.EmptyTableMisses | ai/transposition_table.go:29-39 | every lookup in a new table misses |
| Transposition.LookupRules | ai/transposition_table.go:42-50 | at sufficient depth ExactBound hits, LowerBound hits iff at least beta, UpperBound hits iff at most alpha |
| Transposition.StoreKeepsDeeper | ai/transposition_table.go:54-59 | a store no deeper than the entry, equal depth included, is a no-op |
| Transposition.ExactStoreHits | ai/transposition_table.go:42-58 | after an ExactBound store into an empty slot, a lookup at the same or a smaller depth returns (true, evaluation, bestMove) for every window |
| Transposition.StoreIsolated | ai/transposition_table.go:53-60 | a store is invisible to lookups of every other key |
| Evaluation.Evaluate | ai/evaluation.go:13-24 | 1 iff Player1 has won, -1 iff Player2 has, 0 iff nobody has |
| Evaluation.EvaluateRange | ai/evaluation.go:13-24 | the score is one of -1, 0, 1, so the panic branch is unreachable |
| Evaluation.Column0Player1 | game/board.go:54-63 | Player1 visible on all of column 0 evaluates to Player1Win |
| Evaluation.MainDiagonalPlayer2 | game/board.go:54-68 | Player2 visible on the main diagonal evaluates to Player2Win |
| Evaluation.MixedColumnNoWin | game/board.go:54-74 | a board whose only pieces are in column 0, mixed between the players, evaluates to NoWin |
| Evaluation.PlacementShows | game/board.go:32-36 | a placement shows the piece on its square, keeps the other squares and the other stock entries, and takes one from its own stock |
| Evaluation.ThirdPlacement | ai/evaluation_test.go:8-36 | three placements from the new board onto distinct squares, the third repeating the first piece, are each valid; every placed piece stays visible and all other squares stay empty |
| Evaluation.Player1ColumnGame | ai/evaluation_test.go:8-16 | the three test placements are valid and evaluate to Player1Win |
| Evaluation.Player2DiagonalGame | ai/evaluation_test.go:18-26 | the three test placements are valid and evaluate to Player2Win |
| Evaluation.MixedColumnGame | ai/evaluation_test.go:28-36 | the three test placements are valid and evaluate to NoWin |
| Evaluator.EvaluateLine | ai/evaluator.go:53-89 | the counting loop returns the line's potential from the visible pieces |
| Evaluator.LineScoreCases | ai/evaluator.go:53-89 | a line scores one of -100, -10, 0, 10, 100; 0 when both sides show; positive iff only Player1 shows; negative iff only the other side shows; 0 when empty; with the other side absent, two Player1 tops score 100 and one scores 10; with Player1 absent, two other tops score -100 and one scores -10 |
| Evaluator.CountPositive | ai/evaluator.go:57-64 | a count is positive iff some square of the line shows a piece of that side, any non-Player1 piece counting for Player2 |
| Evaluator.FullLineScoresNothing | ai/evaluator.go:72-89 | a line of three visible pieces of one owner scores 0 |
| Evaluator.SumScores | ai/evaluator.go:43-51 | a sum of k line scores lies within +-100k |
| Evaluator.HeuristicScore | ai/evaluator.go:43-51 | the heuristic lies within +-800 |
| Evaluator.CalculateHeuristicScore | ai/evaluator.go:43-51 | the loop returns the sum of the eight line scores |
| Evaluator.EmptyBoardScoresNothing | ai/evaluator.go:43-51 | an empty board scores 0 |
| Evaluator.SwapNegatesHeuristic | ai/evaluator.go:43-89 | swapping the colours of every piece negates the heuristic |
| Evaluator.Evaluate | ai/evaluator.go:22-34 | 1000 + depth for Player1's win, -1000 - depth for Player2's, in Go int arithmetic; the heuristic otherwise |
| Evaluator.ScoreSeparates | ai/evaluator.go:22-34 | for non-overflowing depths a Player1 win is above every heuristic score and a Player2 win below; faster wins score further from 0 |
| Evaluator.EvaluateMove | ai/evaluator.go:36-41 | the heuristic of the position after the move, with the board as it was afterwards |
| Minimax.Evaluate | ai/minimax.go:88-99 | the terminal score lies in Go's int range |
| Minimax.VerdictOfEvaluate | ai/minimax.go:88-99 | for non-overflowing depths the terminal score is exactly 1000 + depth for Player1's win, -1000 - depth for Player2's and 0 otherwise; its verdict is the winner; faster wins score further from 0 |
| Minimax.IsMaximizingPlayer | ai/minimax.go:101-103 | true iff Player1 |
| Minimax.Verdict | ai/minimax.go:19-25 | None iff the evaluation is 0, Player1 iff it is at least 1000, Player2 otherwise |
| Minimax.Value | ai/minimax.go:34-86 | plain minimax over the same move lists stays in Go's int range |
| Minimax.BestBounds | ai/minimax.go:59-71 | the running max (min) bounds every value seen, and once one is seen it is one of them |
| Minimax.MaxStep | ai/minimax.go:59-64 | searching the next child with the window (max(alpha, maxEval), beta) keeps the running maximum fail-soft |
| Minimax.MinStep | ai/minimax.go:65-71 | searching the next child with the window (alpha, min(beta, minEval)) keeps the running minimum fail-soft |
| Minimax.MaxCutoff | ai/minimax.go:73-75 | a maximum that reached beta stays fail-soft whatever the skipped children hold |
| Minimax.MinCutoff | ai/minimax.go:73-75 | a minimum that fell to alpha stays fail-soft whatever the skipped children hold |
| Minimax.NoMovesLoses | ai/minimax.go:51-52 | with no legal move and no winner, a maximizer scores MinInt and a minimizer MaxInt, so SolvePosition names the opponent |
| Minimax.FullWindowExact | ai/minimax.go:18 | at the window (MinInt, MaxInt) a fail-soft result is the exact value |
| Minimax.Search | ai/minimax.go:34-86 | the board is restored; entries keep the zero move; the result is fail-soft against plain minimax for the window; at depth 0 or on a won board it is the terminal score with the zero move; otherwise the zero move comes back only when no child beat the initial bound, and any other move is a legal generated move whose child's value is the result whenever the result lies strictly inside the window |
| Minimax.SearchMoves | ai/minimax.go:51-85 | the child loop restores the board; its result is the best of the results it explored and is fail-soft against the best of all child values; it stops early only once the window has closed; the move kept is the first child that strictly improved the best, and its value is exact when the result lies strictly inside the window |
| Minimax.SearchChild | ai/minimax.go:55-57 | make, search one level shallower for the other side, undo: the board is restored and the result is fail-soft against the child's value |
| Minimax.SearchValue | ai/minimax.go:56 | the recursive call as the loop uses it: the board is restored and the result is fail-soft against plain minimax, the move discarded |
| Minimax.NodeValue | ai/minimax.go:45-85 | the value of a node, the terminal score or the best child value, stays in Go's int range |
| Minimax.ExploredSnoc | ai/minimax.go:54-75 | each child searched while the window is open, with the window narrowed by the best result so far, extends the record of explored children |
| Minimax.FirstBestSnoc | ai/minimax.go:59-71 | the kept move changes exactly when a result strictly improves on the best so far, so it is the first child reaching the best result |
| Minimax.FirstBestExact | ai/minimax.go:59-71 | the first child reaching the best result, when that result lies strictly inside the window, was searched exactly |
| Minimax.ExploredFailSoft | ai/minimax.go:54-75 | the best of the explored results is fail-soft against the best of the same children's values |
| Minimax.LoopFailSoft | ai/minimax.go:54-85 | once the loop stops, after the last child or at a cutoff, the best explored result is fail-soft against the best of all children |
| Minimax.ChildBeyondValue | ai/minimax.go:59-71 | no child of a position is worth more to the side that moves than the position itself |
| Minimax.SolvePosition | ai/minimax.go:17-26 | the verdict of plain minimax for the side to move, with the board restored |
| Minimax.GetBestMove | ai/minimax.go:28-32 | the board is restored; the zero move only at depth 0, on a won board, or when the position's value is the side's initial bound; otherwise a legal generated move whose child reaches the position's value whenever that value lies strictly between MinInt and MaxInt |

## Left out

- The command line, the game loop and the entry point (cli/cli.go, game/game.go, main.go) are not part of this model. They are terminal input and output.
- `Piece.String` formats through a foreign colour library.
- `InitZobrist` and both `init` functions draw the keys from `rand`. The keys are a parameter constrained only by their shape.
- `shuffleMoves` permutes with a clock-seeded generator. The model searches the generated moves in generation order.
- The `Printf` in `GetBestMove` is left out.
- The panics of `NewMove`, `NewMoveExisting`, `removePiece` and `MustMakeMove` are preconditions.
- GameBoard.HasPieceAvailable: returns false for an ownerless piece. game/board.go:187 indexes the stock row of `None`, which `NewBoard` never creates, and panics.
- GameBoard.ZeroMoveInvalid: states that the zero move is invalid, which the model relies on at ai/minimax.go:40. game/board.go's `IsValidMove` does not reject `Move{}`: its `To` is nil at the bounds check (game/board.go:110), and its ownerless piece indexes a stock row that does not exist (game/board.go:187), which panics. The model assumes the two-result `IsValidMove` that ai/minimax.go calls rejects the zero move, so a table hit is never used rather than a panic.
- Minimax.Search: the proof that no table hit is taken rests on the assumption stated under GameBoard.ZeroMoveInvalid.
- The panic branches of the evaluators are unreachable, because the winner is always one of the three players.
- The concrete depth-5, depth-8 and depth-1 results of the minimax tests are left out. They are searches over large game trees, not contracts.
- Relocation moves are never generated: game/board.go's `GetPossibleMoves` enumerates placements only. They are modelled in validation, make, undo and hashing.
- XOR on `uint64` is XOR on naturals below 2^64. Every key is a 64-bit word and every hash is proved to be one (`ZobristTransposition.HashIsWord`).
- Go's `int` is modelled only where it can leave its range: the depth-biased terminal score wraps, and `MinInt`/`MaxInt` are the 64-bit bounds. Counts and heuristic sums stay far inside it.
- Minimax.Search: requires a depth of at least 0. A negative depth never reaches 0 in Go, so the recursion would only stop at a win or a position without moves.
- Minimax.Search: does not state what it leaves in the table beyond "every entry holds the zero move". It does not claim the stored bounds are sound. A maximizing node that fails low stores its result as a lower bound, though it is only an upper bound. This is harmless here, because no hit is ever used.
- Minimax.GetBestMove: does not state that the move reaches the position's value when that value is MinInt or MaxInt. At those bounds a child's fail-soft result does not pin down the child's value, so the contract makes no claim there.
- Hash collisions are not modelled. No lemma assumes two positions have different hashes.

## Findings

| source | as written | input that shows it | evidently intended | confidence | as-written member | corrected member |
|---|---|---|---|---|---|---|
| game/board.go:32-36 | `placePiece` decrements the stock of the placed piece on every make, including relocations, which take a piece already on the board | new board; Player1 places Large on (0,0); Player1's Large on (0,0) moves to (1,1). Player1's Large stock drops to 0 while one Large is on the board | only placements from the stock decrement it, so stock plus pieces on the board stays 2 per owner and size | not executed | GameBoard.StockBreaksAsWritten | GameBoard.ApplyKeepsStock, GameBoard.Board.MakeMove |

The corrected make is the one the `Board` class implements (`GameBoard.Board.PlacePiece`, `GameBoard.Board.MustMakeMove`, `GameBoard.Board.MakeMove`), so the search runs on it.
