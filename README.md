# GoApp rules engine, session controller and SGF reader in Dafny

This project models the logic at the centre of the GoApp Android Go game:

- **The rules engine `GameState`.**
  - A state has an active player, a square grid of pieces and an optional Ko location.
  - A move is checked in three steps: the wrong player is refused first, then the Ko rule, then self-capture.
  - A move is applied by placing the stone and emptying every adjacent opponent group that has no liberties.
  - A pass flips the player.
  - Area scoring counts each player's stones plus the empty regions bordered only by that player.
- **The earlier copy of the engine (package `com.example`).** Its liberty search has an extra, redundant base case. The model proves that both searches return the same result.
- **The session controller `GoViewModel`** (with its record `GoUiState`), in the current and the earlier version. It holds the current state, the undo stack, game-over detection by two passes in a row, and the game-over text.
- **The SGF reader `sgfToMoveList`.** It reads the moves, the komi and the winner from the lines of an SGF record.

Modules:

| module | file | models |
|---|---|---|
| `Board` | board.dfy | pieces, coordinates, the grid, the four edge-aware neighbour getters, `getOppositePiece` |
| `Groups` | groups.dfy | connected groups and empty regions, defined by paths, and their liberties |
| `Liberties` | liberties.dfy | the recursive `hasLiberties` depth-first search |
| `Engine` | engine.dfy | `GameState`: construction, the legality checks, `inputMove`, `passTurn` |
| `Scoring` | scoring.dfy | `calculateAreaScore` and the flood fill `calculateSurroundedEmptyLocationScore` |
| `LegacyEngine` | legacy_engine.dfy | the earlier `hasLiberties` and `checkLegalAndInputMove` |
| `Session` | view_model.dfy | the current `GoViewModel` as a class |
| `LegacySession` | legacy_view_model.dfy | the earlier `GoViewModel` as a class |
| `Sgf` | sgf.dfy | `sgfToMoveList` over the file's lines |

Modelling choices:

- **Cells are modelled by coordinate.** The grid is a `seq<seq<Piece>>`. A Kotlin `Location` is a data class over (piece, coordinate, boardSize), so two locations of one board are equal exactly when their coordinates are.
- **The Ko location is a coordinate.** It is one of the captured cells, which `inputMove` then sets to EMPTY in place, so the Ko test in `checkMoveIsLegalPreliminary` compares coordinates.
- **`inputMove` builds a fresh grid and then changes it in place.** The model builds the placed grid and then clears the captured groups one neighbour at a time, through the `while` loop of `Engine.RemoveStones`.
- **The result of a move is specified by the ghost function `Engine.MoveResult`.** It folds over the four neighbours in the source's order (above, below, left, right). A group is captured when it is the opponent's and has no liberty on the board as it stands at that neighbour. `Engine.InputMove` is proved equal to it.
- **`hasLiberties` and the flood fill are recursive methods that thread a visited set.** Both terminate because the set of unvisited cells shrinks. Both are proved against the path-defined `Groups.Group`.
- **The session controllers are classes** whose fields are the `GoUiState` fields and `seeEndGameState`. The `ArrayDeque` undo stack is a `seq` field: `addLast` appends and `removeLastOrNull` drops the last element.
- **Two differences between the code and the Ko rule as the source's comments state it are modelled as the code has them:**
  - Ko forbids the next move at the captured point whatever that move would capture, snapback included.
  - Ko is set by any captured one-stone group, even when other groups fall in the same move. The last such group wins.
- **A pass clears the Ko point**, so Ko forbids only the move right after the capture (`Engine.KoForbidsOnlyTheNextMove`).
- **The engine never checks that the target cell is empty.** `inputMove` overwrites the piece (GameState.kt:139). Only the UI disables taps on occupied cells. The model overwrites as the engine does.
- **The SGF reader gives the first letter of a point to the row**, unlike the Go point type of SGF FF[4], which puts the column first. The model follows the code.

## Model

Source paths are relative to the repository root. `com/goapppackage` is the current code and `com/example` the earlier copy.

| member | source | states |
|---|---|---|
| Board.Opposite | app/src/main/java/com/goapppackage/goapp/data/GameState.kt:391-397 | PLAYER1 and PLAYER2 are swapped and EMPTY stays EMPTY |
| Board.OppositeIsInvolution | app/src/main/java/com/example/goapp/data/GameState.kt:364-370 | getOppositePiece applied twice gives back the piece |
| Board.Above | app/src/main/java/com/goapppackage/goapp/data/GameState.kt:214-223 | None exactly on the top row (row <= 0), otherwise the cell one row up, which is orthogonally adjacent |
| Board.Below | app/src/main/java/com/goapppackage/goapp/data/GameState.kt:231-240 | None exactly on the bottom row (row >= boardSize - 1), otherwise the cell one row down |
| Board.Left | app/src/main/java/com/goapppackage/goapp/data/GameState.kt:248-257 | None exactly on the left column (col <= 0), otherwise the cell one column left |
| Board.Right | app/src/main/java/com/goapppackage/goapp/data/GameState.kt:265-274 | None exactly on the right column (col >= boardSize - 1), otherwise the cell one column right |
| Board.NeighboursExact | app/src/main/java/com/goapppackage/goapp/data/GameState.kt:276-283 | the four getters give, in order, exactly the on-board orthogonal neighbours of a cell |
| Board.CellsCount | app/src/main/java/com/goapppackage/goapp/data/GameState.kt:411 | the nested row/col loops visit boardSize * boardSize distinct cells |
| Board.ClearedTwice | app/src/main/java/com/goapppackage/goapp/data/GameState.kt:169-171 | emptying A and then B is emptying A and B together |
| Board.ClearedNothing | app/src/main/java/com/goapppackage/goapp/data/GameState.kt:169-171 | emptying no cells leaves the grid as it is |
| Groups.GroupOfMember | app/src/main/java/com/goapppackage/goapp/data/GameState.kt:285-295 | every stone of a group has that same group, so the search finds the same group from any of its stones |
| Groups.ClosedSetContainsGroup | app/src/main/java/com/goapppackage/goapp/data/GameState.kt:350-366 | a set that holds a stone and all same-colour neighbours of its members holds the stone's whole group |
| Groups.GroupCharacterized | app/src/main/java/com/goapppackage/goapp/data/GameState.kt:285-295 | such a closed set of stones reachable from the start is exactly the start's group |
| Groups.GroupUnaffectedByClearing | app/src/main/java/com/goapppackage/goapp/data/GameState.kt:147 | emptying stones outside a group changes neither the group nor whether it has a liberty |
| Liberties.HasLibertiesFrom | app/src/main/java/com/goapppackage/goapp/data/GameState.kt:296-368 | (true, {}) only when the start's group has a liberty; otherwise the returned set extends visited by the start, stays inside the group, and every added stone has no empty neighbour and has its friendly neighbours in the set |
| Liberties.HasLiberties | app/src/main/java/com/goapppackage/goapp/data/GameState.kt:384-389 | (true, {}) exactly when the group of the start has an empty orthogonal neighbour; otherwise (false, S) with S exactly that group |
| Engine.NewGame | app/src/main/java/com/goapppackage/goapp/data/GameState.kt:22-37 | a boardSize x boardSize grid of EMPTY cells, PLAYER1 to move, no Ko |
| Engine.CheckMoveIsLegalPreliminary | app/src/main/java/com/goapppackage/goapp/data/GameState.kt:48-67 | WRONGPLAYERTOMOVE exactly when the piece is not the active player; KO exactly when it is and the point is the Ko point; never SELFCAPTURE; occupancy is not looked at |
| Engine.PreliminaryIgnoresBoard | app/src/main/java/com/example/goapp/data/GameState.kt:48-68 | the preliminary verdict depends only on the player, the Ko point and the proposed point, not on the pieces |
| Engine.PassTurn | app/src/main/java/com/goapppackage/goapp/data/GameState.kt:191-198 | the same board and size, the opposite player to move, and no Ko |
| Engine.KoForbidsOnlyTheNextMove | app/src/main/java/com/goapppackage/goapp/data/GameState.kt:191-198 | after a pass no point is refused for Ko |
| Engine.CapturedStonesFacts | app/src/main/java/com/goapppackage/goapp/data/GameState.kt:142-175 | every captured stone is an opponent stone in the liberty-less group of one of the examined neighbours, and each such group is captured whole |
| Engine.KoAfterCaptureFacts | app/src/main/java/com/goapppackage/goapp/data/GameState.kt:162-166 | Ko after a move is None or one of the captured stones, a one-stone group that was captured |
| Engine.KoIsSetBySingletonCapture | app/src/main/java/com/goapppackage/goapp/data/GameState.kt:162-166 | Ko is set when some captured neighbouring group has exactly one stone |
| Engine.KoWhenOneStoneCaptured | app/src/main/java/com/goapppackage/goapp/data/GameState.kt:178-180 | when exactly one stone is captured in total, Ko is set, which is what the runtime assert checks |
| Engine.RemoveStones | app/src/main/java/com/goapppackage/goapp/data/GameState.kt:168-171 | the loop empties exactly the given cells and keeps every other cell |
| Engine.OpponentNeighbour | app/src/main/java/com/goapppackage/goapp/data/GameState.kt:148-150 | a neighbour still holding an opponent stone belongs to a group not yet captured, whose liberties are unchanged by the earlier captures |
| Engine.CapturedNeighbour | app/src/main/java/com/goapppackage/goapp/data/GameState.kt:150-172 | a neighbour group without liberties is emptied whole and counted, and Ko is set when it has one stone |
| Engine.LiveNeighbour | app/src/main/java/com/goapppackage/goapp/data/GameState.kt:150 | a neighbour group with a liberty is left as it is |
| Engine.SkippedNeighbour | app/src/main/java/com/goapppackage/goapp/data/GameState.kt:148 | an off-board, empty, own or already emptied neighbour changes nothing |
| Engine.CaptureNeighbour | app/src/main/java/com/goapppackage/goapp/data/GameState.kt:142-175 | one pass of the neighbour loop moves the board, Ko and capture count to the next step of the capture fold |
| Engine.InputMove | app/src/main/java/com/goapppackage/goapp/data/GameState.kt:108-183 | a fresh state with the opposite player, the same size, the stone placed, the dead adjacent opponent groups emptied and Ko as the rule sets it; the input state is a value and is not changed |
| Engine.PlacedStoneRemains | app/src/main/java/com/goapppackage/goapp/data/GameState.kt:139 | after the move the placed stone is still on its point, since captures only remove opponent stones |
| Engine.CaptureRule | app/src/main/java/com/goapppackage/goapp/data/GameState.kt:142-175 | compared with the board right after placing the stone, a cell becomes EMPTY exactly when it lies in a liberty-less opponent group bordering the placed point, and every other cell keeps its piece |
| Engine.KoRule | app/src/main/java/com/goapppackage/goapp/data/GameState.kt:162-180 | a set Ko point is an emptied neighbour of the placed stone whose liberty-less group was that one stone; Ko is None exactly when no captured neighbouring group had one stone; one stone captured in all sets Ko |
| Engine.CheckLegalAndInputMove | app/src/main/java/com/goapppackage/goapp/data/GameState.kt:74-93 | any verdict other than NONE returns the receiver unchanged; WRONGPLAYERTOMOVE, KO and SELFCAPTURE each hold exactly in their case, SELFCAPTURE being decided on the board after captures; NONE exactly for a legal move, with the result of inputMove |
| LegacyEngine.HasLibertiesFrom | app/src/main/java/com/example/goapp/data/GameState.kt:269-341 | the same contract as the current search, with the extra base case in place |
| LegacyEngine.HasLiberties | app/src/main/java/com/example/goapp/data/GameState.kt:357-362 | (true, {}) exactly when the start's group has a liberty, otherwise (false, that group) |
| LegacyEngine.SearchesAgree | app/src/main/java/com/example/goapp/data/GameState.kt:326-340 | the earlier and the current search return the same pair on every board |
| LegacyEngine.CheckLegalAndInputMove | app/src/main/java/com/example/goapp/data/GameState.kt:75-94 | the same verdicts and resulting state as the current engine: receiver unchanged on failure, SELFCAPTURE exactly when the placed group has no liberty after captures |
| Scoring.CalculateSurroundedEmptyLocationScore | app/src/main/java/com/goapppackage/goapp/data/GameState.kt:457-509 | the visited set grows, stays within the empty region of the start and is closed under empty neighbours; each seen flag is the old flag or'ed with whether the newly visited cells border that player |
| Scoring.VisitNeighbour | app/src/main/java/com/goapppackage/goapp/data/GameState.kt:470-499 | one neighbour of the fill: an empty unvisited one is searched, a stone sets its player's flag, an off-board one does nothing |
| Scoring.FloodEmptyRegion | app/src/main/java/com/goapppackage/goapp/data/GameState.kt:424-432 | from a fresh AreaScoreMultiComponent the fill visits exactly the empty region, and each flag says whether the region borders that player |
| Scoring.ScoreRow | app/src/main/java/com/goapppackage/goapp/data/GameState.kt:411-445 | one pass of the inner loop over a row adds, for each cell, one to the score of the player that owns it: a stone's player, or the only player bordering an empty cell's region |
| Scoring.CalculateAreaScore | app/src/main/java/com/goapppackage/goapp/data/GameState.kt:406-447 | each score is the number of cells its player owns: its stones plus the empty cells whose region borders only its stones |
| Scoring.CalculateAreaScoreTwice | app/src/main/java/com/goapppackage/goapp/data/GameState.kt:406-447 | two calls on the same state return the same pair |
| Scoring.ScoreBound | app/src/main/java/com/goapppackage/goapp/data/GameState.kt:435-439 | no cell counts for both players, so the two scores add up to at most boardSize squared |
| Scoring.RegionSharesOwner | app/src/main/java/com/goapppackage/goapp/data/GameState.kt:424-441 | all empty cells of one region count for the same player, or none |
| Scoring.EmptyBoardScoresNothing | app/src/main/java/com/goapppackage/goapp/data/GameState.kt:435-438 | on an empty board both scores are 0 |
| Scoring.FullBoardScoresEverything | app/src/main/java/com/goapppackage/goapp/data/GameState.kt:415-417 | on a board without empty cells every cell counts for a player, so the scores add up to boardSize squared |
| Session.GoViewModel.constructor | app/src/main/java/com/goapppackage/goapp/ui/GoUiState.kt:20-26 | a new 9 x 9 game, an empty stack, the game not over and the end board not chosen |
| Session.GoViewModel.MakeNewGame | app/src/main/java/com/goapppackage/goapp/ui/GoViewModel.kt:31-39 | a fresh state of the given size, an empty stack and isGameOver false; seeEndGameState is kept |
| Session.GoViewModel.ActivePlayer | app/src/main/java/com/goapppackage/goapp/ui/GoViewModel.kt:64-66 | the current state's active player, never EMPTY |
| Session.GoViewModel.InputMove | app/src/main/java/com/goapppackage/goapp/ui/GoViewModel.kt:76-85 | the new state becomes current and the old one is appended to the stack |
| Session.GoViewModel.CheckConsecutivePasses | app/src/main/java/com/goapppackage/goapp/ui/GoViewModel.kt:211-230 | false on an empty stack, otherwise true exactly when every cell of the current board equals the cell of the top state's board |
| Session.GoViewModel.PassTurnAndCheckGameOver | app/src/main/java/com/goapppackage/goapp/ui/GoViewModel.kt:91-100 | the game becomes over when the board repeats the top of the stack, checked before passing; then the passed state becomes current and the old one is pushed |
| Session.GoViewModel.UndoMove | app/src/main/java/com/goapppackage/goapp/ui/GoViewModel.kt:137-146 | the top of the stack becomes current and is removed; nothing changes on an empty stack |
| Session.GoViewModel.CheckLegalAndInputMove | app/src/main/java/com/goapppackage/goapp/ui/GoViewModel.kt:148-172 | a legal move makes the move's result current and pushes the old state; SELFCAPTURE, WRONGPLAYERTOMOVE and KO change neither the state nor the stack |
| Session.GoViewModel.GenerateGameOverText | app/src/main/java/com/goapppackage/goapp/ui/GoViewModel.kt:102-110 | the text built from the two area scores of the current board |
| Session.GoViewModel.ShowGameOverDialog | app/src/main/java/com/goapppackage/goapp/ui/GoViewModel.kt:118-127 | true exactly when the game is over and the end board has not been chosen |
| Session.GoViewModel.SetSeeEndGameStateTrue | app/src/main/java/com/goapppackage/goapp/ui/GoViewModel.kt:129-131 | the dialog is no longer shown; nothing else changes |
| Session.PassTwiceEndsGame | app/src/test/java/com/goapppackage/goapp/GoMethodTests.kt:55-70 | two passes in a row always leave the game over |
| Session.MoveThenUndo | app/src/main/java/com/goapppackage/goapp/ui/GoViewModel.kt:137-155 | a move followed by an undo when the move was made restores the state, the stack and the game-over flag |
| Session.NatToString | app/src/main/java/com/goapppackage/goapp/ui/GoViewModel.kt:109 | the decimal form of a score: only digits, no leading zero |
| Session.NatToStringRoundTrip | app/src/main/java/com/goapppackage/goapp/ui/GoViewModel.kt:109 | reading the digits back gives the score |
| Session.GameOverTextAnnounces | app/src/main/java/com/goapppackage/goapp/ui/GoViewModel.kt:104-109 | the text starts "Player 1 wins" exactly when p1 > p2, "Player 2 wins" exactly when p1 < p2, and "It's a draw" exactly when they are equal |
| LegacySession.LegacyGoViewModel.constructor | app/src/main/java/com/example/goapp/ui/GoUiState.kt:5-9 | a new 9 x 9 game with an empty stack |
| LegacySession.LegacyGoViewModel.MakeNewGame | app/src/main/java/com/example/goapp/ui/GoViewModel.kt:31-39 | a fresh state of the given size and an empty stack |
| LegacySession.LegacyGoViewModel.ActivePlayer | app/src/main/java/com/example/goapp/ui/GoViewModel.kt:42-44 | the current state's active player, never EMPTY |
| LegacySession.LegacyGoViewModel.InputMove | app/src/main/java/com/example/goapp/ui/GoViewModel.kt:54-63 | the new state becomes current and the old one is appended at the end of the stack |
| LegacySession.LegacyGoViewModel.UndoMove | app/src/main/java/com/example/goapp/ui/GoViewModel.kt:65-76 | the last state of the stack becomes current and is removed; nothing changes on an empty stack |
| LegacySession.LegacyGoViewModel.CheckLegalAndInputMove | app/src/main/java/com/example/goapp/ui/GoViewModel.kt:78-96 | only a legal move changes the current state or the stack |
| Sgf.BracketText | app/src/test/java/com/example/goapp/examplegames/SgfFunctions.kt:29 | the second piece of split("[", "]"): bracket-free text, None exactly when the line has no bracket |
| Sgf.BracketTextOfProperty | app/src/test/java/com/example/goapp/examplegames/SgfFunctions.kt:29-34 | a property written NAME[t]... gives back t |
| Sgf.SplitJoin | app/src/test/java/com/example/goapp/examplegames/SgfFunctions.kt:44 | joining the pieces of split(";") with ';' gives back the line |
| Sgf.PieceOf | app/src/test/java/com/example/goapp/examplegames/SgfFunctions.kt:47-51 | 'B' maps to PLAYER1 and 'W' to PLAYER2, and only they |
| Sgf.MoveOfSegment | app/src/test/java/com/example/goapp/examplegames/SgfFunctions.kt:46-54 | a segment gives at most one move, and one exactly when it is longer than four characters and starts with B or W |
| Sgf.PointDecoding | app/src/test/java/com/example/goapp/examplegames/SgfFunctions.kt:52-53 | ;B[xy] gives row x - 'a' and column y - 'a', so 'a'..'s' give points of a 19 x 19 board |
| Sgf.PassGivesNoMove | app/src/test/java/com/example/goapp/examplegames/SgfFunctions.kt:46 | a pass written B[] gives no move |
| Sgf.AppendMoves | app/src/test/java/com/example/goapp/examplegames/SgfFunctions.kt:44-56 | the segment loop appends the moves of the segments, in segment order, after the moves already read |
| Sgf.ReadLine | app/src/test/java/com/example/goapp/examplegames/SgfFunctions.kt:27-57 | a line that raises nothing changes the record as one step of the reading: KM sets the komi, RE the winner, a ';' line appends moves |
| Sgf.SgfToMoveList | app/src/test/java/com/example/goapp/examplegames/SgfFunctions.kt:14-71 | the loop returns the record obtained by reading the lines in order until one raises |
| Sgf.IrrelevantLinesKeepRecord | app/src/test/java/com/example/goapp/examplegames/SgfFunctions.kt:16-18 | lines that are not KM, RE or move lines leave the record as it is, so with only such lines the result is no moves, komi 0 and winner EMPTY |
| Sgf.ResultLineSetsWinner | app/src/test/java/com/example/goapp/examplegames/SgfFunctions.kt:33-40 | an RE line sets the winner from the first letter of its text, overwriting any earlier one |
| Sgf.EmptyResultStops | app/src/test/java/com/example/goapp/examplegames/SgfFunctions.kt:34-36 | an RE line with empty text raises, and reading stops with what was gathered |
| Sgf.ReadInOrder | app/src/test/java/com/example/goapp/examplegames/SgfFunctions.kt:24 | lines are read in order: reading A then B is reading A and continuing with B |
| Sgf.RaisingLineStops | app/src/test/java/com/example/goapp/examplegames/SgfFunctions.kt:59-70 | a raising line ends the reading, and the result is what was gathered before it |
| Sgf.MovesOnlyAppended | app/src/test/java/com/example/goapp/examplegames/SgfFunctions.kt:44-55 | moves are only appended: every move gathered earlier stays in front |

## Left out

- Persistence is not modelled: the Room databases, DAOs and entities, `CurrentGameRepository`, `ArrayDequeSerializer`, `GameStateSerializer` and the JSON round trip. This is I/O through foreign libraries.
- Coroutines and flows are not modelled: `viewModelScope.launch`, the `StateFlow` wrapper, `makeContinueGame`, `currentGameExists`, `updateCurrentGameDatabase`, `navigateBackAndSaveCurrentGame` and `saveCurrentGame`. The UI state is modelled as plain fields.
- The Compose UI, navigation, `SettingsViewModel` and `Log` calls are not modelled. The UI is rendering only. Its one rule, that occupied cells are not clickable, lives outside the engine.
- The view model's `calculateAreaScore` and `getAreaScore` are not separate members. Each only calls `GameState.calculateAreaScore`, which `Scoring.CalculateAreaScore` models.
- The view model's private `checkMoveIsLegal` is not a separate member. It only delegates to `checkMoveIsLegalPreliminary`, which `Engine.CheckMoveIsLegalPreliminary` models.
- `GameState.makeNewGame()` is not a separate member. It returns the default state, which is `Engine.NewGame(Engine.DefaultBoardSize)`.
- The earlier engine's `checkMoveIsLegalPreliminary`, `inputMove`, neighbour getters and constructor behave the same as the current ones and are modelled by the `Engine` and `Board` members. They differ only in statement or expression form (for example `if … return null else return …` against `return if …`), in comments and in the visibility of `inputMove`.
- `addPiece` and `removePiece` are unused private helpers and are not modelled.
- `Location.coordinate` and `Location.boardSize` are not stored. A cell is its coordinate, and the board size is the grid's size.
- The `visitedEmptySquares` set of `calculateAreaScore` is carried and filled as in the source, but no contract says anything about it. The source never reads it, so every empty cell runs its own flood fill.
- Engine.NewGame: requires boardSize >= 0, where Kotlin builds an empty board for a negative size.
- Session.GoViewModel.MakeNewGame: requires boardsize >= 0, for the same reason.
- LegacySession.LegacyGoViewModel.MakeNewGame: requires boardsize >= 0, for the same reason.
- Engine.CheckMoveIsLegalPreliminary: requires the point to be on the board. Kotlin throws IndexOutOfBoundsException otherwise.
- Engine.CheckLegalAndInputMove: requires an on-board point, where Kotlin throws IndexOutOfBoundsException at `board[row][col]`. The model has no exception result for that case.
- LegacyEngine.CheckLegalAndInputMove: the same on-board requirement, where the earlier Kotlin (com/example GameState.kt:75-94) throws in the same way.
- Session.GoViewModel.CheckLegalAndInputMove: the same on-board requirement, inherited from Engine.CheckLegalAndInputMove.
- LegacySession.LegacyGoViewModel.CheckLegalAndInputMove: the same on-board requirement, inherited from LegacyEngine.CheckLegalAndInputMove.
- Engine.InputMove: requires an on-board point, where Kotlin throws IndexOutOfBoundsException otherwise. The occupancy of the target cell is not required, since the engine overwrites it.
- Sgf.SgfToMoveList: the komi is a `real` produced by the parameter `parseKomi`, which stands for Kotlin's `String.toFloat`, with None for its exception. 32-bit float rounding is not modelled, and neither are the NaN and ±Infinity values that `toFloat` accepts ("NaN", "Infinity", "-Infinity"), which a `real` cannot hold.
- Sgf.MoveOfSegment, and so Sgf.AppendMoves and Sgf.SgfToMoveList: a string is a sequence of Unicode scalar values, so the length test and the character codes of `move[2]` and `move[3]` are counted in scalars, not in Kotlin's UTF-16 code units. A segment with a character outside the Basic Multilingual Plane among its first code units decodes differently: Kotlin reads `B[😀]` (five code units) as a move made of two surrogate codes, the model reads it (four scalars) as no move.
- Sgf.SgfToMoveList: reading the file is abstracted as the sequence of its lines. An exception from opening or reading the file is not modelled.
- The `GoMethodTests` and example-game tests are not modelled beyond the two-pass property. They replay SGF games through the view model.
