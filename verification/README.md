# Vanishing tic-tac-toe engine

A Dafny model of the game engine inside the Android game screen
(`GameActivity.kt`). It is vanishing tic-tac-toe: the human plays X, the
computer plays O, and each side may hold at most three marks. A side
that already has three marks first loses its oldest mark, then places
the new one. The mark that will vanish next "blinks".

The model has four modules:

- `Board` (board.dfy). It holds the nine cells and the eight winning
  lines in the source's order (rows, then columns, then diagonals). It
  has two read-only scans: the win scan of `checkGameState`, and the
  "two of a symbol and one gap" scan of `findBestMoveFor`. It also has
  the candidate list of `performAIMove`.
- `Queues` (queues.dfy). A `Position` holds the board and the two move
  queues, oldest first. This module defines FIFO eviction and
  placement. It also defines `Consistent`, the invariant tying each
  mark on the board to membership in its side's queue.
- `Strategy` (strategy.dfy). This is the AI's choice as a function:
  win, else block, else a random candidate. The choice is made on the
  board as it stands *after* the AI's own eviction. The module also
  has the lemmas about that choice.
- `Engine` (engine.dfy). The class `Game` holds the screen's state
  fields: an `array` of nine cells, the two queues, `isPlayerTurn`,
  `isGameOver`, the two blinking indices and `lastRemovedAiIndex`. Its
  methods are the source's procedures, with the view calls removed.
  Each method is proved against the functions of the other modules.
  `Valid()` is the invariant every event keeps, and it states:
  - the board agrees with the queues;
  - the game is over exactly when a line is complete;
  - the blinking index of the side to move is its queue front when
    that side holds three marks.

Randomness is injected. The coin of `startRandomTurn` is a `bool`
parameter. The pick of `emptyCells.random()` is a `nat` named `rnd`,
and the cell taken is `candidates[rnd % |candidates|]`.
`FallbackIsAnyCandidate` shows that every candidate is reachable this
way.

`Handler.postDelayed` is not modelled. The AI's turn is an explicit
call to `MakeAIMove`.

Two points where the model follows the code rather than a stricter
reading of the game's rules:

- The human's move takes a `Cell` (0..8). In the source the index comes
  from the clicked button, so an out-of-range index cannot occur.
- A reset does not cancel an AI move that is already scheduled.
  `makeAIMove` checks only `isGameOver`. `MakeAIMove` therefore
  requires only `Valid()` and is proved correct on either side's turn.
  Such a late call can evict an O that never blinked, because the
  AI's blinking index is null on the human's turn. So `MakeAIMove`
  promises "the evicted O is the blinking one" only when it runs on the
  AI's own turn.

## Model

All source paths are under `app/src/main/java/com/example/myapplication/`.

| member | source | states |
|---|---|---|
| Board.FirstWin | app/src/main/java/com/example/myapplication/GameActivity.kt:339-352 | a found line is complete and no earlier line is; none found means no line from k on is complete |
| Board.WinMark | app/src/main/java/com/example/myapplication/GameActivity.kt:346-347 | the reported winner is non-empty exactly when some line is complete |
| Board.OnlyMoverCanWin | app/src/main/java/com/example/myapplication/GameActivity.kt:190-197 | if no line was complete before a move, every complete line afterwards carries the mover's mark, so the winner reported is the mover |
| Board.ClearingCannotWin | app/src/main/java/com/example/myapplication/GameActivity.kt:225-229 | emptying a cell of a board with no complete line leaves no complete line |
| Board.CountOn | app/src/main/java/com/example/myapplication/GameActivity.kt:308-309 | the count on a line is at most 3 and is 0 exactly when no cell of the line holds the mark |
| Board.Gap | app/src/main/java/com/example/myapplication/GameActivity.kt:312-313 | the gap lies on the line and is empty whenever the line has an empty cell |
| Board.FirstThreat | app/src/main/java/com/example/myapplication/GameActivity.kt:297-318 | the line found has two of the mark, one empty cell and a gap other than the skipped cell, and no earlier line qualifies; none found means no line qualifies |
| Board.BestMoveFor | app/src/main/java/com/example/myapplication/GameActivity.kt:285-321 | a found cell is empty and is not lastRemovedAiIndex; nothing found means no line qualifies |
| Board.BestMoveAt | app/src/main/java/com/example/myapplication/GameActivity.kt:311-316 | when line k qualifies and no earlier line does, the result is line k's gap |
| Board.BestMoveIsFirstThreat | app/src/main/java/com/example/myapplication/GameActivity.kt:285-321 | the result is null iff no line qualifies, and is c iff c is the gap of the first qualifying line |
| Board.BestMoveCompletesLine | app/src/main/java/com/example/myapplication/GameActivity.kt:311-316 | marking the found cell with the symbol completes a line |
| Board.CandidatesFrom | app/src/main/java/com/example/myapplication/GameActivity.kt:244-246 | the list holds exactly the empty, non-skipped cells from index i on, in increasing order |
| Board.Candidates | app/src/main/java/com/example/myapplication/GameActivity.kt:244-246 | `emptyCells` holds exactly the empty cells other than lastRemovedAiIndex, without duplicates |
| Board.CandidatesCount | app/src/main/java/com/example/myapplication/GameActivity.kt:244-246 | the candidate list is at most one shorter than the set of empty cells |
| Queues.Pending | app/src/main/java/com/example/myapplication/GameActivity.kt:133-150 | the blinking index is present exactly when the queue holds three cells, and is then the queue front |
| Queues.Evicted | app/src/main/java/com/example/myapplication/GameActivity.kt:184-185 | the cell a side's next move removes (its queue front when it holds three marks); related to the blinking index by PendingIsEvicted |
| Queues.PendingIsEvicted | app/src/main/java/com/example/myapplication/GameActivity.kt:184 | in a consistent position the blinking cell is exactly the cell the side's next move removes, so the mark that blinked is the one that vanishes |
| Queues.Evict | app/src/main/java/com/example/myapplication/GameActivity.kt:185-188 | the pop of the queue front and the clearing of its cell; its contract is stated by EvictKeepsConsistent |
| Queues.Place | app/src/main/java/com/example/myapplication/GameActivity.kt:190-193 | the write of the mark and the `addLast`; its contract is stated by PlaceKeepsConsistent |
| Queues.Move | app/src/main/java/com/example/myapplication/GameActivity.kt:184-193 | a whole move, eviction then placement; its contract is stated by MoveIsFifo |
| Queues.EvictKeepsConsistent | app/src/main/java/com/example/myapplication/GameActivity.kt:184-188 | eviction keeps board and queues consistent, leaves the side below capacity, drops exactly the queue front and empties that cell |
| Queues.PlaceKeepsConsistent | app/src/main/java/com/example/myapplication/GameActivity.kt:190-193 | placing on an empty cell below capacity keeps board and queues consistent and the queue within 3 |
| Queues.MoveIsFifo | app/src/main/java/com/example/myapplication/GameActivity.kt:182-194 | a move on an empty cell keeps consistency; the new cell is never the evicted one; only the evicted and the new cell change; the queue loses its front and gains the new cell; the other queue is untouched |
| Queues.EmptyCount | app/src/main/java/com/example/myapplication/GameActivity.kt:37-39 | in a consistent position the number of empty cells is 9 minus the marks both sides hold |
| Strategy.AiChoice | app/src/main/java/com/example/myapplication/GameActivity.kt:256-263 | nothing is chosen exactly when there are no candidates; a chosen cell is an empty candidate other than lastRemovedAiIndex |
| Strategy.AiPlace | app/src/main/java/com/example/myapplication/GameActivity.kt:240-270 | `performAIMove` on a position: choose, then place if the chosen cell is empty; PerformAIMove is proved equal to it, and AiAlwaysMoves states its meaning |
| Strategy.AiStep | app/src/main/java/com/example/myapplication/GameActivity.kt:222-270 | `makeAIMove` on a position: the AI's eviction, then AiPlace on the resulting board with the vacated cell skipped; its contract is stated by AiAlwaysMoves, AiTakesWin and AiBlocksThreat |
| Strategy.EnoughCandidates | app/src/main/java/com/example/myapplication/GameActivity.kt:244-254 | with the AI below capacity there are at least 3 candidates, so the pass-the-turn branch is dead |
| Strategy.CandidatesAfterEviction | app/src/main/java/com/example/myapplication/GameActivity.kt:225-246 | after the AI's own eviction the candidate list has at least 3 cells |
| Strategy.AiAlwaysMoves | app/src/main/java/com/example/myapplication/GameActivity.kt:222-270 | the AI always chooses an originally empty cell other than the vacated one; its turn is exactly a FIFO move there, and consistency is kept |
| Strategy.ChoicePriority | app/src/main/java/com/example/myapplication/GameActivity.kt:256-260 | a winning cell is taken if one exists, else a blocking cell |
| Strategy.FallbackIsAnyCandidate | app/src/main/java/com/example/myapplication/GameActivity.kt:262 | with no win and no block, a cell can be picked for some random outcome iff it is a candidate |
| Strategy.AiTakesWin | app/src/main/java/com/example/myapplication/GameActivity.kt:256-270 | when the post-eviction board offers a winning cell, the AI's turn completes a line |
| Strategy.AiBlocksThreat | app/src/main/java/com/example/myapplication/GameActivity.kt:256-270 | with no win for the AI, the human's first threatening line gets the AI's O in its gap and is then full (two X, one O), so the human can no longer complete it |
| Engine.Game.constructor | app/src/main/java/com/example/myapplication/GameActivity.kt:85 | a new screen is a reset game: empty board and queues, no markers, not over, the coin decides the turn |
| Engine.Game.StartBlinkForPlayerIfNeeded | app/src/main/java/com/example/myapplication/GameActivity.kt:133-140 | the human's blinking index becomes the queue front if three marks are held, else null |
| Engine.Game.StartBlinkForAiIfNeeded | app/src/main/java/com/example/myapplication/GameActivity.kt:143-150 | the AI's blinking index becomes the queue front if three marks are held, else null |
| Engine.Game.WinningLine | app/src/main/java/com/example/myapplication/GameActivity.kt:339-352 | the loop returns the first complete line in the fixed order, or none |
| Engine.Game.CheckGameState | app/src/main/java/com/example/myapplication/GameActivity.kt:327-353 | returns true iff some line is complete, with the mark of the first one; then the game is over and both blinks are cleared, otherwise nothing changes |
| Engine.Game.OnPlayerMove | app/src/main/java/com/example/myapplication/GameActivity.kt:180-200 | keeps Valid; does nothing on the wrong turn, after game over or on an occupied cell; otherwise the X that vanishes is the one that was blinking, the move is a FIFO move of X, ends the game iff a line is complete (then X has won), and else hands the turn to the AI |
| Engine.Game.PlacePlayerMark | app/src/main/java/com/example/myapplication/GameActivity.kt:184-193 | the board and queues become the FIFO move of X onto the cell, and the human's blink is cleared on eviction |
| Engine.Game.FinishPlayerMove | app/src/main/java/com/example/myapplication/GameActivity.kt:196-199 | keeps board and queues; the game is over iff a line is complete, and otherwise it is the AI's turn with its blink set |
| Engine.Game.SwitchToAI | app/src/main/java/com/example/myapplication/GameActivity.kt:204-208 | the turn passes to the AI and the AI's blink is its pending eviction |
| Engine.Game.FindBestMoveFor | app/src/main/java/com/example/myapplication/GameActivity.kt:285-321 | the loop returns exactly BestMoveFor on the current board and lastRemovedAiIndex |
| Engine.Game.MakeAIMove | app/src/main/java/com/example/myapplication/GameActivity.kt:222-238 | keeps Valid on either side's turn; nothing changes once over; on the AI's own turn the O that vanishes is the one that was blinking; otherwise board and queues become the AI step, the game ends iff a line is complete (then O has won), and else it is the human's turn |
| Engine.Game.EvictAndPlace | app/src/main/java/com/example/myapplication/GameActivity.kt:225-237 | eviction followed by performAIMove is exactly the AI step and keeps Valid |
| Engine.Game.EvictAiMark | app/src/main/java/com/example/myapplication/GameActivity.kt:225-235 | the oldest O is evicted when the AI holds three and recorded as lastRemovedAiIndex; consistency holds, the AI is below capacity and no line is complete |
| Engine.Game.PerformAIMove | app/src/main/java/com/example/myapplication/GameActivity.kt:240-278 | a candidate always exists; board and queues become the choice placed; the game ends iff a line is complete, with O the winner; otherwise it is the human's turn |
| Engine.Game.ChooseAIMove | app/src/main/java/com/example/myapplication/GameActivity.kt:256-263 | the chosen index is exactly AiChoice on the current board |
| Engine.Game.PlaceAiMark | app/src/main/java/com/example/myapplication/GameActivity.kt:265-270 | on an empty cell, places O, queues it and clears lastRemovedAiIndex; otherwise changes nothing |
| Engine.Game.FinishAiTurn | app/src/main/java/com/example/myapplication/GameActivity.kt:272-277 | keeps board and queues; the game is over iff a line is complete, and otherwise it is the human's turn with its blink set |
| Engine.Game.ResetGame | app/src/main/java/com/example/myapplication/GameActivity.kt:374-391 | empties board, queues and markers, clears game over and keeps Valid; every field except the turn is a constant, so a second reset differs from the first only by its coin |
| Engine.Game.StartRandomTurn | app/src/main/java/com/example/myapplication/GameActivity.kt:393-410 | the coin gives the turn, and the starting side's blink is its pending eviction |

## Left out

- Rendering and animation are not modelled. This covers highlighting, blinking animation, colours, turn indicators and the result text (`GameActivity.kt` lines 93-175 and 355-366). They contain no game logic. The bookkeeping in `clearBlinkFor*` (setting the index to null) is modelled.
- `Handler.postDelayed` pacing is not modelled. The AI's move is the caller's explicit call to `MakeAIMove`, so a callback that is still pending after a reset is simply one more call.
- The two random draws are parameters: the coin of `startRandomTurn` and the pick of `emptyCells.random()`.
- PerformAIMove: the `isGameOver` guard at line 241 is not modelled as a branch. It is entered only from `makeAIMove`, which has already checked that flag, so it requires `!isGameOver` instead.
- `onCreate` view lookup and listener wiring are left out. Its click guard at line 75 repeats the guard of `onPlayerMove`.
- MainActivity.kt and AuthorsActivity.kt are not part of this model. They only navigate between screens.
- Draws are not modelled because the source has no draw state. With at most six marks on nine cells, the board is never full.
