# puzzle-poc match-3 core in Dafny

This project models the core of puzzle-poc, a browser match-3 game. It covers:

- a 6×6 board of nullable colour indices;
- a move, which swaps two adjacent cells;
- clears: every horizontal or vertical run of three or more equal colours is cleared;
- gravity and refill: blocks fall into the gaps and new random blocks fill them;
- chains: the clear, fall and refill repeat while matches remain, and each round scores more.

The repository ships two versions of the game, and both are modelled:

- **The first version** (`src/`) scores an endless cascade with a growing number of colours. It re-rolls the opening board until no match remains, has a game-over rule for a board without moves, and keeps a high score. `src/utils/saveGameHistory.ts` keeps a history of the last ten stages reached.
- **The stage version** (`frontend/`) plays through:
  - stages with a move budget and a target score;
  - difficulty levels, each with its own budget and its own next-stage goals;
  - bonus moves for overshooting the target;
  - a card that spends three moves to multiply the score of the next three swaps;
  - a memoising wrapper used by the ranking client.

## Modules

| file | module | what it models |
|---|---|---|
| `wrappers.dfy` | `Wrappers` | `Option` |
| `board.dfy` | `Board` | the board, swaps, the match set, possible moves, gravity and refill as specification functions |
| `game_logic.dfy` | `GameLogic` | `src/utils/gameLogic.ts`: the module-level colour counter as the class `BlockTypes`, and the loops of `findMatches`, `applyGravity`, `refillBoard` and `checkForPossibleMoves` as methods proved against `Board` |
| `scoring.dfy` | `Scoring` | integer powers, floors of non-negative reals, and one non-negativity fact and one monotonicity fact about `Math.floor` |
| `stage_game.dfy` | `StageGame` | `frontend/src/hooks/useGameBoard.ts`: stage goals, chain scoring and the chain loop as functions; the hook's state as the class `StageGame` whose methods are the handlers |
| `stage_board_view.dfy` | `StageBoardView` | `handleClick` of `frontend/src/components/GameBoard.tsx` |
| `classic_game.dfy` | `ClassicGame` | `src/hooks/useGameBoard.ts`: the re-roll, reset and initial-board loops, the cascade and the high-score rule; the hook's state as the class `ClassicGame` |
| `classic_board_view.dfy` | `ClassicBoardView` | `handleClick` of `src/components/GameBoard.tsx` |
| `history.dfy` | `History` | `src/utils/saveGameHistory.ts`; the stage version's `checkGameOver` imports its own `frontend/src/utils/saveGameHistory.ts`, which is not part of this model and is taken to be the same |
| `memo.dfy` | `Memo` | `frontend/src/utils/cache.ts` as the class `Cache` |

## How React state is modelled

Each hook's state is one record field `state` of its class. A `setX(v)` call becomes `state := state.(x := v)`.

A handler created during a render reads that render's values. It does not see the writes it makes itself. The model therefore passes that render's state to a handler as the snapshot `v`, reads from `v`, and writes into `state`. This matters in practice:

- the card countdown and the end of the card effect both test the value of `cardTurnsLeft` before the click;
- the chain scores with the card multiplier of that render;
- the stage-clear and game-over checks after a chain read `gameState` from the render in which the swap happened.

Two consequences of this follow, and the model keeps both as the code does:

- `checkGameOver` still sees "playing" after `checkStageClear` has set "stageClear". So a last move that reaches the target ends in game over (`StageGame.GameOverOverridesStageClear`). The comment at frontend/src/hooks/useGameBoard.ts:192 says game over is meant only for a stage that was not cleared.
- The in-loop `break` on `gameState !== "playing"` (frontend/src/hooks/useGameBoard.ts:431-434) can never fire, because the chain starts only while the render's `gameState` is "playing". `StageGame.StageGame.ChainRounds` keeps the `break`; under its requires `v.gameState == Playing` it never fires.

A chain, a cascade or a re-roll ends when no match remains. The source leaves such a loop to chance. In the model, each loop takes one random input per round, as a sequence. It runs until the board has no match or the sequence is used up, and its contracts say which of the two happened. Every function that describes such a loop states that an early stop means the board has no match.

## Model

| member | source | states |
|---|---|---|
| Board.AdjacentNeighbours | frontend/src/components/GameBoard.tsx:58-59 | two cells are adjacent (Manhattan distance exactly one) iff the second is the right, left, lower or upper neighbour of the first |
| Board.SwappedSymmetric | frontend/src/components/GameBoard.tsx:63-66 | exchanging p with q gives the same board as exchanging q with p |
| Board.SwappedTwice | frontend/src/components/GameBoard.tsx:63-66 | exchanging the same two cells twice restores the board, so a reverted swap is a second swap |
| Board.SwapCells | src/components/GameBoard.tsx:41-44 | the `temp` swap on a copy gives exactly the two cells exchanged, every other cell kept |
| Board.ClearCells | frontend/src/hooks/useGameBoard.ts:325-332 | setting the listed matched cells to null in a copy gives the board with exactly those cells cleared |
| Board.MatchSetMember | src/utils/gameLogic.ts:43-68 | a position is matched iff it is on the board and is one of three equal non-null cells in a row or a column |
| Board.MatchedInRun | src/utils/gameLogic.ts:45-66 | soundness: every matched cell lies in a horizontal or vertical run of at least three equal non-null cells |
| Board.InRunMatched | src/utils/gameLogic.ts:49-51 | completeness: every cell of such a run, including those beyond the third, is matched |
| Board.MatchSetIsRuns | src/utils/gameLogic.ts:43-68 | a cell is matched iff it lies in a run of three or more equal non-null cells |
| Board.MoveAtIsAdjacentSwap | src/utils/gameLogic.ts:106-126 | a right or down swap that makes a match is a swap of two adjacent cells that makes a match |
| Board.AdjacentSwapIsMove | src/utils/gameLogic.ts:102-130 | an adjacent swap in any direction that makes a match is found by trying only right and down swaps |
| Board.PossibleMoveAnyDirection | src/utils/gameLogic.ts:102-130 | a possible move exists iff some swap of two adjacent cells, in any direction, makes a match |
| Board.Insert | src/utils/gameLogic.ts:50-51 | `Set.add` on a duplicate-free sequence keeps it duplicate-free and adds exactly the new element |
| Board.DistinctCard | src/utils/gameLogic.ts:67 | a duplicate-free list of positions has as many elements as its set, so `findMatches(...).length` is the size of the match set |
| Board.Column | src/utils/gameLogic.ts:73-84 | the column of a board has one cell per row, the cell of that row |
| Board.NonNull | src/utils/gameLogic.ts:76 | the blocks of a column, in order, form a list with no nulls and no longer than the column |
| Board.Compacted | src/utils/gameLogic.ts:73-84 | a fallen column is as long as the column |
| Board.NonNullAppend | src/utils/gameLogic.ts:75-83 | the blocks of two stacked column parts are the blocks of the top part followed by those of the bottom part |
| Board.NonNullOfNulls | src/utils/gameLogic.ts:79 | a run of nulls holds no block |
| Board.NonNullOfFull | src/utils/gameLogic.ts:76 | a column without nulls is its own list of blocks |
| Board.CompactedKeepsCells | src/utils/gameLogic.ts:73-84 | falling keeps a column's blocks and their top-to-bottom order |
| Board.CompactedShape | src/utils/gameLogic.ts:74-81 | after falling, exactly the top `size − blocks` cells of the column are null |
| Board.CompactedIdempotent | src/utils/gameLogic.ts:73-84 | letting a fallen column fall again changes nothing |
| Board.CompactedOfSettled | src/utils/gameLogic.ts:73-84 | a column with no block above a gap does not move |
| Board.GravityColumn | src/utils/gameLogic.ts:71-86 | each column of the board after gravity is that column fallen |
| Board.GravityKeepsColumns | src/utils/gameLogic.ts:71-86 | per column, gravity keeps the sequence of blocks, places the blocks in the bottom rows and leaves only nulls above |
| Board.GravityOfSettled | src/utils/gameLogic.ts:71-86 | a board with no block directly above a gap is unchanged by gravity |
| Board.GravityIdempotent | src/utils/gameLogic.ts:71-86 | gravity leaves a settled board, and applying it twice is applying it once |
| Board.GravityOfFull | src/utils/gameLogic.ts:71-86 | a board without nulls is unchanged by gravity |
| GameLogic.Increased | src/utils/gameLogic.ts:13-25 | from 3..8 colours, the count rises by exactly one step, to n + 1, when below 8 and when moves exceed 5·(n − 2), and otherwise stays |
| GameLogic.BlockTypes.constructor | src/utils/gameLogic.ts:4 | the counter starts at 3 colours |
| GameLogic.BlockTypes.Get | src/utils/gameLogic.ts:7 | the number of colours lies between 3 and 8 |
| GameLogic.BlockTypes.Increase | src/utils/gameLogic.ts:13-25 | the counter becomes `Increased(old, moves)`: it never decreases, rises by at most one and never exceeds 8 |
| GameLogic.BlockTypes.Reset | src/utils/gameLogic.ts:28-30 | the counter is back at 3 |
| GameLogic.RandomBlock | src/utils/gameLogic.ts:10 | `floor(random · n)` picks a colour in [0, n) |
| GameLogic.GenerateColorClasses | src/utils/gameLogic.ts:33-40 | the map has exactly the keys 0..n−1, and key i holds the (i mod 8)-th colour name |
| GameLogic.InsertGrows | src/utils/gameLogic.ts:50-51 | adding a cell of a triple keeps the list of matches sound and duplicate-free, and loses nothing |
| GameLogic.RunRow | src/utils/gameLogic.ts:50-51 | after a horizontal triple is found, its three cells are in the list; adding the k-loop's further cells keeps the list a duplicate-free set of matched cells and loses nothing |
| GameLogic.ScanRow | src/utils/gameLogic.ts:46-54 | after a row, every horizontal triple of that row is covered |
| GameLogic.RunColumn | src/utils/gameLogic.ts:61-62 | after a vertical triple is found, its three cells are in the list; adding the k-loop's further cells keeps the list a duplicate-free set of matched cells and loses nothing |
| GameLogic.ScanColumn | src/utils/gameLogic.ts:57-65 | after a column, every vertical triple of that column is covered |
| GameLogic.TripleCovered | src/utils/gameLogic.ts:45-66 | a list holding every cell of every horizontal and vertical triple holds each cell that belongs to some triple |
| GameLogic.CoveredIsMatchSet | src/utils/gameLogic.ts:43-68 | a sound, duplicate-free list covering all triples holds exactly the match set and has its size |
| GameLogic.FindMatches | src/utils/gameLogic.ts:43-68 | the result is duplicate-free, has only on-board non-null cells, contains a cell iff it is matched, and has as many entries as the match set |
| GameLogic.FallingSkipNull | src/utils/gameLogic.ts:75-76 | passing a null cell leaves the column and the cursor as they are |
| GameLogic.FallingKeep | src/utils/gameLogic.ts:76-81 | a block already at the cursor stays there and the cursor moves up |
| GameLogic.FallingMove | src/utils/gameLogic.ts:77-81 | a block above the cursor moves to the cursor, its old cell becomes null and the cursor moves up |
| GameLogic.MoveCell | src/utils/gameLogic.ts:77-80 | the block at row r of column c moves down to row e, row r becomes null and every other cell is kept |
| GameLogic.FallingEnds | src/utils/gameLogic.ts:74-83 | before the scan of a column nothing has moved; once the scan is done with the cursor above all the blocks, the column has fallen |
| GameLogic.FallStep | src/utils/gameLogic.ts:76-82 | one step of the upward scan: a block moves down to the cursor (or stays there) and the cursor rises, a null is skipped, and the other columns are untouched |
| GameLogic.FallColumn | src/utils/gameLogic.ts:73-84 | the `emptyRow` loop on one column leaves that column fallen and every other column untouched |
| GameLogic.ApplyGravity | src/utils/gameLogic.ts:71-86 | the result is the board under gravity, with every property proved about `Gravity` |
| GameLogic.Refilled | src/utils/gameLogic.ts:89-99 | a refilled board has no nulls, keeps every block and puts a colour in [0, n) into every null cell |
| GameLogic.RefilledFull | src/utils/gameLogic.ts:89-99 | refilling a board without nulls changes nothing |
| GameLogic.RefillBoard | src/utils/gameLogic.ts:89-99 | the loop leaves no null, keeps every block and draws the new cells below the current number of colours |
| GameLogic.TrySwap | src/utils/gameLogic.ts:107-111 | the scratch swap reports a match iff exchanging the two cells leaves a match on the board |
| GameLogic.TryCell | src/utils/gameLogic.ts:106-126 | the two trials at a cell succeed iff its right or its lower swap makes a match |
| GameLogic.TryRow | src/utils/gameLogic.ts:104-127 | the trials of one row succeed iff some cell of the row has a right or lower swap that makes a match |
| GameLogic.CheckForPossibleMoves | src/utils/gameLogic.ts:102-130 | returns true iff some right or down swap makes a match; the board is a value, so it is left as it was |
| Scoring.Pow | src/hooks/useGameBoard.ts:109-110 | a power of a base of at least 1 is at least 1 |
| Scoring.Floor | src/hooks/useGameBoard.ts:119-123 | `Math.floor` of a non-negative number is non-negative |
| Scoring.FloorOfProduct | frontend/src/hooks/useGameBoard.ts:362-364 | the floor of a product of non-negative factors is non-negative |
| Scoring.FloorOfMultiple | frontend/src/hooks/useGameBoard.ts:362-364 | the floor of m·x is at least m times the floor of x |
| StageGame.RandomIn | frontend/src/hooks/useGameBoard.ts:50-57 | `floor(random · (hi − lo + 1)) + lo` lies in [lo, hi] |
| StageGame.StageGoals | frontend/src/hooks/useGameBoard.ts:26-91 | the added moves lie in the difficulty's range and are never negative; the stage-1 target is 150000; a later target is at least 100000, and when not clamped it lies within the difficulty's range around the scaled target |
| StageGame.NextGoals | frontend/src/hooks/useGameBoard.ts:178-182 | the next-stage goals of each difficulty are that difficulty's stage goals |
| StageGame.RoundPoints | frontend/src/hooks/useGameBoard.ts:356-364 | the points of a chain round are never negative |
| StageGame.RoundPointsDoubleWithChain | frontend/src/hooks/useGameBoard.ts:356-364 | one more chain round at least doubles a round's points (bonus `2^(chainCount−1)`) |
| StageGame.FillNulls | frontend/src/hooks/useGameBoard.ts:341 | the palette refill leaves no null and keeps every block |
| StageGame.ChainStepKeepsSurvivors | frontend/src/hooks/useGameBoard.ts:325-345 | after clear, fall and refill, the bottom of each column holds exactly the blocks that survived the clear, in order |
| StageGame.Advance | frontend/src/hooks/useGameBoard.ts:407-430 | a chain round adds one to the chain count and never lowers the score |
| StageGame.RunChain | frontend/src/hooks/useGameBoard.ts:406-435 | the chain:<br>- never lowers the score;<br>- runs at most one round per refill;<br>- stops early only on a board with no match;<br>- runs at least one round on a matched board;<br>- with no round, changes nothing |
| StageGame.RunChainAt | frontend/src/hooks/useGameBoard.ts:406-435 | the chain after its first round is the rest of the chain (the loop's invariant) |
| StageGame.AfterReset | frontend/src/hooks/useGameBoard.ts:247-274 | reset restores a new stage-1 game on the new board:<br>- the starting difficulty's move budget;<br>- target 150000;<br>- moves, score and bonus all 0;<br>- playing and no next goals;<br>- both multipliers 1 and no card turns;<br>- the selection and the difficulty kept |
| StageGame.ResetConsistent | frontend/src/hooks/useGameBoard.ts:247-274 | a reset state satisfies the state invariant |
| StageGame.AfterStageClearCheck | frontend/src/hooks/useGameBoard.ts:158-184 | outside playing, or below target, changes nothing; a score at or above the target clears the stage and stores the next goals; bonus moves are non-zero only when the score exceeds a positive target; nothing else changes |
| StageGame.AfterGameOverCheck | frontend/src/hooks/useGameBoard.ts:187-200 | while playing, the game is over exactly when moves reach the budget; otherwise nothing changes |
| StageGame.ProcessedOutcome | frontend/src/hooks/useGameBoard.ts:395-461 | a chain that leaves a move ends with game over iff the budget is used up, with stage clear iff not and the final score reaches the target, and playing otherwise; the score is the chain's, never below the starting one; processing stops |
| StageGame.ProcessedStuckResets | frontend/src/hooks/useGameBoard.ts:452-458 | a chain that leaves no possible move resets the game to stage 1, playing, 0 moves, score 0, the starting budget and a new board |
| StageGame.ProcessedEndsCard | frontend/src/hooks/useGameBoard.ts:438-443 | a chain begun on the card's last turn puts both multipliers back to 1; otherwise, when the board after the chain still has a move, the shown multiplier returns to the card's (a board without moves is reset, with both multipliers 1) |
| StageGame.GameOverOverridesStageClear | frontend/src/hooks/useGameBoard.ts:446-451 | when the last swap both reaches the target and uses up the budget, the game is over (and the next goals are still stored) |
| StageGame.CheckedConsistent | frontend/src/hooks/useGameBoard.ts:438-451 | the post-chain checks keep the state invariant |
| StageGame.SettleConsistent | frontend/src/hooks/useGameBoard.ts:438-460 | the checks and the reset of a stuck board keep the state invariant |
| StageGame.ProcessedConsistent | frontend/src/hooks/useGameBoard.ts:395-461 | processMatchesAndGravity keeps the state invariant |
| StageGame.StageGame.constructor | frontend/src/hooks/useGameBoard.ts:96-155 | the initial state: a stage-1 game at the starting difficulty's budget, target 150000, moves and score 0 |
| StageGame.StageGame.ResetBoard | frontend/src/hooks/useGameBoard.ts:247-274 | the state becomes `AfterReset` of the old state |
| StageGame.StageGame.CheckStageClear | frontend/src/hooks/useGameBoard.ts:158-184 | the state becomes `AfterStageClearCheck` for the render's snapshot |
| StageGame.StageGame.CheckGameOver | frontend/src/hooks/useGameBoard.ts:187-200 | the state becomes `AfterGameOverCheck` for the render's snapshot |
| StageGame.StageGame.HandleProceedToNextStage | frontend/src/hooks/useGameBoard.ts:203-205 | only the game state changes, to difficulty selection |
| StageGame.StageGame.HandleDifficultySelected | frontend/src/hooks/useGameBoard.ts:208-244 | without next goals, the game resets; otherwise:<br>- playing at stage + 1 with the chosen difficulty's target;<br>- budget (max − moves) + added moves + bonus moves;<br>- moves, score and bonus 0;<br>- a new board |
| StageGame.StageGame.DrawCard | frontend/src/hooks/useGameBoard.ts:277-314 | refused, with no change, when fewer than 3 moves remain, while processing or when not playing; otherwise:<br>- spends exactly 3 moves;<br>- sets both multipliers to the drawn value and the turns to 3;<br>- ends the game exactly when the 3 moves were the last |
| StageGame.StageGame.ProcessChainStep | frontend/src/hooks/useGameBoard.ts:317-346 | clears exactly the matched cells, then applies gravity, then refills, in that order, and shows that board |
| StageGame.StageGame.UpdateScore | frontend/src/hooks/useGameBoard.ts:349-392 | the chain score grows by the round's points and the shown multiplier is `2^(chainCount−1)` times the card's |
| StageGame.StageGame.ChainRound | frontend/src/hooks/useGameBoard.ts:407-430 | one loop iteration is one `Advance` of the chain and shows its score, multiplier and board |
| StageGame.StageGame.ChainRounds | frontend/src/hooks/useGameBoard.ts:406-435 | the loop computes `Chain`, so every property of `RunChain` holds of it |
| StageGame.StageGame.ProcessMatchesAndGravity | frontend/src/hooks/useGameBoard.ts:395-461 | the state becomes `Processed`, so the outcome, reset, card and invariant lemmas above hold of it |
| StageBoardView.CountedDown | frontend/src/components/GameBoard.tsx:77-88 | the card countdown as intended; its properties are the lemmas below |
| StageBoardView.CountdownAsWrittenFails | frontend/src/components/GameBoard.tsx:47-49 | the updater as written fails exactly when the turns fall from 1 to 0, and agrees with the intended countdown otherwise |
| StageBoardView.CardLastsThreeSwaps | frontend/src/components/GameBoard.tsx:77-88 | a card with 3 turns keeps its multiplier for two swaps and is over, with both multipliers 1, after the third; further countdowns change nothing |
| StageBoardView.CountedDownConsistent | frontend/src/components/GameBoard.tsx:77-88 | the countdown keeps the state invariant and changes only the two multipliers and the turns |
| StageBoardView.OutcomeConsistent | frontend/src/components/GameBoard.tsx:91-104 | processing or reverting after a swap keeps the state invariant |
| StageBoardView.SwappingConsistent | frontend/src/components/GameBoard.tsx:63-88 | the swap, the move count and the countdown keep the state invariant |
| StageBoardView.ClickIgnored | frontend/src/components/GameBoard.tsx:54 | clicks change nothing while processing or after game over |
| StageBoardView.ClickSelects | frontend/src/components/GameBoard.tsx:105-116 | without an adjacent selection, a click selects the cell, or deselects it when it was already selected, and changes nothing else |
| StageBoardView.FailedSwapReverts | frontend/src/components/GameBoard.tsx:91-104 | a swap without a match gives back the move and the board of before the click; only the selection is cleared and the card counts down |
| StageBoardView.MatchingSwapSpendsMove | frontend/src/components/GameBoard.tsx:73-94 | a matching swap costs one move and clears the selection; it ends with game over iff that move was the last, with stage clear iff not and the chain reaches the target; the score is the chain's |
| StageBoardView.MatchedOutcome | frontend/src/components/GameBoard.tsx:91-94 | the same outcome for any shown state a swap can leave |
| StageBoardView.SwapOutcomeConsistent | frontend/src/components/GameBoard.tsx:58-104 | an adjacent-swap click keeps the state invariant |
| StageBoardView.ClickedConsistent | frontend/src/components/GameBoard.tsx:53-117 | every click keeps the state invariant |
| StageBoardView.Swap | frontend/src/components/GameBoard.tsx:63-88 | the board shown is the two cells exchanged, with no selection, one more move and the card counted down |
| StageBoardView.SwapClick | frontend/src/components/GameBoard.tsx:58-104 | the state becomes the adjacent-swap outcome of the click |
| StageBoardView.MatchOrRevert | frontend/src/components/GameBoard.tsx:91-104 | after a swap, the chain runs exactly when the swapped board matches; otherwise moves and board are put back to those of the render |
| StageBoardView.HandleClick | frontend/src/components/GameBoard.tsx:53-117 | the state becomes `Clicked` of the old state, described by the lemmas above, and the invariant is kept |
| ClassicGame.RandomBoard | src/hooks/useGameBoard.ts:68-74 | a board of random blocks is full of colours below n |
| ClassicGame.Rerolled | src/hooks/useGameBoard.ts:77-83 | a re-roll keeps every unmatched cell and gives every matched cell a colour below n |
| ClassicGame.RerolledColoured | src/hooks/useGameBoard.ts:77-83 | re-rolling a board of colours below n leaves one |
| ClassicGame.RerollUntilClear | src/hooks/useGameBoard.ts:77-83 | the loop runs at most one round per draw, stops early only on a board without match, and without a round changes nothing |
| ClassicGame.RerollUntilClearColoured | src/hooks/useGameBoard.ts:77-83 | re-rolling never produces a null or a colour out of range |
| ClassicGame.RerollUntilClearAt | src/hooks/useGameBoard.ts:77-83 | the loop after one re-roll is the rest of the loop (the loop's invariant) |
| ClassicGame.ResetBoardNoMatch | src/hooks/useGameBoard.ts:65-87 | the reset board is full, has colours below 3 and holds no match (unless the draws run out) |
| ClassicGame.InitialSettledOfColoured | src/hooks/useGameBoard.ts:174-200 | on a board of colours, the gravity and refill between the two re-roll loops change nothing, so the result is just two re-roll loops, and it is still full of colours |
| ClassicGame.BlockTypeBonus | src/hooks/useGameBoard.ts:112-115 | the block-type bonus `max(1, ⌊n²/9⌋)` is at least 1 and at least ⌊n²/9⌋ |
| ClassicGame.CascadeMultiplier | src/hooks/useGameBoard.ts:109-116 | the round's multiplier `3^(chainCount−1)` × bonus is at least 1 |
| ClassicGame.CascadePoints | src/hooks/useGameBoard.ts:119-123 | the points of a cascade round are never negative |
| ClassicGame.CascadePointsTripleWithChain | src/hooks/useGameBoard.ts:109-123 | one more cascade round at least triples a round's points |
| ClassicGame.CascadeRound | src/hooks/useGameBoard.ts:105-159 | a round adds one to the chain count, never lowers the score and leaves a full board |
| ClassicGame.RunCascade | src/hooks/useGameBoard.ts:105-160 | the cascade:<br>- never lowers the score;<br>- runs at most one round per refill;<br>- stops early only on a board with no match;<br>- runs at least one round on a matched board;<br>- with no round, changes nothing |
| ClassicGame.RunCascadeAt | src/hooks/useGameBoard.ts:105-160 | the cascade after its first round is the rest of the cascade (the loop's invariant) |
| ClassicGame.CascadedOutcome | src/hooks/useGameBoard.ts:97-171 | after the cascade:<br>- the score is the cascade's and never below the starting one;<br>- processing stops and no match is left, unless the draws run out;<br>- the board is the cascade's;<br>- the game is over iff it was, or no move is possible;<br>- the multiplier is 1 when a move remains;<br>- moves, selection and high score are kept |
| ClassicGame.CascadedConsistent | src/hooks/useGameBoard.ts:97-171 | the cascade keeps the state invariant |
| ClassicGame.HighScoreNeverDecreases | src/hooks/useGameBoard.ts:57-62 | the high score never decreases, becomes max(score, high score) once the game is over, changes nothing otherwise, touches no other field, and a second application changes nothing |
| ClassicGame.ClassicGame.constructor | src/hooks/useGameBoard.ts:15-23 | the initial state: a board of random colours, no moves, no selection, score 0, multiplier 1 |
| ClassicGame.ClassicGame.RerollCells | src/hooks/useGameBoard.ts:79-82 | the in-place re-roll of the listed matched cells computes `Rerolled` |
| ClassicGame.ClassicGame.RerollLoop | src/hooks/useGameBoard.ts:77-83 | the `while (findMatches(...).length > 0)` loop computes `RerollUntilClear` |
| ClassicGame.ClassicGame.ResetBoard | src/hooks/useGameBoard.ts:65-94 | colours back to 3; a re-rolled board without match; moves 0, score 0, not game over, multiplier 1; everything else kept |
| ClassicGame.ClassicGame.SettleInitialBoard | src/hooks/useGameBoard.ts:174-200 | the opening board becomes `InitialSettled` of the old one, and only the board changes |
| ClassicGame.ClassicGame.UpdateHighScore | src/hooks/useGameBoard.ts:57-62 | the state becomes `HighScored` of the old state |
| ClassicGame.ClassicGame.CascadeRoundStep | src/hooks/useGameBoard.ts:106-159 | one loop iteration is one `CascadeRound` and shows its score, multiplier and board |
| ClassicGame.ClassicGame.CascadeRounds | src/hooks/useGameBoard.ts:105-160 | the loop computes `RunCascade` from the current board and score |
| ClassicGame.ClassicGame.ProcessMatchesAndGravity | src/hooks/useGameBoard.ts:97-171 | the state becomes `Cascaded`, so `CascadedOutcome` holds of it |
| ClassicBoardView.ClickIgnored | src/components/GameBoard.tsx:32 | clicks change nothing, not even the colours, while processing or after game over |
| ClassicBoardView.ClickSelects | src/components/GameBoard.tsx:83-94 | without an adjacent selection, a click selects the cell, or deselects it when it was already selected |
| ClassicBoardView.FailedSwapKeepsMove | src/components/GameBoard.tsx:56-82 | a swap without a match keeps the move, puts back the board of the start of the click, clears the selection and adds no colour |
| ClassicBoardView.MatchingSwapCascades | src/components/GameBoard.tsx:47-55 | a matching swap:<br>- costs one move and clears the selection;<br>- adds at most one colour, never past 8;<br>- runs the cascade on the swapped board;<br>- ends with the cascade's score, never below the old one, and with game over iff no move is left |
| ClassicBoardView.ClickedConsistent | src/components/GameBoard.tsx:31-95 | every click keeps the state invariant and the colour count within 3..8 |
| ClassicBoardView.SwapClick | src/components/GameBoard.tsx:36-82 | `increaseBlockTypes(moves + 1)` runs exactly when the swapped board matches, and the state becomes the swap's outcome |
| ClassicBoardView.HandleClick | src/components/GameBoard.tsx:31-95 | the colours and the state become those of `Clicked`, described by the lemmas above, and the invariant is kept |
| History.Loaded | src/utils/saveGameHistory.ts:5-16 | missing, empty, unparsable or non-array stored history reads as empty |
| History.LastClearedStage | src/utils/saveGameHistory.ts:2 | the recorded value is never negative, is at least stage − 1, and is stage − 1 from stage 1 on |
| History.SaveGameHistory | src/utils/saveGameHistory.ts:1-28 | the result:<br>- holds min(10, n + 1) entries;<br>- is the end of the old history followed by the new value, in order;<br>- has the new value, never negative, last;<br>- drops nothing when fewer than 10 entries were stored |
| Memo.Cache.constructor | frontend/src/utils/cache.ts:4 | the cache starts empty |
| Memo.Cache.Call | frontend/src/utils/cache.ts:6-15 | on a hit:<br>- returns the stored value;<br>- neither calls the function nor changes the map.<br><br>On a miss, calls the function once and stores and returns its result.<br><br>Always:<br>- no entry is ever removed or overwritten;<br>- the function has run once per distinct key;<br>- with an injective key, the result is the function's value |

## Left out

- Randomness: `Math.random` becomes an input. A single draw is a `Random` real in [0, 1). A whole board of draws is a `Draws` grid, one draw per cell. A stage-goal draw is a `Roll`.
- Floating point: results derived from non-integer arithmetic are inputs:
  - `matches.length ** 1.5` is the function `pow15`;
  - the scaled target `100000 · 1.5^(stage−1) · (0.8 | 1.7 | 10)` (easy, medium, hard) is `Roll.scaledTarget`;
  - the excess bonus `floor((score/target − 1) ** 0.1 · 3)` is `excessBonus`;
  - the drawn card multiplier `exp(random · ln 1000)` and its rounding are `drawn`, a real in [1, 1000];
  - `StageGame.RoundPoints` and `ClassicGame.CascadePoints`: the products of the point formulas are exact reals; the rounding of the double multiplication before `Math.floor` is not modelled, so a product that lands just beside an integer can differ by one point.
- Unbounded loops: the chain, the cascade and the re-roll loops in the source repeat until chance ends them. Each loop here takes a finite sequence of random inputs, one per round, and stops when that sequence is used up. The contracts say when this bound, and not the board, ended the loop.
- Timing: `setTimeout`, `await` and the animation speed are left out. A chain step happens at once, and so does the delayed board revert after a swap without a match, in both versions (src/components/GameBoard.tsx:56-82 and frontend/src/components/GameBoard.tsx:100-103).
- Floating scores, `console.log` and the score-id counter are left out: they are display only.
- The high score read from and written to `localStorage` (src/hooks/useGameBoard.ts:49-54) is left out. Writing the stage history to `localStorage` is left out too; the stored text and `JSON.parse` are inputs of `History.SaveGameHistory`. `checkGameOver`'s call of `saveGameHistory` is modelled only in `History`.
- `frontend/src/utils/gameLogic.ts` is not part of this model. Its `selectStageColors`, `createAndInitializeBoard`, palette refill and special clear of five or more are inputs of the stage version:
  - selecting the colours and building the board are the `colours`, `palette` and `board` values;
  - the palette refill is a `Fill` grid, so a refilled cell is the fill's colour;
  - no special clear is modelled;
  - the stage version's `findMatches`, `applyGravity` and `checkForPossibleMoves`, imported from that file, are taken to be those of `src/utils/gameLogic.ts`, that is `Board.MatchSet`, `Board.Gravity` and `Board.HasPossibleMove`.
- The first version's opening board effect calls `checkForPossibleMoves` and only logs the result (src/hooks/useGameBoard.ts:197-199). `ClassicGame.ClassicGame.SettleInitialBoard` makes the call and leaves the result unused.
- `Memo.Cache.Call`: `JSON.stringify` is an arbitrary key function. The wrapped function is a pure Dafny function, so side effects of `fn` are not modelled.
- Render timing beyond snapshot semantics: React may batch state updates and re-run effects. Only the values a handler's closure reads are modelled, not when re-renders happen.
- The UI components, the backend, the ranking client and authentication are outside this model.
- `Board` is a value: the TypeScript functions copy the board before writing to it, so the model does not capture aliasing. It only states each result as a new board.

## Findings

| source | as written | input that shows it | evidently intended | confidence | as-written member | corrected member |
|---|---|---|---|---|---|---|
| frontend/src/components/GameBoard.tsx:47-49, 77-88 (with frontend/src/hooks/useGameBoard.ts:464-492) | the countdown updater calls `setCardMultiplier(1)` and `setScoreMultiplier(1)`, which the component destructures from the hook, but the hook does not return them, so the call throws when the turns reach 0 | an adjacent swap while `cardTurnsLeft` is 1 | the card's effect ends: both multipliers back to 1 and the turns at 0 | not executed | StageBoardView.CountedDownAsWritten (lemma StageBoardView.CountdownAsWrittenFails) | StageBoardView.CountedDown (lemma StageBoardView.CardLastsThreeSwaps) |

Even as written, the chain after the swap resets both multipliers on the card's last turn (frontend/src/hooks/useGameBoard.ts:438-443, `StageGame.ProcessedEndsCard`). So the corrected countdown only makes the click itself agree with that.
