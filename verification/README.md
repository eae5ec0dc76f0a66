# Ultimate tic-tac-toe engine, modelled in Dafny

This project models the game engine of a Python Ultimate Tic-Tac-Toe program. The UI
is not modelled. A position is ten boards:
- board 0 is the meta-board;
- boards 1 to 9 are the sub-boards.

Each board keeps three things:
- the X and O lists of Lo Shu magic-square values of its marked cells;
- a ten-character display ('/' followed by nine cells);
- a cell marked 'X', 'O' or '-' (a marked meta-board cell can also be 'T').

The model follows the engine's layers:

- **Board codec.** `Assets` holds the magic square (three cells form a line iff their
  values sum to 15) and the X/O display inversion.
- **Win checker.** `StateChecker` has the sorted two-pointer 3-sum test (`Sorting`,
  `PairSearch`) and `check_win`. `check_win` answers from the meta-board first, then
  from a memo cache. On a miss it stores the verdict under the display and the opposite
  verdict under the inverted display.
- **State updater.** `StateUpdater` places a mark and re-checks the board. A win or a tie
  is propagated to the meta-board.
- **Legal-move tracker.** `BasePlayer` has the shared per-board list of open cells and
  the two move generators: tracker-driven, and state-driven inside search.
- **Heuristics.** `StateEvaluator` is the first heuristic and `StateEvaluatorV2` the
  integer one. Both are built on the greedy pair matcher `get_row_score` (`Patterns`).
- **Search.**
  - `SearchPolicy` covers the depth modes, the dynamic deepening schedule, the opening
    premoves and the strict-improvement choice of a root move.
  - `Minimax` is alpha-beta; `Expectimax` alternates choosing and averaging plies.
  - A search is given its move generator: the program's get_legal_moves_for_state, or
    the corrected one that offers only blank cells. The players search with the
    program's, and the search lemmas hold for both.
  - `GameEvaluator` averages or ranks root moves. Python floats with infinities are
    modelled as `Floats.Float`.
- **Turn logic.** `Game` resets, applies a move, moves the restriction pointer and plays
  until the meta-board is decided. `UserPlayer` models the command-line move-acceptance
  loop.
- **Single-file bot.** The CodinGame bot contributes `GridLayout` and `ConvertTables`,
  the coordinate tables between (board, cell) and (row, column). It also contributes
  `Convert` (rendering and parsing "row col") and `CodinGame` (its overrides).

All caches and the tracker are explicit values passed in and returned. The source
keeps them in singletons and class attributes.

## Model

| member | source | states |
|---|---|---|
| Assets.MagicSquareIsPermutation | utils/helpers/assets.py:1-4 | index 0 is None and the nine cells get the values 1..9 one-to-one |
| Assets.MagicSumIsLine | utils/helpers/assets.py:1-4 | three distinct cells' values sum to 15 exactly when the cells form a row, column or diagonal |
| Assets.InvertDisplay | utils/helpers/assets.py:7-19 | length is kept, X and O trade places, and every other character is unchanged |
| Assets.InvertInvolution | utils/helpers/assets.py:7-19 | inverting a display twice gives it back |
| Assets.InvertFixedPoint | utils/helpers/assets.py:7-19 | a display holding no X and no O (empty, ties, blanks) is its own inverse |
| Assets.InvertMovesMarks | utils/helpers/assets.py:7-19 | a display holding a mark is never its own inverse, so the two cache keys differ |
| Assets.InvertKeepsBlanks | utils/helpers/assets.py:7-19 | a display has a blank exactly when its inverse has one, so inversion never turns an open board into a tie |
| Sorting.Sort | utils/helpers/state_checker.py:38 | sorted() returns an ascending permutation of its input |
| Sorting.SortedUnique | utils/helpers/state_checker.py:38 | two sorted permutations of each other are equal, so the sorted list is determined by the multiset |
| Sorting.SortKeepsElems | utils/helpers/state_checker.py:38 | sorting keeps the set of values and keeps a duplicate-free list duplicate-free |
| PairSearch.FindPair | utils/helpers/state_checker.py:44-54 | a reported pair lies inside the window and sums to the target; on a sorted list the scan finds a pair exactly when one exists |
| StateChecker.TripleScan | utils/helpers/state_checker.py:41-54 | the outer loop succeeds exactly when three entries at increasing positions sum to 15 |
| StateChecker.CheckWinHelper | utils/helpers/state_checker.py:26-54 | returns the sign or False; fewer than three positions give False; on duplicate-free positions the sign exactly when three distinct values sum to 15 |
| StateChecker.CheckWinHelperOrderFree | utils/helpers/state_checker.py:38 | the order of the positions never changes the answer |
| StateChecker.TripleIffWinningSet | utils/helpers/state_checker.py:41-54 | on sorted duplicate-free lists, a 15-sum triple at increasing positions exists exactly when the set of values holds three distinct values summing to 15 |
| StateChecker.WinningSetIsLine | utils/helpers/state_checker.py:83-94 | the values of a side's cells contain a 15-sum triple exactly when the display shows that side on a complete line |
| StateChecker.DisplayVerdictInverts | utils/helpers/state_checker.py:89-102 | unless the display shows lines for both sides, the inverted display's verdict is the opposite verdict (a tie or undecided unchanged) |
| StateChecker.ComputeVerdict | utils/helpers/state_checker.py:83-103 | X is tested before O; T exactly when neither wins and no '-' is left; for lists that agree with the display, the verdict the display shows |
| StateChecker.CheckWin | utils/helpers/state_checker.py:57-103 | a marked meta cell answers alone; a hit answers from the cache unchanged; a miss stores the verdict and its opposite under the two keys and adds no other key |
| StateChecker.CheckWinKeepsCoherence | utils/helpers/state_checker.py:74-103 | a cache whose every entry is its key's verdict stays so after a call on a board whose lists agree with its display and which does not show lines for both sides, and the call then returns the display's verdict |
| StateChecker.DoubleWinBreaksCoherence | utils/helpers/state_checker.py:89-102 | on a board showing lines for both sides, a miss on the empty cache stores under the inverted display a verdict that is not that display's, so the cache stops being coherent |
| StateChecker.WriteKeepsSingleWin | utils/helpers/state_updater.py:29-30 | writing one cell of a display without a line leaves at most one side with a line |
| StateChecker.CheckWinIdempotent | utils/helpers/state_checker.py:74-76 | asking again about an unchanged board gives the same verdict and the same cache |
| StateUpdater.UpdateState | utils/helpers/state_updater.py:12-46 | the cell shows the sign and its value is appended, other boards keep their contents, board 0 changes only on completion, completion is check_win's verdict, a win appends the board's value to the winner's meta list and a tie leaves the meta lists |
| StateUpdater.UpdateStateRechecks | utils/helpers/state_updater.py:33-44 | the completion flag is true exactly when check_win on the new position is truthy |
| StateUpdater.UpdateStateKeepsConsistency | utils/helpers/state_updater.py:26-46 | a move onto a blank cell of an open board keeps every board's lists in agreement with its display |
| StateUpdater.UpdateStateUsesBlank | utils/helpers/state_updater.py:29-30 | such a move uses up exactly one blank cell |
| StateUpdater.UpdateStateKeepsSingleWins | utils/helpers/state_updater.py:26-46 | a mark placed on a board without a line, while the meta-board has none, never leaves any board showing lines for both sides |
| BasePlayer.ResetLegalMoves | utils/players/base_player.py:33-37 | index 0 is empty and every board lists all nine cells |
| BasePlayer.ResetOffersAll | utils/players/base_player.py:33-37 | after a reset an unrestricted query offers all 81 moves |
| BasePlayer.RemoveFirst | utils/players/base_player.py:70-71 | list.remove fails exactly when the cell is absent, and otherwise deletes its first occurrence only |
| BasePlayer.UpdateLegalMoves | utils/players/base_player.py:57-71 | completion empties the board's list, otherwise exactly the played cell goes, removing an absent cell is an error, and other boards are untouched |
| BasePlayer.UpdateLegalMovesShrinks | utils/players/base_player.py:57-71 | every list after an update is a subsequence of the list before |
| BasePlayer.CurrentLegalMoves | utils/players/base_player.py:74-93 | unrestricted: exactly the listed cells of boards 1..9, as many moves as listed cells; restricted: (p, s) for the listed cells of p in tracker order |
| BasePlayer.CurrentLegalMovesOrder | utils/players/base_player.py:86-91 | the unrestricted list runs board by board in ascending order, each board contributing its listed cells in tracker order |
| BasePlayer.MovesFromOrder | utils/players/base_player.py:86-91 | over ascending boards, the moves come board after board and each board contributes exactly its tracked cells in tracker order |
| BasePlayer.LegalMovesForState | utils/players/base_player.py:96-121 | unrestricted: tracker moves on boards whose meta cell is '-'; restricted: the blank cells of board p's display, ignoring the tracker |
| BasePlayer.LegalMovesAreCells | utils/players/base_player.py:96-121 | every generated move names a sub-board and a cell in 1..9 |
| BasePlayer.StaleTrackerOffersTakenCell | utils/players/base_player.py:109-115 | after a move inside the search, the unrestricted branch still offers the cell just taken |
| BasePlayer.StaleTrackerExample | utils/players/base_player.py:109-115 | a concrete position where this happens from a tracker that agrees with the position |
| BasePlayer.SearchMoves | utils/players/base_player.py:96-121 | the corrected generator: only blank cells of open boards, identical to the source's generator on a restricted query |
| BasePlayer.BlankOnly | utils/players/base_player.py:109-115 | the filter keeps exactly the moves onto blank cells |
| BasePlayer.GeneratorsAgree | utils/players/base_player.py:74-121 | with a tracker that agrees with the position, the corrected generator offers exactly the blank cells of open boards within the restriction, the same moves as get_current_legal_moves |
| BasePlayer.RemovalKeepsAgreement | utils/players/base_player.py:70-71 | removing the played cell keeps a board's list equal to its blank cells |
| Patterns.GreedyMatches | utils/helpers/state_evaluator.py:53-102 | every match completes a 15-line with the given value; fewer than two entries give none; on sorted input some match is found exactly when a pair exists |
| Patterns.MatchesConsume | utils/helpers/state_evaluator.py:78-93 | the matched pairs use entries of the list, none twice |
| Patterns.PairsBound | utils/helpers/state_evaluator.py:78-102 | at most one match per two entries |
| Patterns.EmptyValues | utils/helpers/state_evaluator.py:131 | exactly the values 1..9 held by neither side, ascending |
| Patterns.ForkBonus | utils/helpers/state_evaluator.py:133-152 | the pattern score is the square bonuses plus blocks plus two-in-a-rows plus the fork bonus exactly when three or more own values are fork values |
| Patterns.CountInIsCard | utils/helpers/state_evaluator.py:151 | on a duplicate-free list, the fork count is the size of the set of own fork values |
| StateEvaluator.BoardValue | utils/helpers/state_evaluator.py:118-154 | a tie is SCORE_TIE, a win half of SCORE_WIN for the winner whatever side is evaluated, an open board non-negative for X and non-positive for O |
| StateEvaluator.BoardValueAntisymmetric | utils/helpers/state_evaluator.py:128-154 | evaluating one side equals minus evaluating the other side on the inverted board |
| StateEvaluator.CombinedInverts | utils/helpers/state_evaluator.py:183-190 | the combined X plus O score of the side-swapped board under the inverted verdict is the negation of the board's score |
| StateEvaluator.InvertedEntryIsFresh | utils/helpers/state_evaluator.py:183-190 | for a board whose lists agree with its display and which does not show lines for both sides, the negated score stored under the inverted display equals a fresh evaluation of the side-swapped board |
| StateEvaluator.Store | utils/helpers/state_evaluator.py:188-190 | the score goes under the display and its negation under the inverted display, and nothing else changes |
| StateEvaluator.BoardTerm | utils/helpers/state_evaluator.py:183-190 | a cached board is reused with no recomputation; otherwise X plus O is computed and stored |
| StateEvaluator.Scale | utils/helpers/state_evaluator.py:192-197 | corners weigh 0.15, edges 0.05, the centre 0.2 |
| StateEvaluator.Heuristic | utils/helpers/state_evaluator.py:157-204 | a decided game is SCORE_TIE or plus or minus SCORE_WIN; otherwise the weighted board sum |
| StateEvaluator.HeuristicIgnoresSignAndNext | utils/helpers/state_evaluator.py:201-202 | with the zero free-move penalty, the side and the next board never change the value |
| StateEvaluatorV2.WinValue | utils/helpers/state_evaluator_v2.py:146-154 | a won board is worth SCORE_BOARD_WIN plus 10 for the centre, plus 3 for a corner, plus 0 for an edge |
| StateEvaluatorV2.Store | utils/helpers/state_evaluator_v2.py:189-193 | the score goes under the display and its negation under the inverted display |
| StateEvaluatorV2.EvaluateBoard | utils/helpers/state_evaluator_v2.py:118-193 | a hit under the display is returned for either sign; a hit under the inverse is negated; ties and wins are not cached; wins are signed by the evaluated side, not the winner; an open board is stored with its negation |
| StateEvaluatorV2.Heuristic | utils/helpers/state_evaluator_v2.py:196-239 | a meta tie is 0, an X win SCORE_GAME_WIN and an O win -SCORE_BOARD_WIN; otherwise the value is the board sum passed through the penalty, sign and depth bonus, with both caches as the sum leaves them |
| StateEvaluatorV2.BoardsFrom | utils/helpers/state_evaluator_v2.py:221-224 | the sum adds, board by board, the X evaluation and then the O evaluation made with the caches the X call left; the evaluator cache only grows, and only by the boards' displays and their inverses |
| StateEvaluatorV2.Finish | utils/helpers/state_evaluator_v2.py:226-239 | the penalty applies only when the next board is truthy and complete; the sign is applied, then the depth bonus beyond plus or minus 50 when depth is truthy |
| StateEvaluatorV2.FinishSides | utils/helpers/state_evaluator_v2.py:226-230 | without depth both sides see the same sum with opposite signs, and the free move costs each of them 2 |
| StateEvaluatorV2.BoardPairCancelsOrDoubles | utils/helpers/state_evaluator_v2.py:118-193 | in the sum, a decided board's X and O values cancel, while an open board counts its X score twice because the O call hits the cache |
| GameState.CellValuesWrite | utils/helpers/state_updater.py:29-32 | writing a mark into a blank cell adds exactly that cell's value to the mark's value set |
| GameState.CellValuesInverted | utils/helpers/assets.py:7-19 | the X cells of the inverted display are the O cells of the original, and vice versa |
| GameState.SwapSidesKeepsMatch | utils/helpers/state_checker.py:89-94 | swapping the lists and inverting the display keeps a board's lists in agreement with its display |
| GameState.CountCharOverwrite | utils/helpers/state_updater.py:29-30 | overwriting one occurrence of a character lowers its count by exactly one |
| SearchPolicy.NewSearcher | utils/players/minimax_player.py:23-53 | 'dynamic' starts at the given initial depth with the dynamic flag and on the deepening schedule, 'timed' at depth 4 with the timed flag, anything else at that static depth; moves_made is -1 and the counter 0 |
| SearchPolicy.NewPlayer | utils/players/minimax_player.py:12-53 | the players' constructor: 'dynamic' starts at INIT_DYNAMIC_DEPTH = 5 on the deepening schedule, 'timed' at 4, anything else at that static depth |
| SearchPolicy.UpdateTargetDepth | utils/players/minimax_player.py:144-152 | depth never decreases; it increases exactly when dynamic and moves_made passes the threshold on a step multiple; nothing else changes |
| SearchPolicy.FixedDepthStays | utils/players/minimax_player.py:144-152 | a static or timed depth never changes |
| SearchPolicy.DeepeningMoves | utils/players/minimax_player.py:150 | the deepening test on half-moves is THRESHOLD < moves_made and moves_made % STEP == 0 on whole moves |
| SearchPolicy.Premove | utils/players/minimax_player.py:120-141 | the opening move is (5,5) or a random cell pair; otherwise (p,p) when board p is fully blank, else None |
| SearchPolicy.MirrorReplyIsLegal | utils/players/minimax_player.py:138-141 | a mirror premove is among the restricted legal moves when the tracker agrees with the position |
| SearchPolicy.BestIndexIsFirstOptimum | utils/players/minimax_player.py:169-187 | the choice is strictly better than the bound and every earlier score, no later score beats it, and there is none only when no score beats the bound |
| SearchPolicy.BestIndexSkipsNaN | utils/players/expectimax_player.py:166-184 | with NaN scores, which compare false: a NaN score is never chosen; the choice beats the bound and every earlier number and no later score beats it; None exactly when no score beats the bound |
| Minimax.Child | utils/players/minimax_player.py:94-95 | a searched move is played as update_state plays it, onto a taken cell too; the position stays well formed, and a move onto a blank cell uses up one blank cell |
| Minimax.Moves | utils/players/minimax_player.py:94 | the searched moves are get_legal_moves_for_state's (the program's generator) or the corrected blank-only ones; every move names a cell of a sub-board, and the corrected generator, like the program's on a restricted query, offers only blank cells |
| Minimax.AlphaBeta | utils/players/minimax_player.py:62-117 | with either move generator, the pruned search never yields NaN |
| Minimax.AlphaBetaBrackets | utils/players/minimax_player.py:62-117 | with either move generator, the fail-soft guarantee: the pruned value equals the unpruned value inside the window and stays beyond it on the same side outside |
| Minimax.MaxLoopBrackets | utils/players/minimax_player.py:91-103 | the maximizing loop keeps that guarantee through cut-offs |
| Minimax.MinLoopBrackets | utils/players/minimax_player.py:105-117 | the minimizing loop keeps that guarantee through cut-offs |
| Minimax.AlphaBetaIsMinimax | utils/players/minimax_player.py:62-117 | with either move generator and the window (-inf, +inf), the pruned value is the plain minimax value |
| Minimax.RootScoresAreMinimax | utils/players/minimax_player.py:172-176 | every root score is the plain minimax value of that option |
| Minimax.MakeMove | utils/players/minimax_player.py:155-187 | moves_made goes up first; a premove is returned before any depth update; otherwise the depth is updated, the search uses the program's generator, and any move returned is a current legal move |
| Minimax.MakeMoveFollowsMinimax | utils/players/minimax_player.py:155-187 | the returned move is the first strictly best by plain minimax value |
| Minimax.PickIsFirstBest | utils/players/expectimax_player.py:166-184 | the move the scan keeps is None exactly when no value beats the starting bound, and otherwise the first option whose value is a number strictly better than the bound and every earlier number, with no later value better |
| Floats.FoldMax | utils/players/minimax_player.py:91-103 | Python max over the values is at least each of them and equals the start or one of them |
| Floats.FoldMin | utils/players/minimax_player.py:105-117 | Python min over the values, dually |
| Floats.MeanWithinBounds | utils/players/expectimax_player.py:89-97 | the mean of finite values lies within any bounds they all respect |
| Floats.Max | utils/players/minimax_player.py:97-98 | Python max(a, b): the first argument is kept unless the second is strictly greater, so ties and a NaN second argument keep the first, and a NaN first argument stays |
| Floats.Min | utils/players/minimax_player.py:111-112 | Python min(a, b): the first argument is kept unless the second is strictly smaller |
| Floats.Add | utils/players/expectimax_player.py:94 | float addition: finite values add exactly; opposite infinities and NaN give NaN; otherwise an infinite operand decides the sum |
| Expectimax.Expecti | utils/players/expectimax_player.py:61-117 | the only failure is division by zero, and it never happens at a cut-off |
| Expectimax.AveragingPly | utils/players/expectimax_player.py:89-97 | an averaging ply fails exactly when it has no move or a reply fails; otherwise its value is the sum of the replies divided by their count, and lies between the replies' bounds when they are finite |
| Expectimax.ChoosingPly | utils/players/expectimax_player.py:99-117 | a maximizing ply is at least every reply and equals one of them or -inf; a minimizing ply dually |
| Expectimax.RootExpecti | utils/players/expectimax_player.py:169-173 | the root search yields one value per option or fails only with division by zero |
| Expectimax.RootExpectiValues | utils/players/expectimax_player.py:169-173 | the root search fails exactly when some option's averaging ply fails, and otherwise its k-th value is option k's expectimax value |
| Expectimax.MakeMove | utils/players/expectimax_player.py:155-184 | the premove first; otherwise the depth is updated, the search uses the program's generator, any move returned is a current legal move, and with no legal move the result is None; a failing averaging ply fails the move |
| Expectimax.MakeMoveFollowsExpectimax | utils/players/expectimax_player.py:155-184 | without a premove: the move fails exactly when the root search fails; otherwise the depth is updated and the returned move is the first strictly best option by its expectimax value, a NaN value never chosen, and None exactly when no value beats the starting bound (so with no legal move) |
| GameEvaluator.Evaluation | utils/helpers/game_evaluator.py:34-74 | the first call answers 0.0 and clears the flag; later calls advance the search's counters and answer 0 with no legal moves |
| GameEvaluator.EvaluationIsMeanOfMinimax | utils/helpers/game_evaluator.py:51-74 | the evaluation is the mean of the options' plain minimax values, between their bounds |
| GameEvaluator.BestMove | utils/helpers/game_evaluator.py:77-115 | the counters advance and any suggested move is a current legal move |
| GameEvaluator.BestMoveFollowsMinimax | utils/helpers/game_evaluator.py:104-115 | the suggestion is the first strictly best option by plain minimax, and None only when no option beats the bound |
| Game.InitialState | utils/game/game.py:67-82 | ten empty boards whose lists agree with their displays |
| Game.MakeMove | utils/game/game.py:109-137 | the updated state is stored; the next board is None when the played cell's board is complete, else the played cell; the move is recorded; the tracker update fails only when the cell is not listed |
| Game.NewGameInvariant | utils/game/game.py:67-82 | a fresh game's tracker describes its position |
| Game.OfferedMoveIsOpen | utils/game/game.py:109-137 | a move the tracker offers is onto a blank cell of an open board |
| Game.OfferedMoveKeepsInvariant | utils/game/game.py:109-137 | playing an offered move never fails, uses one blank cell and keeps the tracker describing the position |
| Game.Play | utils/game/game.py:140-170 | the game stays well formed move after move |
| Game.OfferedPlayKeepsInvariant | utils/game/game.py:140-170 | a game of offered moves, sides alternating, never fails and keeps the invariant; it stops on a decided meta-board, and otherwise every move used one blank cell |
| UserPlayer.Rebind | utils/players/user_player.py:16-17 | an unrestricted big index outside -10..9 raises IndexError; an open chosen board becomes the restriction; a set restriction is kept |
| UserPlayer.MakeMoveAsWritten | utils/players/user_player.py:11-30 | a chosen move lies on a blank cell of an open board |
| UserPlayer.StickyRestriction | utils/players/user_player.py:16-17 | a rejected cell on an open board leaves the user bound to that board, so a legal move elsewhere is refused |
| UserPlayer.BoundOffBoardWaitsForever | utils/players/user_player.py:16-23 | once bound to something that is not a board, no line is ever accepted |
| UserPlayer.NegativeBoardLocksOut | utils/players/user_player.py:16-17 | "-1 s" while board 9 is open binds the restriction to -1 and locks the user out |
| UserPlayer.RestrictedLoopsAgree | utils/players/user_player.py:11-30 | when the move is restricted to a board 1..9, the corrected loop behaves as the loop as written |
| UserPlayer.Restriction | utils/players/user_player.py:19-23 | the restriction the corrected loop honours: none when the previous move is unset or names no board 1..9, otherwise that board |
| UserPlayer.OffBoardRestrictionIsFree | utils/players/user_player.py:19-23 | in the corrected loop a restriction outside 1..9 behaves exactly as a free choice, on every sequence of lines |
| UserPlayer.OffBoardRestrictionExample | utils/players/user_player.py:19-23 | restriction 45 with "1 1" on an open board 1 whose cell 1 is blank: the loop as written waits, the corrected loop accepts (1, 1) |
| UserPlayer.MakeMoveTakesFirstLegal | utils/players/user_player.py:11-30 | the corrected loop picks the first legal line, crashes on an earlier out-of-range board, and waits only when no line is legal |
| UserPlayer.LegalIsOffered | utils/players/user_player.py:19-23 | the acceptance test passes exactly the moves get_current_legal_moves offers, when the tracker agrees with the position |
| GridLayout.GridThenCell | codingames.py:24-47 | every cell pair maps to a grid square in 0..8 that maps back to it |
| GridLayout.CellThenGrid | codingames.py:24-47 | every grid square maps to a cell pair that maps back to it |
| ConvertTables.TablesFollowLayout | codingames.py:24-47 | the two literal tables are exactly the board layout |
| ConvertTables.IdxThenRc | codingames.py:24-47 | rc_to_idx undoes idx_to_rc on every cell pair |
| ConvertTables.RcThenIdx | codingames.py:24-47 | idx_to_rc undoes rc_to_idx on every grid square |
| Convert.IdxToRcInvertible | codingames.py:24-47 | idx_to_rc on 1..9 squared is a bijection onto the 9x9 grid, inverted by rc_to_idx |
| Convert.RcToIdxInvertible | codingames.py:24-47 | rc_to_idx on the grid lands in 1..9 squared and is inverted by idx_to_rc |
| Convert.SentinelRowAndColumn | codingames.py:25-35 | row 0 and column 0 of idx_to_rc hold (-1, -1) |
| Convert.ParseIntStr | codingames.py:56-59 | int(str(n)) == n for every integer |
| Convert.JoinSplit | codingames.py:56-59 | joining the pieces of split(' ') with single spaces gives the text back |
| Convert.ToRc | codingames.py:50-53 | indexing fails exactly when an index lies outside -10..9 |
| Convert.ToIdx | codingames.py:56-59 | ValueError exactly when the text does not split into two integer pieces; otherwise IndexError exactly when a piece lies outside -9..8; a result is a cell pair |
| Convert.ToRcThenToIdx | codingames.py:50-59 | a cell pair renders as digit, space, digit, and to_idx parses it back to the same pair |
| Convert.ToIdxThenToRc | codingames.py:50-59 | "r c" on the grid parses to its cell pair and renders back to the same text |
| CodinGame.NewBotSearcher | codingames.py:436-459 | the bot starts dynamic play at depth 3, not 5, and the depth-3 static bot stays static |
| CodinGame.OfferedMoves | codingames.py:369-380 | a nonempty referee list is returned as is; otherwise the tracker's moves, with get_current_legal_moves' membership and order |
| CodinGame.OfferedMovesAreLegal | codingames.py:369-380 | with an exact referee list and a tracker that agrees with the position, the offered moves are exactly the legal ones |
| CodinGame.ReadOpponentMove | codingames.py:420-428 | the first input is used once, then cleared; a parsed move is a cell pair |
| CodinGame.OpponentMoveRoundTrip | codingames.py:420-428 | a move the bot printed with to_rc reads back as the same move, from either input source |

## Left out

- Floats: Python floats are modelled as exact reals with -inf, +inf and NaN. The v1 weights (0.15, 0.05, 0.2) and the averaging ply's mean have no rounding.
- Search depth: a target depth below 1 is not modelled. The search starts at depth 1 and stops at `curr_depth == target_depth`, so with a smaller target it recurses until the game is decided or no move is offered, which with the tracker-reading generator need not happen.
- Minimax.MakeMove: requires a target depth of at least 1, for the reason above.
- Expectimax.MakeMove: requires a target depth of at least 1, for the reason above.
- GameEvaluator.Evaluation: past the first query, requires a target depth of at least 1, for the reason above.
- GameEvaluator.BestMove: requires a target depth of at least 1, for the reason above.
- Search caches: every search call starts from empty check_win and evaluator caches, while the source's memo caches persist across calls. For check_win, StateChecker.CheckWinKeepsCoherence shows that a coherent cache answers as a fresh computation does. That lemma needs a board without lines for both sides, which a move re-offered by the tracker-reading generator can produce by overwriting a mark. For the first heuristic's cache, StateEvaluator.InvertedEntryIsFresh shows only that an inverted entry is a fresh evaluation on such boards; no lemma relates a warm evaluator cache to an empty one. So the model's search values are those of fresh caches, and may differ from the program's where its warm caches disagree with a fresh computation.
- StateChecker.CheckWinKeepsCoherence: does not cover a board that shows lines for both sides, where the inverted entry is wrong (StateChecker.DoubleWinBreaksCoherence). StateUpdater.UpdateStateKeepsSingleWins shows such a board does not arise from marks placed on boards without a line.
- Timed depth: the wall-clock budget (`time.time()`) is left out. A timed searcher behaves as a static depth-4 searcher.
- Randomness: the random opening move is a parameter.
- Players: players' choices are a given sequence of moves (`Game.Play`) or a given sequence of input lines (`UserPlayer`).
- Game.Play: its own contract only keeps the position well formed. What play promises about legal games is in Game.OfferedPlayKeepsInvariant.
- The random player is not modelled: it is a `random.choice` over get_current_legal_moves.
- The MCTS player is not modelled: its make_move is empty and ucb1 uses float log and sqrt.
- GameEvaluator: only the MiniMaxPlayer path is modelled, because main.py:22 installs a MiniMaxPlayer. For any other algorithm, game_evaluation still returns 0.0 on its first call (game_evaluator.py:47-49) and 0 when there is no legal move (65-67), and get_best_move returns None when there is no legal move (104-115); only a non-MiniMax algorithm facing a legal move reaches the unbound run_algorithm and raises UnboundLocalError, a subclass of NameError.
- UpdateState: a sign other than X or O raises KeyError in the source. The model's `Sign` type has only X and O.
- Convert.ParseInt: Python's int() also accepts '+', surrounding whitespace and underscores. The model accepts an optional '-' followed by digits. int() failing on any other text is the ValueError path.
- Game.MakeMove also stands for the bot's own Game.make_move, which has the same logic (codingames.py:590-607). The bot's printing of its move is left out.
- The bot's reading of the referee's move list and the `GameData` singleton: I/O is left out. The list is a parameter of `CodinGame.OfferedMoves`.
- The bot's copies of check_win, update_state and the first heuristic are not modelled separately. They are the same as the utils/ modules, with the same constants.
- The pygame UI, the UI's copies of the coordinate tables, the simulator, main.py and board printing are not modelled: rendering, timing and printing only.
- UserPlayer.RestrictedLoopsAgree: covers only restrictions naming a board 1..9, because the corrected loop treats any other restriction as a free choice (UserPlayer.OffBoardRestrictionIsFree) while the loop as written waits forever on it. The game itself only ever passes None or a cell index 1..9 (utils/game/game.py:130-133).
- UserPlayer's printed prompts and messages are left out. A malformed line is an `Entry.Malformed`.

## Findings

| source | as written | input that shows it | evidently intended | confidence | as-written member | corrected member |
|---|---|---|---|---|---|---|
| utils/players/base_player.py:109-115 | The unrestricted branch of get_legal_moves_for_state reads the shared tracker. Search never updates the tracker, so the branch offers cells taken earlier in the searched line. | Board 3 won by X, board 1 empty, and the tracker agreeing with the position. The search plays X at (1,3). Board 3 is complete, so the reply is unrestricted and still offers (1,3). | Offer only the cells that are blank in the searched position. | not executed | BasePlayer.StaleTrackerOffersTakenCell, BasePlayer.StaleTrackerExample | BasePlayer.SearchMoves, BasePlayer.GeneratorsAgree, Minimax.Moves |
| utils/players/user_player.py:16-17 | With a free choice, the first line naming an open board rebinds the restriction to that board for the rest of the loop, even when the line is rejected. | Free choice, "1 s1" with cell s1 of board 1 taken, then "2 s2" with s2 blank on open board 2: the second, legal line is refused. "-1 s" while board 9 is open binds to -1 and no line is accepted again. The repository's case at tests/test_unit/test_player_utils/test_user_player.py:70 (free choice, "9 1" on open board 9 whose cell 1 is taken, then "1 5") expects "1 5" to be accepted; as written the loop is bound to board 9 and refuses it. | Judge each line against the restriction the loop started with. | not executed | UserPlayer.MakeMoveAsWritten, UserPlayer.StickyRestriction, UserPlayer.NegativeBoardLocksOut | UserPlayer.MakeMove, UserPlayer.MakeMoveTakesFirstLegal |
| utils/players/user_player.py:19-23 | A restriction is honoured by comparing it with the typed board, so a previous move outside 1..9 can never be matched. | Restriction 45 with the line "1 1" on an open board 1 whose cell 1 is blank waits forever; the repository's case at tests/test_unit/test_player_utils/test_user_player.py:66 expects that line to be accepted. | Treat a restriction that names no board as a free choice. | not executed | UserPlayer.BoundOffBoardWaitsForever, UserPlayer.OffBoardRestrictionExample | UserPlayer.MakeMove, UserPlayer.OffBoardRestrictionIsFree |
