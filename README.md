# Doubt Othello — a verified model

This project models the core of a browser Othello game in which the
computer opponent (white) may cheat. Now and then it secretly turns some of
the human's black stones white. The human may "doubt" a move right after the
computer plays. If the computer did cheat, the human wins at once, and the
board is rebuilt from the position before the computer's move, with every
stone black.

What the model covers:

- **Rules** (`GameLogic`, `BoardProperties`): the 8×8 board, the eight-direction
  flip scan, the row-major list of legal moves, making a move, stone counts,
  end of game and winner.
- **Opponent** (`Search`, `Ai`): the positional evaluation, depth-limited minimax
  with alpha-beta pruning, and the four difficulty levels.
- **Cheating** (`Cheating`): when to cheat, which black stones to turn, the
  recolouring, and detecting a cheat.
- **Game session** (`GameSession`): the object behind the game screen, whose
  fields change on each player move, computer move, doubt and new game.
- **Accounts and statistics** (`Auth`, `Db`, `Admin`): the login rate limiter, the
  registration checks, the per-user statistics update, the global totals,
  the ranking, and the administrator's game-statistics tally.

The source's loops become methods with loop invariants. Each method is
proved equal to a specification function, and the lemmas prove the
function's properties. The session object and the login limiter become
classes whose methods update their fields. Random draws, the clock and
database replies are parameters of the operations.

## Model

| member | source | states |
|---|---|---|
| GameLogic.GetOpponentColor | utils/gameLogic.ts:23-25 | the opponent of a player is the other colour, never the player itself |
| GameLogic.CreateInitialBoard | utils/gameLogic.ts:10-17 | the returned board has white on d4/e5 and black on e4/d5, and every other cell is empty |
| GameLogic.SetCellAt | utils/gameLogic.ts:79-88 | writing one cell changes that cell and leaves every other cell as it was |
| GameLogic.Flips | utils/gameLogic.ts:27-56 | every position the move would flip is on the board and holds an opponent stone |
| GameLogic.RunSound | utils/gameLogic.ts:44-48 | the walk in one direction collects only on-board opponent stones |
| GameLogic.WalkRun | utils/gameLogic.ts:40-48 | the `while` walk returns exactly the run of opponent stones from its start cell, and stops at that run's first non-opponent cell |
| GameLogic.ScanDirection | utils/gameLogic.ts:39-53 | one pass of the direction loop contributes the run only if the player's own stone closes it and the run is non-empty; otherwise it contributes nothing |
| GameLogic.GetFlippedPositions | utils/gameLogic.ts:27-56 | the result is the move's flip list: empty on an occupied cell; otherwise the closed runs of the eight directions, in the source's direction order |
| GameLogic.ScanCell | utils/gameLogic.ts:67-72 | a cell contributes one move, with its flip list, exactly when that list is non-empty |
| GameLogic.ScanRow | utils/gameLogic.ts:66-73 | the inner column loop yields the moves of one row, left to right |
| GameLogic.GetValidMoves | utils/gameLogic.ts:62-77 | the nested loops yield the board's move list (properties in BoardProperties.ValidMovesSpec) |
| GameLogic.ValidMoves | utils/gameLogic.ts:62-77 | every listed move is on the board and its flips are on the board |
| GameLogic.FindMove | hooks/useGameState.ts:65-68 | a found move comes from the list and has the requested position; nothing is found exactly when no listed move has that position |
| GameLogic.MakeMove | utils/gameLogic.ts:79-88 | the copy-and-write loop yields the board with the target cell and every flipped cell set to the mover |
| GameLogic.CountStones | utils/gameLogic.ts:90-102 | the counting loop returns the number of black and of white cells |
| GameLogic.GetWinner | utils/gameLogic.ts:110-115 | black wins exactly when black has more stones, white exactly when white has more, and a draw exactly when the counts are equal |
| BoardProperties.InitialBoardCounts | utils/gameLogic.ts:10-17 | the starting board has 2 black, 2 white and 60 empty cells |
| BoardProperties.CountTotal | utils/gameLogic.ts:90-102 | black, white and empty counts add up to 64, so there are never more than 64 stones |
| BoardProperties.RunOnRay | utils/gameLogic.ts:44-48 | a walk's stones lie on the ray from the cell it started beside, and none repeats |
| BoardProperties.FlipsDistinct | utils/gameLogic.ts:39-53 | the flip list of a move has no repeats and never contains the target cell |
| BoardProperties.FlipsOnlyOnEmpty | utils/gameLogic.ts:32-34 | a move that flips anything is on an empty cell |
| BoardProperties.MovesUpToOrdered | utils/gameLogic.ts:65-74 | the moves of the first rows are on the board, in those rows, and in strictly increasing row-major order |
| BoardProperties.ValidMovesSpec | utils/gameLogic.ts:62-77 | each listed move is on the board and carries its exact, non-empty flip list; the list is in strict row-major order; every cell with a non-empty flip list is listed |
| BoardProperties.FindValidMove | utils/gameLogic.ts:58-60 | looking up a cell in the move list gives that cell's move and flip list exactly when the move is valid there, and nothing otherwise |
| BoardProperties.ValidMoveIsLegal | utils/gameLogic.ts:58-77 | a listed move is on an empty cell and flips at least one stone, namely its listed flips |
| BoardProperties.NoValidMovesIff | utils/gameLogic.ts:62-77 | a player has no moves exactly when no cell would flip a stone for them |
| BoardProperties.GameOverIff | utils/gameLogic.ts:104-108 | the game is over exactly when no cell flips anything for either colour |
| BoardProperties.SetCellsAt | utils/gameLogic.ts:83-85 | writing a list of cells sets exactly those cells and leaves all the others |
| BoardProperties.ApplyMoveAt | utils/gameLogic.ts:79-88 | after a move, the target and the flipped cells hold the mover's colour, and every other cell keeps its value |
| BoardProperties.CountSetCells | utils/gameLogic.ts:83-85 | turning k distinct opponent stones raises the mover's count by k and lowers the opponent's by k |
| BoardProperties.MoveCounts | utils/gameLogic.ts:79-88 | a legal move raises the mover's count by one plus the number flipped, lowers the opponent's by the number flipped, and adds one stone in total |
| Search.Weight | utils/ai.ts:140-149 | every positional weight lies between -100 and 100 |
| Search.ScoreRow | utils/ai.ts:152-158 | the inner loop sums a row's weights, counting own stones positive and opponent stones negative |
| Search.EvaluateBoard | utils/ai.ts:135-162 | the evaluation is ten times the stone difference plus the positional score: line 161's value in exact arithmetic, scaled by 10 |
| Search.EvaluateAntisymmetric | utils/ai.ts:135-162 | the black evaluation is the negation of the white one |
| Search.EvaluateBounded | utils/ai.ts:135-162 | every evaluation lies within ±7040, far inside the ±Infinity sentinels |
| Search.PassThenMove | utils/ai.ts:104-110 | a pass is followed by a search level where the other side has moves, so the recursion through a pass moves towards a leaf |
| Search.MinimaxBounded | utils/ai.ts:89-133 | the unpruned minimax value stays within ±704000 |
| Search.AlphaBetaClamp | utils/ai.ts:89-133 | the pruned search agrees with unpruned minimax on every value inside the window (alpha, beta) |
| Search.MaxLoopClamp | utils/ai.ts:112-121 | the maximising loop with cut-off agrees with the full maximum, inside the window |
| Search.MinLoopClamp | utils/ai.ts:122-132 | the minimising loop with cut-off agrees with the full minimum, inside the window |
| Search.AlphaBetaFullWindow | utils/ai.ts:78 | called with (-Infinity, +Infinity), alpha-beta returns exactly the unpruned minimax value |
| Search.Minimax | utils/ai.ts:89-133 | the recursive method computes the pruned search: the evaluation at depth 0 or at game end; a pass when the side to move has no moves; otherwise maximum or minimum with a cut-off once beta <= alpha |
| Search.MaxSearch | utils/ai.ts:112-121 | the max loop's `for` with its `break` computes the maximising loop value |
| Search.MinSearch | utils/ai.ts:122-132 | the min loop's `for` with its `break` computes the minimising loop value |
| Ai.FirstBest | utils/ai.ts:66-68 | the index a `>` reduce keeps has a maximal score, and no earlier index has that score |
| Ai.FirstBestUnique | utils/ai.ts:66-68 | at most one index is the first maximum |
| Ai.MostFlips | utils/ai.ts:40-42 | the move with most flips is one of the given moves |
| Ai.MostFlipsSpec | utils/ai.ts:40-42 | no given move flips more stones than the chosen one |
| Ai.GetRandomMove | utils/ai.ts:34-36 | a random pick is one of the given moves |
| Ai.GetIntermediateMove | utils/ai.ts:38-46 | below 0.7 the intermediate level plays the move flipping most, otherwise a random move; either way one of the given moves |
| Ai.CornerMoves | utils/ai.ts:50-55 | the corner filter keeps exactly the corner moves |
| Ai.SafeMoves | utils/ai.ts:58-63 | the safe filter keeps exactly the moves after which the opponent cannot take a corner |
| Ai.CornerMovesAppend | utils/ai.ts:50-55 | the corner filter keeps the moves' order: filtering a concatenation concatenates the filtered parts |
| Ai.SafeMovesAppend | utils/ai.ts:58-66 | the safe filter keeps the moves' order, so the tie among safe moves that MostFlips breaks follows the move list |
| Ai.AdvancedMoveSpec | utils/ai.ts:48-69 | advanced play takes the first corner move if any; otherwise the safe move flipping most if any; otherwise the move flipping most, all moves then giving up a corner |
| Ai.ScoreMove | utils/ai.ts:76-79 | each candidate is scored by the depth-3 minimax value with the opponent to reply, and the score lies in the search bound |
| Ai.GetExtremeMove | utils/ai.ts:71-87 | the scoring loop yields the extreme level's choice |
| Ai.ExtremeMoveSpec | utils/ai.ts:71-87 | the extreme level plays the first move with the highest minimax score |
| Ai.AIMoveIsLegal | utils/ai.ts:16-32 | the computer has no move exactly when it has no legal move, and any move it plays is legal |
| Ai.GetAIMove | utils/ai.ts:16-32 | the dispatcher picks the strategy for the difficulty, or no move when there are none |
| Cheating.ShouldCheat | utils/cheating.ts:25-43 | the opponent cheats exactly when the turn is at least 10, fewer cheats than the level's cap have happened, the last cheat was at least 3 turns ago, and the draw is below the level's probability |
| Cheating.CollectBlackStones | utils/cheating.ts:89-95 | the nested loops collect the board's black stones in row-major order |
| Cheating.BlackStonesMem | utils/cheating.ts:89-95 | a position is collected exactly when it is on the board and holds a black stone |
| Cheating.BlackStonesDistinct | utils/cheating.ts:89-95 | the collected stones are in strictly increasing row-major order, hence distinct |
| Cheating.CountSurrounded | utils/cheating.ts:120-130 | the neighbour loops count the occupied cells in the 3×3 block, without the centre |
| Cheating.SurroundedCountBounded | utils/cheating.ts:120-131 | a stone has at most 8 occupied neighbours |
| Cheating.IntermediateStones | utils/cheating.ts:107-109 | the intermediate filter keeps every non-corner stone and the corners the draw keeps |
| Cheating.InteriorStones | utils/cheating.ts:112-115 | the advanced filter keeps exactly the stones on neither a corner nor an edge |
| Cheating.FilterSurrounded | utils/cheating.ts:118-133 | the extreme filter keeps exactly the stones with at least four occupied neighbours |
| Cheating.Candidates | utils/cheating.ts:100-134 | every candidate is a collected black stone; beginner takes them all; advanced keeps only interior stones when there are any, else all; extreme keeps only stones with at least four occupied neighbours when there are any, else all |
| Cheating.PickSpec | utils/cheating.ts:137-138 | the shuffle-and-slice picks min(n, candidates) distinct candidates |
| Cheating.GetCheatPositions | utils/cheating.ts:80-139 | the method computes the chosen cheat positions |
| Cheating.CheatPositionsSpec | utils/cheating.ts:80-139 | the positions are black stones on the board, distinct, at most the requested number, at least one when there are candidates, off corners and edges for the advanced level when it has interior stones, and with at least four occupied neighbours for the extreme level when it has such stones |
| Cheating.NumStones | utils/cheating.ts:55-56 | one or two stones are turned, never above the level's maximum |
| Cheating.PerformCheat | utils/cheating.ts:45-78 | the recolouring loop computes the cheat record, or nothing when no stone changed |
| Cheating.RecolorSpec | utils/cheating.ts:61-66 | the loop turns exactly its recorded positions from black to white, without repeats, and leaves every other cell |
| Cheating.PerformCheatSpec | utils/cheating.ts:45-78 | no cheat happens exactly when no position was chosen; a cheat keeps the turn and original board, turns 1 to the allowed number of distinct black stones white, and changes nothing else |
| Cheating.BoardsEqualIff | utils/cheating.ts:155-163 | two boards are equal exactly when all 64 cells agree |
| Cheating.RowMatches | utils/cheating.ts:156-162 | a row compares equal exactly when all its cells agree |
| Cheating.DetectCheat | utils/cheating.ts:149-166 | a cheat is detected exactly when there is a last cheat and the current board equals its cheated board |
| GameSession.UpdatedState | hooks/useGameState.ts:46-61 | the new state has the given board, player and last move, fresh counts, the game-over flag and winner of that board, and the human's turn exactly when black is next; the rest is kept |
| GameSession.NextPlayer | hooks/useGameState.ts:74-75 | play passes to the opponent exactly when the opponent has a legal move |
| GameSession.PlayerMoveAcceptedIff | hooks/useGameState.ts:63-69 | a click is accepted exactly when it is the human's turn, the game is on, and the cell flips a black move; the move found then carries that cell's flip list |
| GameSession.DoubtBoard | hooks/useGameState.ts:136-152 | the doubt board has no white stone: occupied cells turn black, and empty cells keep the starting layout with white replaced by black |
| GameSession.DoubtCounts | hooks/useGameState.ts:154-162 | the doubt board has no white stones, and its black count is 64 exactly when it has no empty cell |
| GameSession.DoubtOnStartingBoard | hooks/useGameState.ts:136-160 | the doubt board rebuilt from the starting board still has empty cells, so it holds fewer than the 64 black stones the code reports |
| GameSession.BuildDoubtBoard | hooks/useGameState.ts:136-152 | the nested loops build the doubt board |
| GameSession.CheatLogAppend | hooks/useGameState.ts:103-112 | a cheat allowed by the rule, logged at the current turn, keeps the session's cheat history consistent with the per-level cap and the 3-turn gap |
| GameSession.NewGameValid | hooks/useGameState.ts:27-39 | a fresh game state on the starting board satisfies the session invariant |
| GameSession.Session.constructor | hooks/useGameState.ts:27-44 | the session starts on the starting board at beginner level, turn 1, with no cheat and the invariant established |
| GameSession.Session.UpdateGameState | hooks/useGameState.ts:46-61 | the state becomes the updated state; turn, last cheat and saved board are unchanged |
| GameSession.Session.HandlePlayerMove | hooks/useGameState.ts:63-85 | an accepted click saves the post-move board for a later doubt, applies the move, passes the turn if the computer can move, and advances the turn; any other click changes nothing |
| GameSession.Session.HandleAIMove | hooks/useGameState.ts:87-130 | on the computer's turn: with no move it passes; if it decides to cheat and the cheat turns no stone nothing changes; a cheat replaces the board, records the cheat and advances the turn; otherwise it plays its move and forgets the last cheat |
| GameSession.Session.HandleDoubt | hooks/useGameState.ts:132-177 | with a recorded cheat on the human's turn, the board becomes the doubt board, the game ends as a black win with 64–0, and the doubt tally rises by one; otherwise nothing changes |
| GameSession.Session.StartNewGame | hooks/useGameState.ts:179-199 | a new game restores the starting board and turn 1, keeps the chosen difficulty, and clears the last cheat |
| Auth.CeilMinutes | lib/auth.ts:49 | the rounded-up minute count is the least whole number of minutes covering the remaining milliseconds |
| Auth.RateLimitResult | lib/auth.ts:33-54 | an unknown or expired address is allowed; a recent one is refused exactly at 5 or more attempts, with the minutes left of the 15-minute window |
| Auth.AttemptsAfterCheck | lib/auth.ts:42-45 | the check deletes exactly an expired entry for the address and keeps all others |
| Auth.AttemptsAfterRecord | lib/auth.ts:57-67 | a success deletes the address's entry; a failure counts one more attempt at the current time; other addresses are untouched |
| Auth.FiveFailuresBlock | lib/auth.ts:33-67 | five failures, each within 15 minutes of the previous one, block the address for at most 15 more minutes |
| Auth.LoginLimiter.constructor | lib/auth.ts:30 | the limiter starts with no recorded attempts |
| Auth.LoginLimiter.CheckRateLimit | lib/auth.ts:33-54 | the check answers as the rate-limit rule says and drops an expired entry |
| Auth.LoginLimiter.RecordLoginAttempt | lib/auth.ts:57-67 | the attempt map is updated as the recording rule says |
| Auth.FirstLine | lib/auth.ts:18-21 | the part of the password the regular expressions look at is its longest prefix without a line terminator |
| Auth.RegistrationError | lib/auth.ts:145-147 | registration reports no error exactly when the schema finds no issue; otherwise it reports the first issue of the first field, in schema order (email, nickname, age, password), that has one |
| Auth.ShortNicknameReported | lib/auth.ts:6-13 | a valid address with a one-character nickname is reported as a too-short nickname, whatever the later fields hold |
| Auth.EmailFormatFirst | lib/auth.ts:6-9 | a malformed address is reported before any other failed rule |
| Auth.RegistrationSpec | lib/auth.ts:5-22 | data passes exactly when the email is well-formed with 5–255 chars, the nickname has 2–50 allowed chars, the age is a whole number from 1 to 150, and the password has 8–100 chars with a lower-case letter, an upper-case letter and a digit before its first line break |
| Db.CountGame | lib/db.ts:61-66 | recording a game adds one game and one to the counter of its result, and leaves the other two result counters unchanged |
| Db.CountGameIn | lib/db.ts:61-66 | only the game's difficulty entry changes, and the difficulty keys stay the same |
| Db.UpdateUserStats | lib/db.ts:35-101 | the update computes the new statistics row, or nothing when the fetch or the upsert fails |
| Db.UpdatedStatsSpec | lib/db.ts:35-101 | total games rise by one; the result's counter rises by one and the other two stay; successful doubts rise by one when the doubt succeeded and stay otherwise; consistent counters stay consistent; the difficulty block starts from the default when missing |
| Db.DefaultConsistent | lib/db.ts:54-59 | the default per-difficulty block is all zeros and consistent |
| Db.Totals | lib/db.ts:192-209 | the totals of no rows are all zero, and the player count is the number of rows |
| Db.TotalsCoverRows | lib/db.ts:192-204 | each column total is at least the value of any single row |
| Db.OverallStats | lib/db.ts:173-221 | a failed query or an empty table gives all zeros; otherwise the player count is the number of rows, and consistent rows give wins, losses and draws adding up to the games |
| Db.TotalsAppend | lib/db.ts:192-204 | totals over two row lists add up |
| Db.TotalsSpec | lib/db.ts:173-221 | the player count is the number of rows, and consistent rows give results adding up to the games |
| Db.SortByWinRate | lib/db.ts:235-240 | the sorted list has as many rows as the input (order and permutation in Db.SortSpec) |
| Db.SortSpec | lib/db.ts:235-240 | the win-rate sort is descending and a permutation of its input |
| Db.FindIndex | lib/db.ts:242 | the index is the first row of that user, or -1 exactly when no row is theirs |
| Db.RoundPercentBounds | lib/db.ts:244 | a rounded percentage of k out of n lies in 0..100 and is 100 for n out of n |
| Db.RoundPercentPositive | lib/db.ts:244 | among at most 200 players, a non-zero share rounds to at least 1 percent |
| Db.LastOfManyIsZero | lib/db.ts:244 | among 201 players the last one's percentile rounds to 0 |
| Db.PercentilesSpec | lib/db.ts:244-251 | "better than" never exceeds the percentile, both lie in 0..100, and the leader is at 100 |
| Db.RankSpec | lib/db.ts:235-242 | the user is found in the sorted list exactly when one of the rows is theirs, nobody ahead has a lower win rate, and nobody behind has a higher one |
| Db.RankingIn | lib/db.ts:242-251 | with n players, the rank is the user's first index plus one, or none when absent; at rank r the percentile is 100(n−r+1)/n and "better than" is 100(n−r)/n, each rounded half up, with the bounds of Db.PercentilesSpec; both are 0 without a rank |
| Db.UserRanking | lib/db.ts:223-255 | no ranking exactly when the query fails or returns no rows; otherwise the player count is the number of rows, and the user has a rank exactly when one of the rows is theirs |
| Db.RankingOfRows | lib/db.ts:235-242 | the rank read off the win-rate order is present exactly when a row is the user's, lies in 1..n, sits at a row of the user's, and has nobody ahead at a lower and nobody behind at a higher win rate |
| Db.UserRankingSpec | lib/db.ts:223-255 | a ranking exists exactly when the query succeeds with rows; it counts every row as a player; the rank is placed as in Db.RankingOfRows; at rank r of n the percentile is round(100(n−r+1)/n) and "better than" round(100(n−r)/n), halves up, 0 ≤ betterThan ≤ percentile ≤ 100, the leader at 100, a percentile of at least 1 for n ≤ 200; both 0 without a rank |
| Admin.ParseDifficultyName | lib/admin.ts:180-183 | the difficulty column names a level exactly when it is that level's name |
| Admin.InitialStatsComplete | lib/admin.ts:168-176 | the initial tally has an entry for each of the four levels |
| Admin.ResultsPartition | lib/admin.ts:178-187 | every row has exactly one result of win, loss or draw |
| Admin.AsWrittenSpec | lib/admin.ts:159-194 | as written, games, wins and draws count their rows, while losses stay 0 in the total and in each level |
| Admin.AsWrittenBounds | lib/admin.ts:178-187 | as written, the levels' games add up to at most the total, and wins plus draws to at most the games |
| Admin.OneLossUncounted | lib/admin.ts:182 | one lost beginner game leaves the as-written loss counters at 0, where the intended tally has 1 |
| Admin.IntendedSpec | lib/admin.ts:159-194 | with the key corrected, every counter counts its rows, and wins, losses and draws add up to the games, in the total and per level |
| Admin.GetGameStats | lib/admin.ts:159-194 | the query result is the as-written tally, with as many total games as rows and no losses; a failed query gives nothing |

## Left out

- The React hook calls some helpers with signatures differing from their
  definitions. `m.row` is used for `m.position.row` (hooks/useGameState.ts:67,
  :121). `getAIMove` gets the wrong arguments (:91), and so do `shouldCheat`
  (:103) and `performCheat` (:104-106). The model follows the definitions in
  utils/ and plays the computer as white. It matches moves by their positions.
- The declared `ValidMove` type (types/game.ts:10-12) is modelled as the
  `{position, flippedPositions}` record that gameLogic.ts builds.
- `CheatAction` (types/game.ts:28-33) is modelled as the record that
  `performCheat` returns. Its `timestamp` (`Date.now()`) is dropped.
- GameSession.Session.HandleAIMove: a cheat's board is shown instead of the
  computer's move, as the hook does. A null `performCheat` result throws at
  `cheatResult.newBoard` (:105). The model therefore aborts the callback, and
  the session is unchanged.
- `EDGE_POSITIONS` (utils/ai.ts:9-14) and `CHEAT_SUBTLETY`
  (utils/cheating.ts:18-23) are never used, so they are not modelled.
- Search.EvaluateBoard: this is the evaluation of utils/ai.ts:161 in exact
  arithmetic, times 10, which is an integer. The source computes
  `stoneCount + positionScore * 0.1` in binary floating point, and rounding
  is not modelled. For example `0 + 3 * 0.1` and `2 + -17 * 0.1` come out
  unequal there, while both are 3 here. `±Infinity` become the sentinels
  ∓1 000 000 000; the proved bounds keep every value far inside them.
- Ai.ExtremeMoveSpec: the first move with the highest score is chosen in
  exact arithmetic. Where floating-point rounding makes two equal scores
  differ, the strict `>` of utils/ai.ts:80 can pick a later move than the
  model does.
- Db.RoundPercentBounds: `winRate` and `Math.round` use exact rationals,
  with halves rounded up as `Math.round` does for non-negative values.
  Floating-point error is not modelled. This covers the ranking's
  `percentile` and `betterThan` (Db.RankingIn, Db.UserRankingSpec). For
  example, at rank 18 of 40 players the program computes
  `Math.round((23 / 40) * 100)` = 57, because `0.575 * 100` falls just
  below 57.5 in binary floating point, while `RoundPercent(23, 40)` = 58.
- Db.PercentilesSpec: the percentile is at least 1 only among at most 200
  players. For more players the last one can round to 0 (Db.LastOfManyIsZero).
- `Math.random` becomes `real` draws in [0, 1). The intermediate level's
  corner coin is the parameter `keepCorner`. The random shuffle becomes
  the successive choices `picks`. The shuffle comparator's bias is not
  modelled.
- `Date.now()` becomes the parameter `now`.
- Auth.RegistrationSpec: lengths are counted in characters, not UTF-16 code
  units. zod's `.email()` check is the boolean parameter `emailFormatOk`.
  The Supabase calls of `registerUser` and `loginUser` (sign-up, profile
  insert, sign-in) are I/O and are not modelled. `loginSchema` is the
  predicate `Auth.ValidLogin`.
- Session fields not modelled: the hook's `gameStats`, `message`,
  `gameStarted`. Also not modelled: the localStorage effects (:202-243),
  the `setTimeout` scheduling, and the statistics saved after a doubt
  (:167-176), which may count the game a second time.
- `updateGameState`'s `nextPlayer = null` case is never taken by its
  callers, so it is not modelled.
- Not modelled from lib/db.ts and lib/admin.ts: `getDailyUserRegistrations`,
  `isAdmin`, `getAllUsers`, `getUserCountStats`, `getUserStats`,
  `getUserDifficultyStats`, `logout` and `getCurrentUser`. These are plain
  database reads.
- Admin.GetGameStats: a reply with neither data nor error is modelled as an
  empty row list. A result outside win, loss and draw is not modelled. A
  difficulty name equal to an `Object.prototype` key is not modelled.
- Db.SortSpec: the sort's stability is not proved. Among equal win rates,
  the rank follows the model's stable insertion sort.
- GameLogic.GetFlippedPositions requires the target to be on the board. The
  source indexes the board without a check, and every caller passes an
  on-board cell.
- GameSession.Session.HandleDoubt: the doubt board is stated, and so are its
  counts (GameSession.DoubtCounts). The code reports 64 black stones even
  when the rebuilt board has empty cells (GameSession.DoubtOnStartingBoard).
  The model keeps the reported 64–0.

## Findings

| source | as written | input that shows it | evidently intended | confidence | as-written member | corrected member |
|---|---|---|---|---|---|---|
| lib/admin.ts:182, lib/admin.ts:186 | a lost game increments the misspelt key `losss`, so `losses` stays 0 in every level and in the total | `[GameRow("beginner", Loss)]`: the as-written tally reports 0 losses | increment `losses`, so wins, losses and draws add up to the games | not executed | Admin.AsWrittenSpec, Admin.OneLossUncounted | Admin.IntendedSpec |
