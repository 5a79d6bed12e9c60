# Connect Four search of Lab2, in Dafny

This project models the core of the Connect Four program in `Lab2`. It has two parts.

The first part is the `Board` class of `board.py`:
- a grid with gravity placement and a history of placements;
- `move` and `undo_move`, with their error checks;
- `game_end`, which walks outwards from the last piece in eight directions and sums opposite pairs.

The second part is the search machinery of `game.py` that runs on the coordinator (rank 0) and the workers:
- `evaluate`, a minimax with early exits that reads worker results at DEPTH_WORKER;
- `do_job`, which picks the best column and halves the depth while every column scores -1;
- `create_tasks`, `get_task`, `update_task` and `get_result_for_moves`;
- the coordinator's request/result dispatch loop.

The code is modelled in two layers:
- **Values.** `board_model.dfy`, `tasks.dfy`, `search_model.dfy` and `protocol.dfy` describe each operation as a function on values. A Python exception becomes an `Err` value (`errors.dfy`). The lemmas there state what the operations mean.
- **In-place code.** The code that changes state in place is written imperatively and proved to compute those functions:
  - `board.dfy`: class `Board` over an `array2<int>`.
  - `search.dfy`: `evaluate` and `do_job` making and undoing moves on a `Board`.
  - `coordinator.dfy`: class `Coordinator`, with the task list, the result list and the count of active workers as fields.

## Conventions of the model

- **Integers.** The board stores `np.int16`. Only 0, 1 and 2 are ever stored, so plain integers are used.
- **Scores.** Scores are reals. `round(x, 8)` is exact rounding to the nearest multiple of 10^-8, ties to even.
- **Coin flips.** `np.random.random_sample() < 0.5` is an oracle `coin: nat -> bool`. It is asked once per tie, in order.
- **Column indexing.** numpy indexing of a row by a column is modelled exactly:
  - a column in `-WIDTH <= col < 0` counts from the end;
  - any other column outside the board raises `IndexError`;
  - a board with no rows never indexes, so `get_next_open_row` returns -1 there.
- **Player numbering.** `board.py` numbers the players CPU = 1 and HUMAN = 2, and `game.py` numbers them HUMAN = 1 and CPU = 2. The board only checks membership in `{1, 2}`, and the model keeps both numberings.
- **Negative columns in the history.** `move` records the column as it was passed. After `move(-1, p)`, `game_end` therefore walks from column -1, not from the cell that was filled. The model does the same.
- **Errors mid-search.** When a step of the search raises, the moves made so far stay on the board, as they do in Python. The contracts describe the board only when no error occurs.

Three behaviours of the code that are easy to miss:
- **No legal move.** With depth left (depth > 0), a position that is not won and has no legal move evaluates to 1. With no depth left it scores 0 before the column loop, like every position that is not won. `all_win` is never cleared, so the mean is never computed and nothing is divided by zero. See `SearchModel.FullBoardScoresOne`.
- **The task list.** The module-level task list is never cleared. Each computer turn appends a new batch of tasks after the old ones. See `Coordinators.Coordinator.BeginTurn`.
- **The cache key.** At DEPTH_WORKER the result list is searched with the move list taken before the child's move. All children of that node therefore get the same entry (`SearchModel.CutoffHit`). When no entry exists, `None['result']` raises (`SearchModel.CutoffMiss`).

## Model

| member | source | states |
|---|---|---|
| BoardModel.Create | Lab2/board.py:16-27 | Construction fails exactly when a dimension is negative (numpy, first) or the win length exceeds the width or the height. Otherwise the grid is all zeros of the given shape and there are no placements. |
| BoardModel.Zeros | Lab2/board.py:26-27 | `np.zeros((HEIGHT, WIDTH))`: HEIGHT rows of WIDTH cells, every cell 0. |
| BoardModel.CreatedConsistent | Lab2/board.py:16-27 | A freshly built board satisfies the board invariant. |
| Boards.Board.constructor | Lab2/board.py:16-27 | The object holds an all-zero grid of the given shape and no placements, and satisfies `Valid()`. |
| Boards.Board.Create | Lab2/board.py:16-27 | The object-level constructor fails with exactly the error `BoardModel.Create` gives. On success it returns a fresh board whose value is `BoardModel.Create`'s. |
| BoardModel.ScanUp | Lab2/board.py:54-59 | The scan returns the largest row at most `row` whose cell in the column is 0, or -1 exactly when every such cell is non-zero. |
| Boards.Board.GetNextOpenRow | Lab2/board.py:54-59 | The scanning loop over `data` returns what `OpenRow` gives for the board's value, IndexError included. |
| BoardModel.MoveLegalMeaning | Lab2/board.py:32-33 | `move_legal` answers without error exactly when numpy can index the column or the board has no rows. It says True exactly when that column holds a 0 cell. |
| Boards.Board.MoveLegal | Lab2/board.py:32-33 | The method's answer is `BoardModel.MoveLegal` of the board's value. |
| BoardModel.Move | Lab2/board.py:35-45 | A successful move keeps the board's shape and width, height and win length. |
| BoardModel.MoveMeaning | Lab2/board.py:35-45 | `move` fails in the source's order: an indexing error, then a full column, then an unsupported player. It succeeds exactly for a legal column and a player in {1, 2}. Then only the lowest empty cell of the column changes (to the player), and exactly one placement is appended. |
| Boards.Board.Move | Lab2/board.py:35-45 | On success the array and the history become `BoardModel.Move`'s result. On failure nothing changes. `Valid()` is kept. |
| BoardModel.Undo | Lab2/board.py:47-52 | `undo_move` keeps the board's shape; popping an empty history is an error. |
| Boards.Board.UndoMove | Lab2/board.py:47-52 | The array and the history become `BoardModel.Undo`'s result. An empty history fails and changes nothing. |
| BoardModel.MoveKeepsConsistent | Lab2/board.py:44-45 | `move` keeps the invariant. Every placement holds its player at its own cell, no two share a cell, and there are as many placements as non-zero cells. |
| BoardModel.UndoKeepsConsistent | Lab2/board.py:51-52 | `undo_move` keeps the same invariant. |
| BoardModel.UndoAfterMove | Lab2/board.py:35-52 | `move` followed by `undo_move` gives back exactly the same grid and history. |
| BoardModel.UndoOnEmpty | Lab2/board.py:51 | `undo_move` with no placements is an error (pop on an empty list). |
| BoardModel.Walk | Lab2/board.py:84-92 | After x rounds a direction's counter is at most x, and it equals x while the flag is still set. |
| BoardModel.WalkIsRun | Lab2/board.py:84-92 | The counter is the length of the run of the player's pieces in that direction, cut off at x. Every counted step matches and the next step does not. The flag is set exactly when no miss was seen. |
| BoardModel.WalkStopsForGood | Lab2/board.py:89-92 | Once a direction's flag is cleared its counter and flag never change again. |
| BoardModel.WalkCountsRun | Lab2/board.py:84-92 | A run of a matching steps is counted in full, up to the round limit. |
| BoardModel.Counts | Lab2/board.py:75-92 | There are eight counters, each at most SEQUENCE_LENGTH. |
| BoardModel.PairCheckCases | Lab2/board.py:94-98 | The pair loop is True exactly when a pair among the first min(SEQUENCE_LENGTH, 4) sums to at least SEQUENCE_LENGTH - 1. It raises IndexError exactly when SEQUENCE_LENGTH >= 5 and none of the four pairs wins. |
| BoardModel.GameEndCases | Lab2/board.py:64-98 | With fewer placements than SEQUENCE_LENGTH the game is not over. Otherwise `game_end` is True exactly when some opposite pair of the last piece's counters reaches SEQUENCE_LENGTH - 1 (within the axes the loop checks). With at least SEQUENCE_LENGTH placements it raises exactly when there is none to read (SEQUENCE_LENGTH <= 0), or SEQUENCE_LENGTH >= 5 and none of the four pairs wins. |
| BoardModel.WinHasLine | Lab2/board.py:64-98 | When `game_end` is True, the last player's pieces run through the last piece along one axis, with at least SEQUENCE_LENGTH - 1 of them besides it. |
| BoardModel.LineIsWin | Lab2/board.py:64-98 | Conversely, such a run along one of the checked axes, with enough placements, makes `game_end` True. |
| Boards.Board.GameEnd | Lab2/board.py:64-98 | The nested loops over the array compute `BoardModel.GameEnd` of the board's value, IndexError cases included. |
| Boards.Board.WalkDirections | Lab2/board.py:84-92 | The outer loop leaves the eight counters of `BoardModel.Counts`. |
| Boards.Board.StepDirections | Lab2/board.py:85-92 | One round takes every direction from its state after x rounds to its state after x + 1 rounds. |
| Boards.Board.Copy | Lab2/game.py:134 | `copy.deepcopy(board)` gives a fresh board with a fresh array and the same value. |
| Boards.Board.Snapshot | Lab2/game.py:142 | The value copied into a task is exactly the board's grid and history. |
| Rules.NextPlayer | Lab2/game.py:50-51 | The result is always a player the board accepts. It is the human exactly when the argument is the computer. |
| Rules.NextPlayerSwaps | Lab2/game.py:50-51 | On the two players, `get_next_player` swaps them and is its own inverse. |
| Tasks.ApplyPath | Lab2/game.py:134-140 | Playing a path keeps the board's shape. |
| Tasks.ApplyPathExtends | Lab2/game.py:137-142 | Playing a path appends at most |path| placements to the root's history. The first new one is the starting player's, each later one alternates, and the board invariant is kept. |
| Tasks.ApplyPathStep | Lab2/game.py:137-140 | Each step of a path is decided on the board of its turn. A full column is skipped, and the rest is played on the same board by the same player. A column with room is played by the player whose turn it is, in that column's lowest empty cell, and the rest follows with the other player. |
| Tasks.ApplyPathColumns | Lab2/game.py:137-140 | The columns of the new placements are a subsequence of the path, in path order: each step is either played in its own column or skipped. |
| Tasks.ApplyPathPlaysAll | Lab2/game.py:137-140 | When the top |path| rows of the board are empty, no step is skipped. The columns of the new placements are then exactly the path. |
| Tasks.ApplyPathSucceeds | Lab2/game.py:137-140 | With a player in {1, 2}, columns in 0..6 and a board at least 7 wide (or with no rows), playing a path raises nothing. |
| Tasks.MakeTask | Lab2/game.py:142-143 | A new task has no result, is not active, belongs to the given player, and its `moves` are its board's history. |
| Tasks.ExpandSize | Lab2/game.py:131-153 | Without an error, `create_tasks` at depth d appends exactly BOARD_WIDTH^d tasks. |
| Tasks.ExpandFromSize | Lab2/game.py:149-153 | The loop from column `col` appends (BOARD_WIDTH - col) · BOARD_WIDTH^(d-1) tasks. |
| Tasks.ExpandSucceeds | Lab2/game.py:131-153 | With a player in {1, 2} and a board at least 7 wide, `create_tasks` raises nothing. |
| Tasks.ExpandOrder | Lab2/game.py:131-153 | The tasks come in the order of the nested loops. For every path q of `depth` columns, the task at position q read in base BOARD_WIDTH is the task `MakeTask` builds for the current path followed by q. |
| Tasks.ExpandAt | Lab2/game.py:131-153 | The same for one path q: its position lies inside the appended tasks, and the task there is the one for that path. |
| Tasks.ExpandFromAt | Lab2/game.py:149-153 | In the loop from column `col`, a path starting with column c lies in the (c - col)-th block of BOARD_WIDTH^(d-1) tasks, and the task there is the one for that path. |
| Tasks.IndexBound | Lab2/game.py:149-153 | Read in base BOARD_WIDTH, a path of length d is a position below BOARD_WIDTH^d, so it indexes one of the tasks. |
| Tasks.ExpandFresh | Lab2/game.py:131-153 | Each appended task has no result and is not active. Its player is the given one. Its `moves`, its board's history, extend the root's by at most |path| + d alternating moves that start with that player. Its board is consistent when the root is. |
| Tasks.FirstInactive | Lab2/game.py:157-160 | The index found is the first inactive task. None means every task is active. |
| Tasks.ClaimMeaning | Lab2/game.py:156-162 | `get_task` returns None exactly when every task is active, and then changes nothing. Otherwise it marks only the first inactive task active and returns it. The number of active tasks grows by exactly one. |
| Tasks.FirstMatch | Lab2/game.py:166-169 | The index found is the first task whose `moves` equal the reply's. None means no task matches. |
| Tasks.Lookup | Lab2/game.py:175-181 | The entry found has the given moves and is the first such entry of the list. None holds exactly when no entry has them. |
| Tasks.LookupAppend | Lab2/game.py:171-181 | Appending an entry changes a lookup only when nothing earlier matched and the new entry matches. |
| Tasks.RecordThenLookup | Lab2/game.py:165-181 | After `update_task` for moves some task carries, only the first such task takes the result, and every other task is unchanged. The pair is appended to the result list. A lookup of those moves finds the earlier entry if one exists, otherwise the new result. Every other lookup is unchanged, and the number of active tasks is unchanged. |
| Tasks.RecordNoMatch | Lab2/game.py:165-172 | When no task carries the returned placements, `update_task` changes no task and appends nothing, whether or not the result list exists. |
| Tasks.RecordWithoutList | Lab2/game.py:165-172 | When some task carries the returned placements and there is no result list, `update_task` raises at the append. |
| Search.FindResult | Lab2/game.py:175-181 | The loop returns `Tasks.Lookup` of the list and the moves. |
| Coordinators.Coordinator.constructor | Lab2/game.py:46 | The coordinator starts with no tasks, no result list and no active worker. |
| Coordinators.Coordinator.CreateTasks | Lab2/game.py:131-153 | The tasks of `Tasks.Expand` are appended to the task list and nothing else changes. A move that raises stops the expansion with that error. The board passed in is not modified. |
| Coordinators.Coordinator.GetTask | Lab2/game.py:156-162 | The task list and the returned task are those of `Tasks.Claim`. |
| Coordinators.Coordinator.UpdateTask | Lab2/game.py:165-172 | The tasks and the result list become `Tasks.Record`'s. Without a result list it raises, after setting the first matching task's result, as Python does. |
| Coordinators.Coordinator.Handle | Lab2/game.py:245-274 | Handling one message computes `Protocol.Step` on the coordinator's state. |
| Coordinators.Coordinator.Serve | Lab2/game.py:244-274 | The loop computes `Protocol.Run`: the replies sent, the number of messages read and the final state. |
| Coordinators.Coordinator.BeginTurn | Lab2/game.py:236-241 | The new tasks are appended after the old ones. On success: a result list exists when there are workers, and every worker (size - 1) is active. |
| Coordinators.TurnTasks | Lab2/game.py:236 | On a board of the game's width, a turn creates 49 fresh tasks for the computer without raising. |
| Coordinators.GameBoard | Lab2/game.py:212 | The game's board `Board(BOARD_WIDTH, BOARD_HEIGHT, SEQUENCE_LENGTH)` is built without raising. It has 6 empty rows of 7 cells and keeps the board invariant. Its win length is one the search handles without raising, and a turn's tasks are created on it without raising. |
| Protocol.StepRequest | Lab2/game.py:251-267 | A REQUEST always gets a reply, addressed to its sender. It gets TASK exactly when an inactive task exists: the first one, now active, with the active-task count up by one. Otherwise it gets WAIT and the only change is one active worker fewer. |
| Protocol.EventOf | Lab2/game.py:250-274 | A message is a request exactly under TAG_REQUEST, and a result (with the message's placements and score) exactly under TAG_RESULT. Under any other tag it is the unexpected tag itself. |
| Protocol.ReplyTag | Lab2/game.py:259-264 | A task is sent under TAG_TASK and a wait under TAG_WAIT, and under no other tag. |
| Protocol.StepOthers | Lab2/game.py:269-274 | An unknown tag raises. A RESULT is answered with nothing. It changes neither active_workers nor the number or activity of tasks. |
| Protocol.RunAccounting | Lab2/game.py:244-274 | The loop reads no more messages than given. It stops early only once no worker is active. Starting from a positive count it then stops precisely at 0 and never goes below it. Each TASK sent adds one active task, each WAIT removes one active worker, and the task list keeps its length. |
| Protocol.NoTaskWhenAllActive | Lab2/game.py:251-264 | Once every task is active, only WAIT is sent. |
| Protocol.NoTaskAfterWait | Lab2/game.py:244-274 | After a WAIT has been sent, no TASK is sent any more in the loop. |
| SearchModel.RoundHalfEven | Lab2/game.py:106 | The integer returned is within 1/2 of its argument. |
| SearchModel.Round8 | Lab2/game.py:106 | `round(x, 8)` is within 0.5 · 10^-8 of x. |
| SearchModel.Round8Bounded | Lab2/game.py:106 | Rounding keeps a score in [-1, 1]. |
| SearchModel.ChildColumn | Lab2/game.py:70-98 | One turn of the loop either leaves the counters as they were (illegal column) or counts one more child. |
| SearchModel.FoldMeaning | Lab2/game.py:64-98 | After the children's scores: n_moves has grown by their number and total by their sum. all_win still holds exactly when every score is >= 1, and all_lose when every score is <= -1. |
| SearchModel.ChildLoopCombines | Lab2/game.py:70-106 | When every legal child has a score, the loop returns the decisive value if a decisive score occurs, and otherwise the value of the final counters. |
| SearchModel.EvaluationIsNodeValue | Lab2/game.py:54-106 | For a position not won, with depth left and every legal child scored, `evaluate` equals the reference value of those scores in column order. That value is: the decisive value if a child is decisive for the mover; else 1 if every score >= 1; else -1 if every score <= -1; else the mean rounded to 8 places. |
| SearchModel.EvaluationLeaves | Lab2/game.py:56-60 | A won position scores 1 for a computer move and -1 otherwise, at any depth; the check comes before the depth check. A position not won with no depth left scores 0. An error of `game_end` propagates. |
| SearchModel.FullBoardScoresOne | Lab2/game.py:67-101 | With depth left (depth > 0), a position not won and without legal moves scores 1, through all_win, not through a division. |
| SearchModel.CutoffChildren | Lab2/game.py:74-80 | At DEPTH_WORKER with a result list, every legal child receives the entry recorded for the parent's moves. |
| SearchModel.CutoffScores | Lab2/game.py:74-80 | At DEPTH_WORKER the children's scores are that one entry, once per legal column. |
| SearchModel.ConstantNodeValue | Lab2/game.py:86-106 | n equal child scores c give the node the value of c clamped to [-1, 1] and rounded, or the decisive value; no child gives 1. |
| SearchModel.CutoffHit | Lab2/game.py:74-80 | At DEPTH_WORKER a position scores its own recorded entry (decisive, clamped or rounded), or 1 without legal moves. |
| SearchModel.CutoffMiss | Lab2/game.py:79-80 | At DEPTH_WORKER, with a legal move and no entry for the position, `evaluate` raises. |
| SearchModel.FinishInRange | Lab2/game.py:100-106 | After the loop, when total lies within ±n_moves, the value lies in [-1, 1]. |
| SearchModel.EvaluationInRange | Lab2/game.py:54-106 | With every recorded result in [-1, 1], every score `evaluate` returns is in [-1, 1]. |
| SearchModel.EvaluationErrors | Lab2/game.py:54-106 | With a win length between 1 and 4, the only error `evaluate` can raise is the missing result-list entry. Without a result list it raises nothing. |
| Search.Evaluate | Lab2/game.py:54-106 | Over a `Board` changed in place, the method returns `SearchModel.Evaluation` of the board's starting value. When it returns a score the board is exactly as before. |
| Search.EvaluateColumn | Lab2/game.py:70-98 | One turn of the loop computes `SearchModel.ChildColumn`. Unless it raises, the board is unchanged. |
| Search.ScoreChild | Lab2/game.py:74-84 | The child's score is read from the result list at DEPTH_WORKER and computed one level down otherwise. When it returns a score the move is undone and the board is as before. |
| SearchModel.Pick | Lab2/game.py:199-202 | Definition of the tie-break. A higher score replaces the best score and column. An equal one replaces the column when the next coin flip says so, using one flip. Its meaning is stated by `SearchModel.RoundMeaning`, `SearchModel.RoundBestIgnoresCoin` and `SearchModel.SearchPicksLegalColumn`. |
| SearchModel.RoundColumnCases | Lab2/game.py:193-202 | One column of a pass either keeps the choice (illegal column) or offers that column's evaluated score to `Pick`. |
| SearchModel.RoundMeaning | Lab2/game.py:193-202 | A pass that raises nothing ends with a best score at least the starting one and at least every legal column's score. The column it keeps is the initial one with the starting score, or a legal column that achieves the best score. |
| SearchModel.RoundBestIgnoresCoin | Lab2/game.py:199-202 | The coin decides only the column: two passes with the same starting score fail together or reach the same best score. |
| SearchModel.SearchLastPass | Lab2/game.py:185-206 | With no depth left `do_job` returns (-1, 0) without searching. Otherwise its answer is a pass at one of depth, depth/2, ..., and the score is -1 only if the passes reached depth 1. |
| SearchModel.SearchPicksLegalColumn | Lab2/game.py:184-206 | For the computer, with depth left and a legal column, `do_job` returns a score above -1. Its column is legal and achieves that score at some depth d in (0, depth]. |
| SearchModel.RoundInRange | Lab2/game.py:193-202 | A pass from a score in [-1, 1] ends with a score in [-1, 1] when the result list is in range. |
| SearchModel.SearchInRange | Lab2/game.py:184-206 | The score `do_job` returns lies in [-1, 1] when the result list is in range. |
| SearchModel.RoundTotal | Lab2/game.py:193-202 | Without a result list, a win length between 1 and 4 and a player in {1, 2}, a pass raises nothing. |
| SearchModel.SearchTotal | Lab2/game.py:184-206 | Under the same conditions `do_job` raises nothing. |
| Search.DoJob | Lab2/game.py:184-206 | Over the `Board`, the while loop returns `(best_result, best_col)` of `SearchModel.Search`. When it returns, the board is as before. |
| Search.Pass | Lab2/game.py:190-202 | One pass of the while loop computes `SearchModel.Round` from (-1, 0). When it returns, the board is as before. |
| Search.PassColumn | Lab2/game.py:193-202 | One turn of the for loop computes `SearchModel.RoundColumn`. |
| Search.ScoreMove | Lab2/game.py:194-197 | Move, `evaluate` at depth - 1, and undo: the score is `SearchModel.Evaluation` of the moved board, and the board is restored. |
| SearchModel.WorkReply | Lab2/game.py:336-349 | A worker's reply carries the task's own board and its placements. `update_task` therefore finds the first task carrying those placements. Its result is in [-1, 1]. With a win length between 1 and 4 and a valid player the worker raises nothing. |
| BoardModel.ColumnIndex | Lab2/board.py:59 | Definition: the cell numpy reads for `data[row][col]`. A column in 0..WIDTH-1 is itself, a column in -WIDTH..-1 counts from the end, and any other column is out of range. |
| BoardModel.OpenRow | Lab2/board.py:54-59 | Definition of `get_next_open_row`: -1 on a board with no rows, IndexError for a column numpy cannot index, otherwise the scan from the bottom row. Its meaning is stated by `BoardModel.ScanUp`. |
| BoardModel.MoveLegal | Lab2/board.py:32-33 | Definition of `move_legal`: `get_next_open_row(col) != -1`, with its IndexError. Its meaning is stated by `BoardModel.MoveLegalMeaning`. |
| BoardModel.InBounds | Lab2/board.py:61-62 | Definition of `in_bounds`: 0 <= row < HEIGHT and 0 <= col < WIDTH. |
| Boards.Board.InBounds | Lab2/board.py:61-62 | `in_bounds` on the object's fields, the same test as `BoardModel.InBounds`. |
| BoardModel.PairCheck | Lab2/board.py:94-98 | Definition of the loop over i = 0, 2, ..., 2·SEQUENCE_LENGTH - 2. It answers True at the first opposite pair whose counters sum to at least SEQUENCE_LENGTH - 1, and raises IndexError when i + 1 passes the eighth direction. Its meaning is stated by `BoardModel.PairCheckCases`. |
| BoardModel.GameEnd | Lab2/board.py:64-98 | Definition of `game_end`: False below SEQUENCE_LENGTH placements, otherwise the pair loop over the counters walked from the last placement. Its meaning is stated by `BoardModel.GameEndCases`, `BoardModel.WinHasLine` and `BoardModel.LineIsWin`. |
| Tasks.Expand | Lab2/game.py:131-153 | Definition of `create_tasks`: at depth 0 one task for the path, otherwise the loop over the columns. Its meaning is stated by `Tasks.ExpandSize`, `Tasks.ExpandOrder` and `Tasks.ExpandFresh`. |
| Tasks.ExpandFrom | Lab2/game.py:149-153 | Definition of the loop of `create_tasks` from column `col`: the tasks of path + [col] at depth - 1, then the rest. The first error stops it. |
| Tasks.Claim | Lab2/game.py:156-162 | Definition of `get_task` on the task list: mark the first inactive task active and return it. Its meaning is stated by `Tasks.ClaimMeaning`. |
| Tasks.Record | Lab2/game.py:165-172 | Definition of `update_task`. The first task with the returned placements takes the result, and the pair is appended to the result list. Without a result list the function returns the append's error, and its updated task list is lost; `Coordinators.Coordinator.UpdateTask` is the one that keeps the result it set before raising. Its meaning is stated by `Tasks.RecordThenLookup`, `Tasks.RecordNoMatch` and `Tasks.RecordWithoutList`. |
| Protocol.Step | Lab2/game.py:250-274 | Definition of one turn of the coordinator's loop. A REQUEST is answered with the claimed task, or with WAIT and one active worker fewer. A RESULT is recorded. Any other tag raises. Its meaning is stated by `Protocol.StepRequest` and `Protocol.StepOthers`. |
| Protocol.Run | Lab2/game.py:244-274 | Definition of `while active_workers > 0` over the messages in arrival order. Its meaning is stated by `Protocol.RunAccounting`, `Protocol.NoTaskWhenAllActive` and `Protocol.NoTaskAfterWait`. |
| SearchModel.Evaluation | Lab2/game.py:54-106 | Definition of `evaluate`. Its meaning is stated by `SearchModel.EvaluationLeaves`, `SearchModel.EvaluationIsNodeValue`, `SearchModel.EvaluationInRange` and `SearchModel.EvaluationErrors`. |
| SearchModel.Child | Lab2/game.py:79-82 | Definition of the score of one child. At DEPTH_WORKER with a result list it is the entry recorded for the parent's placements, and a missing entry raises. Otherwise it is `evaluate` one level down. |
| SearchModel.ChildLoop | Lab2/game.py:70-106 | Definition of the for loop of `evaluate` from column `col`, followed by the final all_win / all_lose / mean step. Its meaning is stated by `SearchModel.ChildLoopCombines`. |
| SearchModel.Finish | Lab2/game.py:100-106 | Definition of the end of `evaluate`: 1 if all_win, -1 if all_lose, else the mean rounded to 8 places. Its range is stated by `SearchModel.FinishInRange`. |
| SearchModel.Round | Lab2/game.py:193-202 | Definition of one pass of the for loop of `do_job` from column `col`. Its meaning is stated by `SearchModel.RoundMeaning`. |
| SearchModel.RoundColumn | Lab2/game.py:193-202 | Definition of one turn of that for loop. Its meaning is stated by `SearchModel.RoundColumnCases`. |
| SearchModel.SearchFrom | Lab2/game.py:189-204 | Definition of the while loop of `do_job`: a pass at the current depth while the best score is -1 and depth is left, the depth halved after each pass. |
| SearchModel.Search | Lab2/game.py:184-206 | Definition of `do_job`: the while loop from (-1, 0) at the given depth. Its meaning is stated by `SearchModel.SearchLastPass` and `SearchModel.SearchPicksLegalColumn`. |
| SearchModel.Work | Lab2/game.py:336-349 | Definition of what a worker does with one task: `do_job(DEPTH_WORKER, player)` on the task's board, the result and the board's placements written into the task. Its meaning is stated by `SearchModel.WorkReply`. |

## Left out

- `get_input`, `print_board`, the DEBUG prints, timing output and `sys.argv` parsing of DEPTH are left out: they are terminal and process I/O. DEPTH and DEPTH_WORKER are parameters.
- `notify_workers` and every `comm.send`/`comm.recv` are left out. MPI transport is replaced by the sequence of `Protocol.Event` values the coordinator receives, in the order they arrive.
- The worker's process loop is left out, beyond what it computes for one task (`SearchModel.Work`). Concurrency between workers is not modelled.
- The master's main loop is not modelled as one operation. That loop is the human move, `game_end`, `BeginTurn`, `Serve`, `do_job` with the result list, and the computer's move. Each step is modelled separately, and their composition over a game is not stated.
- Floating point is left out. Scores are reals and `round(x, 8)` is exact rounding half to even on reals. Binary floating-point effects are not captured.
- `np.random.random_sample` is replaced by the `coin` oracle. No probability is modelled.
- Coordinators.Coordinator.CreateTasks: takes a `nat` depth; with a negative depth the Python recursion never reaches 0 and ends in RecursionError, which is not modelled.
- Coordinators.Coordinator.CreateTasks: the leaf case with `path` None (depth 0 at the top call) would raise TypeError in Python. Every call in the program passes a list there, so the model takes a sequence.
- Coordinators.Coordinator.Handle: after an error the coordinator's state is not described. It shows only that the error propagates, because the Python process aborts there.
- Coordinators.Coordinator.Serve: when the messages run out while a worker is still active, the real loop would block in `comm.recv`. The model stops and reports how many messages it read.
- Search.Evaluate: after an error the board's state is not described, beyond `Valid()`. The moves made so far stay on the board, as they do in Python.
- Search.DoJob: the same holds after an error, for the same reason.
- Distinctness of the tasks' move-list keys is not proved. When a path skips a full column, two paths can give the same key.
