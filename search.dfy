/** evaluate, do_job and get_result_for_moves of Lab2/game.py as methods over a Board
    that they change in place: each move is made on the board and undone after its
    child has been scored.  Each method computes the function of SearchModel that
    describes it. */
module Search {
  import opened Errors
  import M = BoardModel
  import opened Rules
  import opened Tasks
  import opened SearchModel
  import opened Boards

  /** get_result_for_moves: the first entry recorded for `moves`. */
  method FindResult(cache: seq<CacheEntry>, moves: seq<M.Placement>) returns (r: Option<CacheEntry>)
    ensures r == Lookup(cache, moves)
  {
    var i := 0;
    while i < |cache|
      invariant 0 <= i <= |cache|
      invariant Lookup(cache, moves) == Lookup(cache[i..], moves)
    {
      assert cache[i..][1..] == cache[i + 1..];
      if cache[i].moves == moves {
        return Some(cache[i]);
      }
      i := i + 1;
    }
    return None;
  }

  /** evaluate(current, player, depth, moves_result_list).  When it returns a score the
      board is as it was; when a look-up raises, the moves made so far stay on the
      board, as they do when the exception leaves the Python loop. */
  method Evaluate(board: Board, player: int, depth: int, cache: Option<seq<CacheEntry>>, workerDepth: int)
    returns (r: Result<real>)
    requires board.Valid()
    modifies board, board.data
    ensures board.Valid()
    ensures r == Evaluation(old(board.State()), player, depth, cache, workerDepth)
    ensures r.Ok? ==> board.State() == old(board.State())
    decreases Depth(depth), 2
  {
    var won := board.GameEnd();
    if won.Err? {
      return Err(won.error);
    }
    if won.value {
      return Ok(if player == PlayerCpu then 1.0 else -1.0);
    }
    if depth <= 0 {
      return Ok(0.0);
    }
    ghost var s := board.State();
    var acc := Start;
    var col := 0;
    while col < board.width
      invariant 0 <= col <= board.width
      invariant board.Valid() && board.State() == s
      invariant acc.n > 0 || acc.allWin
      invariant ChildLoop(s, player, depth, cache, workerDepth, 0, Start)
                == ChildLoop(s, player, depth, cache, workerDepth, col, acc)
    {
      var step := EvaluateColumn(board, player, depth, cache, workerDepth, col, acc);
      if step.Done? {
        return step.result;
      }
      acc := step.acc;
      col := col + 1;
    }
    if acc.allWin {
      return Ok(1.0);
    }
    if acc.allLose {
      return Ok(-1.0);
    }
    return Ok(Round8(acc.total / acc.n as real));
  }

  /** One turn of the loop of evaluate: n_moves, total, all_win and all_lose after
      column `col`, or the value evaluate returns there. */
  method EvaluateColumn(board: Board, player: int, depth: int, cache: Option<seq<CacheEntry>>, workerDepth: int,
                        col: int, acc: Acc) returns (r: Visit)
    requires board.Valid() && depth > 0 && 0 <= col < board.width
    modifies board, board.data
    ensures board.Valid()
    ensures r == ChildColumn(old(board.State()), player, depth, cache, workerDepth, col, acc)
    ensures !(r.Done? && r.result.Err?) ==> board.State() == old(board.State())
    decreases Depth(depth), 1
  {
    var legal := board.MoveLegal(col);
    if legal.Err? {
      return Done(Err(legal.error));
    }
    if !legal.value {
      return Next(acc);
    }
    var next := NextPlayer(player);
    var result := ScoreChild(board, next, depth, cache, workerDepth, col);
    if result.Err? {
      return Done(Err(result.error));
    }
    var v := result.value;
    var allWin, allLose := acc.allWin, acc.allLose;
    if v < 1.0 {
      allWin := false;
    }
    if v > -1.0 {
      allLose := false;
    }
    if v == 1.0 && next == PlayerCpu {
      return Done(Ok(1.0));
    }
    if v == -1.0 && next == PlayerHuman {
      return Done(Ok(-1.0));
    }
    return Next(Acc(acc.n + 1, acc.total + v, allWin, allLose));
  }

  /** One turn of the loop of evaluate for a legal column: `q` moves there, the child
      is scored (from the result list at DEPTH_WORKER, by evaluate below it otherwise)
      and the move is undone. */
  method ScoreChild(board: Board, q: int, depth: int, cache: Option<seq<CacheEntry>>, workerDepth: int, col: int)
    returns (r: Result<real>)
    requires board.Valid() && depth > 0 && 0 <= col < board.width && M.MoveLegal(board.State(), col) == Ok(true)
    modifies board, board.data
    ensures board.Valid()
    ensures match M.Move(old(board.State()), col, q)
            case Err(e) => r == Err(e)
            case Ok(t) => r == Child(old(board.State()).moves, t, q, depth, cache, workerDepth)
    ensures r.Ok? ==> board.State() == old(board.State())
    decreases Depth(depth), 0
  {
    ghost var s := board.State();
    var key := board.moves;
    var moved := board.Move(col, q);
    if moved.Fail? {
      return Err(moved.error);
    }
    M.UndoAfterMove(s, col, q);
    if cache.Some? && depth == workerDepth {
      var entry := FindResult(cache.value, key);
      if entry.None? {
        return Err(MissingCacheEntry);
      }
      r := Ok(entry.value.result);
    } else {
      r := Evaluate(board, q, depth - 1, cache, workerDepth);
      if r.Err? {
        return;
      }
    }
    var undone := board.UndoMove();
  }

  /** do_job(depth, player, moves_result_list) on `board`: (best_result, best_col).
      The i-th tie consults coin(i). */
  method DoJob(board: Board, depth: int, player: int, cache: Option<seq<CacheEntry>>, workerDepth: int,
               coin: nat -> bool) returns (r: Result<(real, int)>)
    requires board.Valid()
    modifies board, board.data
    ensures board.Valid()
    ensures match Search(old(board.State()), player, depth, cache, workerDepth, coin)
            case Err(e) => r == Err(e)
            case Ok(c) => r == Ok((c.best, c.column)) && board.State() == old(board.State())
  {
    ghost var s := board.State();
    var currentDepth := depth;
    var best := Choice(-1.0, 0, 0);
    while best.best == -1.0 && currentDepth > 0
      invariant board.Valid() && board.State() == s
      invariant Search(s, player, depth, cache, workerDepth, coin)
                == SearchFrom(s, player, currentDepth, cache, workerDepth, coin, best)
      decreases Depth(currentDepth)
    {
      var pass := Pass(board, player, currentDepth, cache, workerDepth, coin, best.flips);
      if pass.Err? {
        return Err(pass.error);
      }
      best := pass.value;
      currentDepth := currentDepth / 2;
    }
    return Ok((best.best, best.column));
  }

  /** One pass of the while loop of do_job: best_result and best_col start at -1 and 0,
      and `player` tries every legal column at depth - 1.  The result also counts the
      coin flips used. */
  method Pass(board: Board, player: int, depth: int, cache: Option<seq<CacheEntry>>, workerDepth: int,
              coin: nat -> bool, flips0: nat) returns (r: Result<Choice>)
    requires board.Valid()
    modifies board, board.data
    ensures board.Valid()
    ensures r == Round(old(board.State()), player, depth, cache, workerDepth, coin, 0, Choice(-1.0, 0, flips0))
    ensures r.Ok? ==> board.State() == old(board.State())
  {
    ghost var s := board.State();
    var best := Choice(-1.0, 0, flips0);
    var col := 0;
    while col < board.width
      invariant 0 <= col <= board.width
      invariant board.Valid() && board.State() == s
      invariant Round(s, player, depth, cache, workerDepth, coin, 0, Choice(-1.0, 0, flips0))
                == Round(s, player, depth, cache, workerDepth, coin, col, best)
    {
      var next := PassColumn(board, player, depth, cache, workerDepth, coin, col, best);
      if next.Err? {
        return next;
      }
      best := next.value;
      col := col + 1;
    }
    return Ok(best);
  }

  /** One turn of the for loop of do_job: a legal column is scored, and a better score,
      or an equal one when the coin says so, makes it the best column. */
  method PassColumn(board: Board, player: int, depth: int, cache: Option<seq<CacheEntry>>, workerDepth: int,
                    coin: nat -> bool, col: int, c: Choice) returns (r: Result<Choice>)
    requires board.Valid() && 0 <= col < board.width
    modifies board, board.data
    ensures board.Valid()
    ensures Round(old(board.State()), player, depth, cache, workerDepth, coin, col, c)
            == (if r.Ok? then Round(old(board.State()), player, depth, cache, workerDepth, coin, col + 1, r.value) else r)
    ensures r.Ok? ==> board.State() == old(board.State())
  {
    var legal := board.MoveLegal(col);
    if legal.Err? {
      return Err(legal.error);
    }
    if !legal.value {
      return Ok(c);
    }
    var result := ScoreMove(board, player, depth, cache, workerDepth, col);
    if result.Err? {
      return Err(result.error);
    }
    var v := result.value;
    var bestResult, bestCol, flips := c.best, c.column, c.flips;
    if v > bestResult {
      bestResult := v;
      bestCol := col;
    } else if v == bestResult {
      var heads := coin(flips);
      flips := flips + 1;
      if heads {
        bestResult := v;
        bestCol := col;
      }
    }
    return Ok(Choice(bestResult, bestCol, flips));
  }

  /** One turn of the loop of do_job for a legal column: `player` moves there, the
      position is evaluated at depth - 1 and the move is undone. */
  method ScoreMove(board: Board, player: int, depth: int, cache: Option<seq<CacheEntry>>, workerDepth: int, col: int)
    returns (r: Result<real>)
    requires board.Valid() && 0 <= col < board.width && M.MoveLegal(board.State(), col) == Ok(true)
    modifies board, board.data
    ensures board.Valid()
    ensures match M.Move(old(board.State()), col, player)
            case Err(e) => r == Err(e)
            case Ok(t) => r == Evaluation(t, player, depth - 1, cache, workerDepth)
    ensures r.Ok? ==> board.State() == old(board.State())
  {
    ghost var s := board.State();
    var moved := board.Move(col, player);
    if moved.Fail? {
      return Err(moved.error);
    }
    M.UndoAfterMove(s, col, player);
    r := Evaluate(board, player, depth - 1, cache, workerDepth);
    if r.Ok? {
      var undone := board.UndoMove();
    }
  }
}
