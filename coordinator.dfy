/** The coordinator (rank 0) of Lab2/game.py: its task list, its list of results,
    its count of active workers, and the functions that change them in place.  Every
    method is proved to compute the function of Tasks or Protocol that describes it. */
module Coordinators {
  import opened Errors
  import M = BoardModel
  import opened Rules
  import opened Tasks
  import opened Protocol
  import opened Boards
  import SM = SearchModel

  class Coordinator {
    /** The module-level `tasks` list; it is never cleared between turns. */
    var tasks: seq<Task>
    /** moves_result_list, absent when there are no workers. */
    var cache: Option<seq<CacheEntry>>
    var activeWorkers: int

    ghost function State(): Dispatch
      reads this
    {
      Dispatch(tasks, cache, activeWorkers)
    }

    constructor ()
      ensures State() == Dispatch([], None, 0)
    {
      tasks := [];
      cache := None;
      activeWorkers := 0;
    }

    /** create_tasks(board, depth, player, path, tasks): append one task per path of
        `depth` more columns; a move that raises stops it, with the tasks so far kept. */
    method CreateTasks(board: Board, depth: nat, player: int, path: seq<int>) returns (r: Outcome)
      requires board.Valid()
      modifies this
      ensures var e := Expand(board.State(), depth, player, path);
              && tasks == old(tasks) + e.tasks
              && r == (if e.error.None? then Pass else Fail(e.error.value))
      ensures cache == old(cache) && activeWorkers == old(activeWorkers)
      decreases depth
    {
      ghost var s := board.State();
      if depth == 0 {
        var current := new Board.Copy(board);
        var currentPlayer := player;
        var i := 0;
        while i < |path|
          invariant 0 <= i <= |path|
          invariant current.Valid() && fresh(current) && fresh(current.data)
          invariant ApplyPath(s, path, player) == ApplyPath(current.State(), path[i..], currentPlayer)
          invariant tasks == old(tasks) && cache == old(cache) && activeWorkers == old(activeWorkers)
        {
          assert path[i..][0] == path[i] && path[i..][1..] == path[i + 1..];
          var legal := current.MoveLegal(path[i]);
          if legal.Err? {
            return Fail(legal.error);
          }
          if legal.value {
            var moved := current.Move(path[i], currentPlayer);
            if moved.Fail? {
              return Fail(moved.error);
            }
            currentPlayer := NextPlayer(currentPlayer);
          }
          i := i + 1;
        }
        var snapshot := current.Snapshot();
        tasks := tasks + [Task(snapshot, player, snapshot.moves, None, false)];
        return Pass;
      }
      var col := 0;
      while col < BoardWidth
        invariant 0 <= col <= BoardWidth
        invariant old(tasks) + ExpandFrom(s, depth, player, path, 0).tasks
                  == tasks + ExpandFrom(s, depth, player, path, col).tasks
        invariant ExpandFrom(s, depth, player, path, 0).error == ExpandFrom(s, depth, player, path, col).error
        invariant cache == old(cache) && activeWorkers == old(activeWorkers)
      {
        ghost var before := tasks;
        r := CreateTasks(board, depth - 1, player, path + [col]);
        if r.Fail? {
          return;
        }
        assert tasks + ExpandFrom(s, depth, player, path, col + 1).tasks
               == before + ExpandFrom(s, depth, player, path, col).tasks;
        col := col + 1;
      }
      return Pass;
    }

    /** get_task(tasks): mark the first inactive task active and return it. */
    method GetTask() returns (t: Option<Task>)
      modifies this
      ensures (tasks, t) == Claim(old(tasks))
      ensures cache == old(cache) && activeWorkers == old(activeWorkers)
    {
      var i := 0;
      while i < |tasks|
        invariant 0 <= i <= |tasks| && tasks == old(tasks)
        invariant FirstInactive(tasks, 0) == FirstInactive(tasks, i)
      {
        if !tasks[i].active {
          var task := tasks[i].(active := true);
          tasks := tasks[i := task];
          return Some(task);
        }
        i := i + 1;
      }
      return None;
    }

    /** update_task(tasks, task, moves_result_list): the first task with the returned
        placements takes the returned result, and the pair is appended to the result
        list.  Without a result list the append raises after the task was updated. */
    method UpdateTask(moves: seq<M.Placement>, result: real) returns (r: Outcome)
      modifies this
      ensures match Record(old(tasks), old(cache), moves, result)
              case Ok((ts, c)) => r == Pass && tasks == ts && cache == c
              case Err(e) =>
                && r == Fail(e) && cache == old(cache)
                && tasks == old(tasks)[FirstMatch(old(tasks), moves, 0).value :=
                                         old(tasks)[FirstMatch(old(tasks), moves, 0).value].(result := Some(result))]
      ensures activeWorkers == old(activeWorkers)
    {
      var index := 0;
      while index < |tasks|
        invariant 0 <= index <= |tasks| && tasks == old(tasks) && cache == old(cache)
        invariant FirstMatch(tasks, moves, 0) == FirstMatch(tasks, moves, index)
      {
        if tasks[index].moves == moves {
          tasks := tasks[index := tasks[index].(result := Some(result))];
          if cache.None? {
            return Fail(MissingResultList);
          }
          cache := Some(cache.value + [CacheEntry(moves, result)]);
          return Pass;
        }
        index := index + 1;
      }
      return Pass;
    }

    /** One turn of the coordinator's receive loop for the message `e`. */
    method Handle(e: Event) returns (r: Result<Option<Reply>>)
      modifies this
      ensures match Step(old(State()), e)
              case Ok((d, reply)) => r == Ok(reply) && State() == d
              case Err(err) => r == Err(err)
    {
      match e
      case Request(src) =>
        var task := GetTask();
        if task.Some? {
          return Ok(Some(SendTask(src, task.value)));
        }
        activeWorkers := activeWorkers - 1;
        return Ok(Some(SendWait(src)));
      case Returned(_, moves, result) =>
        var u := UpdateTask(moves, result);
        if u.Fail? {
          return Err(u.error);
        }
        return Ok(None);
      case Other(_, tag) =>
        return Err(UnexpectedTag(tag));
    }

    /** while active_workers > 0: answer the messages in the order they arrive; the
        result is what was sent and how many messages were read. */
    method Serve(events: seq<Event>) returns (r: Result<(seq<Reply>, nat)>)
      modifies this
      ensures match Run(old(State()), events)
              case Ok(sv) => r == Ok((sv.replies, sv.consumed)) && State() == sv.state
              case Err(err) => r == Err(err)
    {
      var replies: seq<Reply> := [];
      var i := 0;
      assert events[0..] == events;
      ThenNothing(Run(State(), events));
      while activeWorkers > 0 && i < |events|
        invariant 0 <= i <= |events|
        invariant Run(old(State()), events) == Then(replies, i, Run(State(), events[i..]))
      {
        assert events[i..][0] == events[i] && events[i..][1..] == events[i + 1..];
        var reply := Handle(events[i]);
        if reply.Err? {
          return Err(reply.error);
        }
        ThenThen(replies, i, Replies(reply.value), 1, Run(State(), events[i + 1..]));
        replies := replies + Replies(reply.value);
        i := i + 1;
      }
      assert replies + [] == replies;
      return Ok((replies, i));
    }

    /** The start of the computer's turn: create_tasks(board, DEPTH_MASTER, PLAYER_CPU,
        tasks=tasks), then a result list when there are workers, and every worker
        (all ranks but the coordinator's) counted as active. */
    method BeginTurn(board: Board, size: int) returns (r: Outcome)
      requires board.Valid() && size >= 1
      modifies this
      ensures var e := Expand(board.State(), DepthMaster, PlayerCpu, []);
              && tasks == old(tasks) + e.tasks
              && r == (if e.error.None? then Pass else Fail(e.error.value))
              && (r.Pass? ==> cache == (if size > 1 then Some([]) else None) && activeWorkers == size - 1)
              && (r.Fail? ==> cache == old(cache) && activeWorkers == old(activeWorkers))
    {
      r := CreateTasks(board, DepthMaster, PlayerCpu, []);
      if r.Fail? {
        return;
      }
      cache := if size > 1 then Some([]) else None;
      activeWorkers := size - 1;
    }
  }

  /** On a board of the game's width, the computer's turn creates BOARD_WIDTH ^
      DEPTH_MASTER = 49 fresh tasks for the computer, one per pair of columns, without
      raising. */
  lemma TurnTasks(s: M.BoardState)
    requires M.WellShaped(s) && Fits(s)
    ensures var e := Expand(s, DepthMaster, PlayerCpu, []);
            && e.error.None? && |e.tasks| == 49
            && forall i :: 0 <= i < |e.tasks| ==> Fresh(s, PlayerCpu, DepthMaster, e.tasks[i])
  {
    ExpandSucceeds(s, DepthMaster, PlayerCpu, []);
    ExpandSize(s, DepthMaster, PlayerCpu, []);
    ExpandFresh(s, DepthMaster, PlayerCpu, []);
  }

  /** The game's board, Board(BOARD_WIDTH, BOARD_HEIGHT, SEQUENCE_LENGTH), is built
      without raising: 6 empty rows of 7 cells that keep the board invariant, a win
      length the search handles without raising, and a width every turn's tasks fit. */
  lemma GameBoard()
    ensures var r := M.Create(BoardWidth, BoardHeight, SequenceLength);
            && r.Ok? && r.value.width == 7 && r.value.height == 6 && r.value.moves == []
            && M.Consistent(r.value) && SM.Checkable(r.value) && Fits(r.value)
            && Expand(r.value, DepthMaster, PlayerCpu, []).error.None?
  {
    var s := M.Create(BoardWidth, BoardHeight, SequenceLength).value;
    M.CreatedConsistent(BoardWidth, BoardHeight, SequenceLength);
    TurnTasks(s);
  }
}
