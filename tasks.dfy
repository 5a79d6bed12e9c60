/** The coordinator's work list of Lab2/game.py as values: the tasks create_tasks
    produces, and the searches get_task, update_task and get_result_for_moves make
    over the task list and the list of results. */
module Tasks {
  import opened Errors
  import M = BoardModel
  import opened Rules

  /** {'board', 'player', 'moves', 'result', 'active'}: a position for a worker to search. */
  datatype Task = Task(board: M.BoardState, player: int, moves: seq<M.Placement>,
                       result: Option<real>, active: bool)

  /** {'moves', 'result'}: an entry of moves_result_list. */
  datatype CacheEntry = CacheEntry(moves: seq<M.Placement>, result: real)

  /** What a run of create_tasks produces: the tasks appended so far and, when a move
      raised, the error that stopped it. */
  datatype Expansion = Expansion(tasks: seq<Task>, error: Option<Error>)

  // ---------------------------------------------------------------------------
  // The leaf of create_tasks

  /** The loop at depth 0 of create_tasks: play the columns of `path` in order, skipping
      the full ones; the player alternates only when a move is made. */
  function ApplyPath(s: M.BoardState, path: seq<int>, q: int): (r: Result<M.BoardState>)
    requires M.WellShaped(s)
    ensures r.Ok? ==> M.WellShaped(r.value) && M.SameShape(s, r.value)
    decreases |path|
  {
    if path == [] then Ok(s)
    else
      match M.MoveLegal(s, path[0])
      case Err(e) => Err(e)
      case Ok(legal) =>
        if !legal then ApplyPath(s, path[1..], q)
        else
          match M.Move(s, path[0], q)
          case Err(e) => Err(e)
          case Ok(t) => ApplyPath(t, path[1..], NextPlayer(q))
  }

  /** The new placements of `b` over `a` are made in turn, the first by `q`, and there
      are at most `n` of them. */
  predicate Extends(a: seq<M.Placement>, b: seq<M.Placement>, q: int, n: nat) {
    && |a| <= |b| <= |a| + n
    && b[..|a|] == a
    && (|b| > |a| ==> b[|a|].player == q)
    && forall j :: |a| <= j < |b| - 1 ==> b[j + 1].player == NextPlayer(b[j].player)
  }

  /** Every column of a path is one create_tasks can produce. */
  predicate Columns(path: seq<int>) {
    forall i :: 0 <= i < |path| ==> 0 <= path[i] < BoardWidth
  }

  /** The columns a path names are on the board, or the board has no rows (and then no
      column is ever looked at). */
  predicate Fits(s: M.BoardState) {
    s.height == 0 || s.width >= BoardWidth
  }

  /** Playing a path appends its moves, alternately, to the placements of the board and
      keeps the board invariant. */
  lemma {:induction false} ApplyPathExtends(s: M.BoardState, path: seq<int>, q: int)
    requires M.WellShaped(s) && ApplyPath(s, path, q).Ok?
    ensures Extends(s.moves, ApplyPath(s, path, q).value.moves, q, |path|)
    ensures M.Consistent(s) ==> M.Consistent(ApplyPath(s, path, q).value)
    decreases |path|
  {
    if path != [] {
      var legal := M.MoveLegal(s, path[0]).value;
      if !legal {
        ApplyPathExtends(s, path[1..], q);
      } else {
        var t := M.Move(s, path[0], q).value;
        M.MoveMeaning(s, path[0], q);
        ApplyPathExtends(t, path[1..], NextPlayer(q));
        if M.Consistent(s) {
          M.MoveKeepsConsistent(s, path[0], q);
        }
        var u := ApplyPath(t, path[1..], NextPlayer(q)).value;
        assert u.moves[..|t.moves|] == t.moves;
        assert u.moves[..|s.moves|] == t.moves[..|s.moves|] == s.moves;
        assert u.moves[|s.moves|] == t.moves[|s.moves|];
        assert t.moves[|s.moves|].player == q;
      }
    }
  }

  /** Playing a path fails only for a player the board does not accept or for a column
      off the board: with the two players of the game and a board of the game's width it
      succeeds. */
  lemma {:induction false} ApplyPathSucceeds(s: M.BoardState, path: seq<int>, q: int)
    requires M.WellShaped(s) && Fits(s) && Columns(path) && q in M.Players
    ensures ApplyPath(s, path, q).Ok?
    decreases |path|
  {
    if path != [] {
      M.MoveLegalMeaning(s, path[0]);
      M.MoveMeaning(s, path[0], q);
      assert Columns(path[1..]) by {
        forall i | 0 <= i < |path[1..]| ensures 0 <= path[1..][i] < BoardWidth {
          assert path[1..][i] == path[i + 1];
        }
      }
      if M.MoveLegal(s, path[0]).value {
        ApplyPathSucceeds(M.Move(s, path[0], q).value, path[1..], NextPlayer(q));
      } else {
        ApplyPathSucceeds(s, path[1..], q);
      }
    }
  }

  /** The columns, as they were passed to move, of a run of placements. */
  function ColumnsOf(ms: seq<M.Placement>): (cs: seq<int>)
    ensures |cs| == |ms| && forall i :: 0 <= i < |ms| ==> cs[i] == ms[i].col
  {
    seq(|ms|, i requires 0 <= i < |ms| => ms[i].col)
  }

  /** `a` is `b` with some of its elements left out, the rest in their order. */
  predicate IsSubsequence(a: seq<int>, b: seq<int>)
    decreases |b|
  {
    if a == [] then true
    else if b == [] then false
    else (a[0] == b[0] && IsSubsequence(a[1..], b[1..])) || IsSubsequence(a, b[1..])
  }

  /** The new placements of `u` over `s` when the first of them is `t`'s last one. */
  lemma NewColumnsCons(s: seq<M.Placement>, t: seq<M.Placement>, u: seq<M.Placement>, m: M.Placement)
    requires t == s + [m] && |t| <= |u| && u[..|t|] == t
    ensures ColumnsOf(u[|s|..]) == [m.col] + ColumnsOf(u[|t|..])
  {
    assert u[|s|] == t[|s|] == m;
    assert u[|s|..] == [m] + u[|t|..];
  }

  /** Each step of a path is decided on the board of its own turn: a full column is
      skipped, and the rest of the path is played on the same board by the same player;
      a column with room is played by the player whose turn it is, in its lowest empty
      cell, and the rest of the path follows with the other player. */
  lemma ApplyPathStep(s: M.BoardState, path: seq<int>, q: int)
    requires M.WellShaped(s) && path != [] && ApplyPath(s, path, q).Ok?
    ensures M.MoveLegal(s, path[0]).Ok?
    ensures M.MoveLegal(s, path[0]) == Ok(false) ==> ApplyPath(s, path, q) == ApplyPath(s, path[1..], q)
    ensures M.MoveLegal(s, path[0]) == Ok(true) ==>
              && q in M.Players && M.Move(s, path[0], q).Ok?
              && ApplyPath(s, path, q) == ApplyPath(M.Move(s, path[0], q).value, path[1..], NextPlayer(q))
              && var u := ApplyPath(s, path, q).value;
                 var c := M.ColumnIndex(s.width, path[0]).value;
                 && |s.moves| < |u.moves|
                 && u.moves[|s.moves|].player == q && u.moves[|s.moves|].col == path[0]
                 && var row := u.moves[|s.moves|].row;
                    && 0 <= row < s.height && s.grid[row][c] == M.Empty
                    && forall k :: row < k < s.height ==> s.grid[k][c] != M.Empty
  {
    M.MoveMeaning(s, path[0], q);
    if M.MoveLegal(s, path[0]) == Ok(true) {
      var t := M.Move(s, path[0], q).value;
      ApplyPathExtends(t, path[1..], NextPlayer(q));
      var u := ApplyPath(s, path, q).value;
      assert u.moves[..|t.moves|] == t.moves;
      assert u.moves[|s.moves|] == t.moves[|s.moves|];
    }
  }

  /** The moves a path makes are columns of the path, in path order: each step is
      either played in its column or skipped. */
  lemma {:induction false} ApplyPathColumns(s: M.BoardState, path: seq<int>, q: int)
    requires M.WellShaped(s) && ApplyPath(s, path, q).Ok?
    ensures var u := ApplyPath(s, path, q).value;
            |s.moves| <= |u.moves| && IsSubsequence(ColumnsOf(u.moves[|s.moves|..]), path)
    decreases |path|
  {
    ApplyPathExtends(s, path, q);
    var u := ApplyPath(s, path, q).value;
    if path == [] {
      assert u.moves[|s.moves|..] == [];
    } else if !M.MoveLegal(s, path[0]).value {
      ApplyPathColumns(s, path[1..], q);
      assert path[1..] == path[1..];
    } else {
      var t := M.Move(s, path[0], q).value;
      M.MoveMeaning(s, path[0], q);
      ApplyPathColumns(t, path[1..], NextPlayer(q));
      ApplyPathExtends(t, path[1..], NextPlayer(q));
      NewColumnsCons(s.moves, t.moves, u.moves, t.moves[|s.moves|]);
    }
  }

  /** The top `n` rows of the board are empty. */
  predicate Room(s: M.BoardState, n: nat)
    requires M.WellShaped(s)
  {
    n <= s.height && forall r, c :: 0 <= r < n && 0 <= c < s.width ==> s.grid[r][c] == M.Empty
  }

  /** With room for every step, no step of a path is skipped: the new placements are
      made exactly in the path's columns, in order. */
  lemma {:induction false} ApplyPathPlaysAll(s: M.BoardState, path: seq<int>, q: int)
    requires M.WellShaped(s) && Fits(s) && Columns(path) && q in M.Players && Room(s, |path|)
    ensures ApplyPath(s, path, q).Ok?
    ensures var u := ApplyPath(s, path, q).value;
            |s.moves| <= |u.moves| && ColumnsOf(u.moves[|s.moves|..]) == path
    decreases |path|
  {
    ApplyPathSucceeds(s, path, q);
    ApplyPathExtends(s, path, q);
    var u := ApplyPath(s, path, q).value;
    if path == [] {
      assert u.moves[|s.moves|..] == [];
    } else {
      var c := path[0];
      assert s.grid[0][c] == M.Empty;
      M.MoveLegalMeaning(s, c);
      M.MoveMeaning(s, c, q);
      var t := M.Move(s, c, q).value;
      var row := t.moves[|s.moves|].row;
      assert M.ColumnIndex(s.width, c).value == c;
      assert s.grid[|path| - 1][c] == M.Empty;
      assert row >= |path| - 1;
      assert Room(t, |path| - 1);
      assert Columns(path[1..]) by {
        forall i | 0 <= i < |path[1..]| ensures 0 <= path[1..][i] < BoardWidth {
          assert path[1..][i] == path[i + 1];
        }
      }
      ApplyPathPlaysAll(t, path[1..], NextPlayer(q));
      ApplyPathExtends(t, path[1..], NextPlayer(q));
      NewColumnsCons(s.moves, t.moves, u.moves, t.moves[|s.moves|]);
    }
  }

  /** The task of one leaf: the board after the path, the searching player and that
      board's placements, not yet handed out. */
  function MakeTask(s: M.BoardState, path: seq<int>, p: int): (r: Result<Task>)
    requires M.WellShaped(s)
    ensures r.Ok? ==> r.value.result.None? && !r.value.active && r.value.player == p
                      && r.value.moves == r.value.board.moves
  {
    match ApplyPath(s, path, p)
    case Err(e) => Err(e)
    case Ok(t) => Ok(Task(t, p, t.moves, None, false))
  }

  // ---------------------------------------------------------------------------
  // create_tasks

  /** create_tasks(board, depth, player, path): one task per path of `depth` more
      columns, in lexicographic order of the paths. */
  function Expand(s: M.BoardState, depth: nat, p: int, path: seq<int>): Expansion
    requires M.WellShaped(s)
    decreases depth, BoardWidth + 1
  {
    if depth == 0 then
      match MakeTask(s, path, p)
      case Err(e) => Expansion([], Some(e))
      case Ok(t) => Expansion([t], None)
    else ExpandFrom(s, depth, p, path, 0)
  }

  /** The loop of create_tasks over the columns `col`, ..., BOARD_WIDTH - 1. */
  function ExpandFrom(s: M.BoardState, depth: nat, p: int, path: seq<int>, col: nat): Expansion
    requires M.WellShaped(s) && depth > 0 && col <= BoardWidth
    decreases depth, BoardWidth - col
  {
    if col == BoardWidth then Expansion([], None)
    else
      var e := Expand(s, depth - 1, p, path + [col]);
      if e.error.Some? then e
      else
        var rest := ExpandFrom(s, depth, p, path, col + 1);
        Expansion(e.tasks + rest.tasks, rest.error)
  }

  function Pow(b: nat, e: nat): nat {
    if e == 0 then 1 else b * Pow(b, e - 1)
  }

  /** Without an error create_tasks produces BOARD_WIDTH ^ depth tasks. */
  lemma {:induction false} ExpandSize(s: M.BoardState, depth: nat, p: int, path: seq<int>)
    requires M.WellShaped(s) && Expand(s, depth, p, path).error.None?
    ensures |Expand(s, depth, p, path).tasks| == Pow(BoardWidth, depth)
    decreases depth, BoardWidth + 1
  {
    if depth > 0 {
      ExpandFromSize(s, depth, p, path, 0);
    }
  }

  lemma {:induction false} ExpandFromSize(s: M.BoardState, depth: nat, p: int, path: seq<int>, col: nat)
    requires M.WellShaped(s) && depth > 0 && col <= BoardWidth
    requires ExpandFrom(s, depth, p, path, col).error.None?
    ensures |ExpandFrom(s, depth, p, path, col).tasks| == (BoardWidth - col) * Pow(BoardWidth, depth - 1)
    decreases depth, BoardWidth - col
  {
    if col < BoardWidth {
      var e := Expand(s, depth - 1, p, path + [col]);
      var rest := ExpandFrom(s, depth, p, path, col + 1);
      assert e.error.None? && rest.error.None?;
      assert ExpandFrom(s, depth, p, path, col).tasks == e.tasks + rest.tasks;
      ExpandSize(s, depth - 1, p, path + [col]);
      ExpandFromSize(s, depth, p, path, col + 1);
      OneMore(BoardWidth - (col + 1), Pow(BoardWidth, depth - 1));
    }
  }

  lemma OneMore(a: nat, k: nat)
    ensures (a + 1) * k == k + a * k
  {
  }

  /** The position of the path `q` among the paths of its length in lexicographic
      order: `q` read as a number in base BOARD_WIDTH. */
  function Index(q: seq<int>): int {
    if q == [] then 0 else q[0] * Pow(BoardWidth, |q| - 1) + Index(q[1..])
  }

  lemma AtMostTimes(a: int, b: int, k: nat)
    requires a <= b
    ensures a * k <= b * k
  {
  }

  lemma {:induction false} IndexBound(q: seq<int>)
    requires Columns(q)
    ensures 0 <= Index(q) < Pow(BoardWidth, |q|)
    decreases |q|
  {
    if q != [] {
      assert Columns(q[1..]) by {
        forall i | 0 <= i < |q[1..]| ensures 0 <= q[1..][i] < BoardWidth {
          assert q[1..][i] == q[i + 1];
        }
      }
      IndexBound(q[1..]);
      var k := Pow(BoardWidth, |q| - 1);
      AtMostTimes(q[0], BoardWidth - 1, k);
      AtMostTimes(0, q[0], k);
    }
  }

  /** Which path each task comes from: the task at the base-BOARD_WIDTH position of a
      path of `depth` columns is the one made for that path, in the order the nested
      loops of create_tasks append them. */
  lemma ExpandOrder(s: M.BoardState, depth: nat, p: int, path: seq<int>)
    requires M.WellShaped(s) && Expand(s, depth, p, path).error.None?
    ensures var ts := Expand(s, depth, p, path).tasks;
            forall q :: |q| == depth && Columns(q) ==>
              0 <= Index(q) < |ts| && MakeTask(s, path + q, p) == Ok(ts[Index(q)])
  {
    forall q | |q| == depth && Columns(q)
      ensures var ts := Expand(s, depth, p, path).tasks;
              0 <= Index(q) < |ts| && MakeTask(s, path + q, p) == Ok(ts[Index(q)])
    {
      ExpandAt(s, depth, p, path, q);
    }
  }

  /** The task of one path of `depth` columns. */
  lemma {:induction false} ExpandAt(s: M.BoardState, depth: nat, p: int, path: seq<int>, q: seq<int>)
    requires M.WellShaped(s) && Expand(s, depth, p, path).error.None?
    requires |q| == depth && Columns(q)
    ensures var ts := Expand(s, depth, p, path).tasks;
            0 <= Index(q) < |ts| && MakeTask(s, path + q, p) == Ok(ts[Index(q)])
    decreases depth, BoardWidth + 1
  {
    if depth == 0 {
      assert q == [] && path + q == path;
    } else {
      var r := q[1..];
      assert Columns(r) by {
        forall i | 0 <= i < |r| ensures 0 <= r[i] < BoardWidth {
          assert r[i] == q[i + 1];
        }
      }
      ExpandFromAt(s, depth, p, path, 0, q[0], r);
      BlockIsProduct(q[0], Pow(BoardWidth, depth - 1));
      assert Index(q) == Block(q[0] - 0, Pow(BoardWidth, depth - 1)) + Index(r);
      assert path + q == (path + [q[0]]) + r;
    }
  }

  /** The start of the `j`-th block of `n` tasks: j * n. */
  function Block(j: nat, n: nat): nat {
    if j == 0 then 0 else n + Block(j - 1, n)
  }

  lemma {:induction false} BlockIsProduct(j: nat, n: nat)
    ensures Block(j, n) == j * n
  {
    if j > 0 {
      BlockIsProduct(j - 1, n);
      OneMore(j - 1, n);
    }
  }

  /** The task of the path that continues with column `c` and then `q`, in the loop of
      create_tasks from column `col`. */
  lemma {:induction false} ExpandFromAt(s: M.BoardState, depth: nat, p: int, path: seq<int>, col: nat,
                                        c: nat, q: seq<int>)
    requires M.WellShaped(s) && depth > 0 && col <= BoardWidth
    requires ExpandFrom(s, depth, p, path, col).error.None?
    requires col <= c < BoardWidth && |q| == depth - 1 && Columns(q)
    ensures var ts := ExpandFrom(s, depth, p, path, col).tasks;
            var k := Block(c - col, Pow(BoardWidth, depth - 1)) + Index(q);
            0 <= k < |ts| && MakeTask(s, (path + [c]) + q, p) == Ok(ts[k])
    decreases depth, BoardWidth - col
  {
    var ts := ExpandFrom(s, depth, p, path, col).tasks;
    var e := Expand(s, depth - 1, p, path + [col]).tasks;
    var rest := ExpandFrom(s, depth, p, path, col + 1).tasks;
    var n := Pow(BoardWidth, depth - 1);
    ExpandFromSplit(s, depth, p, path, col);
    IndexBound(q);
    if c == col {
      ExpandAt(s, depth - 1, p, path + [col], q);
      PickFirst(ts, e, rest, n, c - col, Index(q), MakeTask(s, (path + [c]) + q, p));
    } else {
      ExpandFromAt(s, depth, p, path, col + 1, c, q);
      PickLater(ts, e, rest, n, c - col, Index(q), MakeTask(s, (path + [c]) + q, p));
    }
  }

  /** One turn of the loop of create_tasks: the tasks of its column, then the rest. */
  lemma ExpandFromSplit(s: M.BoardState, depth: nat, p: int, path: seq<int>, col: nat)
    requires M.WellShaped(s) && depth > 0 && col < BoardWidth
    requires ExpandFrom(s, depth, p, path, col).error.None?
    ensures Expand(s, depth - 1, p, path + [col]).error.None?
    ensures ExpandFrom(s, depth, p, path, col + 1).error.None?
    ensures ExpandFrom(s, depth, p, path, col).tasks
            == Expand(s, depth - 1, p, path + [col]).tasks + ExpandFrom(s, depth, p, path, col + 1).tasks
    ensures |Expand(s, depth - 1, p, path + [col]).tasks| == Pow(BoardWidth, depth - 1)
  {
    ExpandSize(s, depth - 1, p, path + [col]);
  }

  /** The first block of `n` tasks of the loop belongs to its first column. */
  lemma PickFirst(ts: seq<Task>, a: seq<Task>, b: seq<Task>, n: nat, j: nat, i: int, t: Result<Task>)
    requires ts == a + b && |a| == n && j == 0 && 0 <= i < n && t == Ok(a[i])
    ensures 0 <= Block(j, n) + i < |ts| && t == Ok(ts[Block(j, n) + i])
  {
  }

  /** Past the first block, the tasks are those of the rest of the loop. */
  lemma PickLater(ts: seq<Task>, a: seq<Task>, b: seq<Task>, n: nat, j: nat, i: int, t: Result<Task>)
    requires ts == a + b && |a| == n && j > 0
    requires 0 <= Block(j - 1, n) + i < |b| && t == Ok(b[Block(j - 1, n) + i])
    ensures 0 <= Block(j, n) + i < |ts| && t == Ok(ts[Block(j, n) + i])
  {
    assert Block(j, n) + i == n + (Block(j - 1, n) + i);
  }

  /** With the two players and a board of the game's width, create_tasks raises nothing. */
  lemma {:induction false} ExpandSucceeds(s: M.BoardState, depth: nat, p: int, path: seq<int>)
    requires M.WellShaped(s) && Fits(s) && Columns(path) && p in M.Players
    ensures Expand(s, depth, p, path).error.None?
    decreases depth, BoardWidth + 1
  {
    if depth == 0 {
      ApplyPathSucceeds(s, path, p);
    } else {
      ExpandFromSucceeds(s, depth, p, path, 0);
    }
  }

  lemma {:induction false} ExpandFromSucceeds(s: M.BoardState, depth: nat, p: int, path: seq<int>, col: nat)
    requires M.WellShaped(s) && Fits(s) && Columns(path) && p in M.Players
    requires depth > 0 && col <= BoardWidth
    ensures ExpandFrom(s, depth, p, path, col).error.None?
    decreases depth, BoardWidth - col
  {
    if col < BoardWidth {
      assert Columns(path + [col]) by {
        forall i | 0 <= i < |path + [col]| ensures 0 <= (path + [col])[i] < BoardWidth {
          if i < |path| {
            assert (path + [col])[i] == path[i];
          }
        }
      }
      ExpandSucceeds(s, depth - 1, p, path + [col]);
      ExpandFromSucceeds(s, depth, p, path, col + 1);
    }
  }

  /** A task as create_tasks leaves it for a board `s` and player `p`: not handed out,
      without result, for `p`, carrying the placements of its own board, which extend
      those of `s` by at most `n` alternate moves starting with `p`'s. */
  predicate Fresh(s: M.BoardState, p: int, n: nat, t: Task) {
    && t.result.None? && !t.active && t.player == p
    && t.moves == t.board.moves
    && M.WellShaped(t.board) && M.SameShape(s, t.board)
    && Extends(s.moves, t.moves, p, n)
    && (M.WellShaped(s) && M.Consistent(s) ==> M.Consistent(t.board))
  }

  /** Every task create_tasks appends is fresh, with at most |path| + depth new moves. */
  lemma {:induction false} ExpandFresh(s: M.BoardState, depth: nat, p: int, path: seq<int>)
    requires M.WellShaped(s)
    ensures forall i :: 0 <= i < |Expand(s, depth, p, path).tasks| ==>
              Fresh(s, p, |path| + depth, Expand(s, depth, p, path).tasks[i])
    decreases depth, BoardWidth + 1
  {
    if depth == 0 {
      if ApplyPath(s, path, p).Ok? {
        ApplyPathExtends(s, path, p);
      }
    } else {
      ExpandFromFresh(s, depth, p, path, 0);
    }
  }

  lemma {:induction false} ExpandFromFresh(s: M.BoardState, depth: nat, p: int, path: seq<int>, col: nat)
    requires M.WellShaped(s) && depth > 0 && col <= BoardWidth
    ensures forall i :: 0 <= i < |ExpandFrom(s, depth, p, path, col).tasks| ==>
              Fresh(s, p, |path| + depth, ExpandFrom(s, depth, p, path, col).tasks[i])
    decreases depth, BoardWidth - col
  {
    if col < BoardWidth {
      ExpandFresh(s, depth - 1, p, path + [col]);
      ExpandFromFresh(s, depth, p, path, col + 1);
      var e := Expand(s, depth - 1, p, path + [col]);
      forall i | 0 <= i < |e.tasks| ensures Fresh(s, p, |path| + depth, e.tasks[i]) {
        assert Fresh(s, p, |path + [col]| + (depth - 1), e.tasks[i]);
      }
    }
  }

  // ---------------------------------------------------------------------------
  // get_task

  /** The first task from index `from` on that is not active. */
  function FirstInactive(tasks: seq<Task>, from: nat): (r: Option<nat>)
    requires from <= |tasks|
    ensures r.Some? ==> && from <= r.value < |tasks| && !tasks[r.value].active
                        && forall j :: from <= j < r.value ==> tasks[j].active
    ensures r.None? <==> forall j :: from <= j < |tasks| ==> tasks[j].active
    decreases |tasks| - from
  {
    if from == |tasks| then None
    else if !tasks[from].active then Some(from)
    else FirstInactive(tasks, from + 1)
  }

  /** get_task: mark the first inactive task active and hand it out. */
  function Claim(tasks: seq<Task>): (seq<Task>, Option<Task>) {
    match FirstInactive(tasks, 0)
    case None => (tasks, None)
    case Some(i) => (tasks[i := tasks[i].(active := true)], Some(tasks[i].(active := true)))
  }

  /** Number of active tasks. */
  function ActiveCount(tasks: seq<Task>): (n: nat)
    ensures n <= |tasks|
  {
    if tasks == [] then 0
    else ActiveCount(tasks[..|tasks| - 1]) + (if tasks[|tasks| - 1].active then 1 else 0)
  }

  lemma {:induction false} ActiveCountUpdate(tasks: seq<Task>, i: nat, t: Task)
    requires i < |tasks|
    ensures ActiveCount(tasks[i := t]) + (if tasks[i].active then 1 else 0)
            == ActiveCount(tasks) + (if t.active then 1 else 0)
    decreases |tasks|
  {
    var n := |tasks| - 1;
    assert tasks[i := t][..n] == if i < n then tasks[..n][i := t] else tasks[..n];
    if i < n {
      ActiveCountUpdate(tasks[..n], i, t);
    }
  }

  /** get_task hands out the first inactive task, marked active, and changes nothing
      else; with every task active it hands out nothing.  Each task handed out adds one
      to the number of active tasks. */
  lemma ClaimMeaning(tasks: seq<Task>)
    ensures var (after, t) := Claim(tasks);
            && |after| == |tasks|
            && (t.None? <==> forall j :: 0 <= j < |tasks| ==> tasks[j].active)
            && (t.None? ==> after == tasks)
            && (t.Some? ==> exists i :: && 0 <= i < |tasks| && !tasks[i].active
                                         && (forall j :: 0 <= j < i ==> tasks[j].active)
                                         && t.value == tasks[i].(active := true)
                                         && after == tasks[i := t.value])
            && ActiveCount(after) == ActiveCount(tasks) + (if t.Some? then 1 else 0)
  {
    match FirstInactive(tasks, 0)
    case None =>
    case Some(i) =>
      ActiveCountUpdate(tasks, i, tasks[i].(active := true));
  }

  // ---------------------------------------------------------------------------
  // update_task, get_result_for_moves

  /** The first task from index `from` on whose placements are `moves`. */
  function FirstMatch(tasks: seq<Task>, moves: seq<M.Placement>, from: nat): (r: Option<nat>)
    requires from <= |tasks|
    ensures r.Some? ==> && from <= r.value < |tasks| && tasks[r.value].moves == moves
                        && forall j :: from <= j < r.value ==> tasks[j].moves != moves
    ensures r.None? <==> forall j :: from <= j < |tasks| ==> tasks[j].moves != moves
    decreases |tasks| - from
  {
    if from == |tasks| then None
    else if tasks[from].moves == moves then Some(from)
    else FirstMatch(tasks, moves, from + 1)
  }

  /** update_task: the first task with the returned placements takes the returned
      result, and the pair is appended to the result list; a reply that matches no task
      changes nothing.  Appending to a list that does not exist raises. */
  function Record(tasks: seq<Task>, cache: Option<seq<CacheEntry>>, moves: seq<M.Placement>, result: real)
    : Result<(seq<Task>, Option<seq<CacheEntry>>)>
  {
    match FirstMatch(tasks, moves, 0)
    case None => Ok((tasks, cache))
    case Some(i) =>
      if cache.None? then Err(MissingResultList)
      else Ok((tasks[i := tasks[i].(result := Some(result))], Some(cache.value + [CacheEntry(moves, result)])))
  }

  /** get_result_for_moves: the first entry recorded for `moves`. */
  function Lookup(cache: seq<CacheEntry>, moves: seq<M.Placement>): (r: Option<CacheEntry>)
    ensures r.Some? ==> r.value in cache && r.value.moves == moves
    ensures r.Some? ==> exists i :: 0 <= i < |cache| && cache[i] == r.value &&
                                    forall j :: 0 <= j < i ==> cache[j].moves != moves
    ensures r.None? <==> forall j :: 0 <= j < |cache| ==> cache[j].moves != moves
  {
    if cache == [] then None
    else if cache[0].moves == moves then Some(cache[0])
    else Lookup(cache[1..], moves)
  }

  lemma {:induction false} LookupAppend(cache: seq<CacheEntry>, e: CacheEntry, moves: seq<M.Placement>)
    ensures Lookup(cache + [e], moves) ==
              if Lookup(cache, moves).Some? then Lookup(cache, moves)
              else if e.moves == moves then Some(e) else None
    decreases |cache|
  {
    if cache != [] {
      assert (cache + [e])[1..] == cache[1..] + [e];
      LookupAppend(cache[1..], e, moves);
    }
  }

  /** update_task and get_result_for_moves together: after a result for placements
      that some task carries, looking them up finds that result unless an earlier entry
      already answered for them; every other lookup is unchanged, and no task other than
      the first match changes or becomes active. */
  lemma RecordThenLookup(tasks: seq<Task>, cache: seq<CacheEntry>, moves: seq<M.Placement>, result: real,
                         other: seq<M.Placement>)
    requires FirstMatch(tasks, moves, 0).Some?
    ensures var r := Record(tasks, Some(cache), moves, result);
            && r.Ok? && r.value.1.Some?
            && Lookup(r.value.1.value, moves) ==
                 (if Lookup(cache, moves).Some? then Lookup(cache, moves) else Some(CacheEntry(moves, result)))
            && (other != moves ==> Lookup(r.value.1.value, other) == Lookup(cache, other))
            && |r.value.0| == |tasks|
            && ActiveCount(r.value.0) == ActiveCount(tasks)
  ensures var r := Record(tasks, Some(cache), moves, result);
          var i := FirstMatch(tasks, moves, 0).value;
          && tasks[i].moves == moves && (forall j :: 0 <= j < i ==> tasks[j].moves != moves)
          && r.value.0 == tasks[i := tasks[i].(result := Some(result))]
          && r.value.1 == Some(cache + [CacheEntry(moves, result)])
  {
    LookupAppend(cache, CacheEntry(moves, result), moves);
    LookupAppend(cache, CacheEntry(moves, result), other);
    var i := FirstMatch(tasks, moves, 0).value;
    ActiveCountUpdate(tasks, i, tasks[i].(result := Some(result)));
  }

  /** update_task for placements no task carries changes neither the tasks nor the
      result list, and appends nothing, whether or not the list exists. */
  lemma RecordNoMatch(tasks: seq<Task>, cache: Option<seq<CacheEntry>>, moves: seq<M.Placement>, result: real)
    requires forall j :: 0 <= j < |tasks| ==> tasks[j].moves != moves
    ensures Record(tasks, cache, moves, result) == Ok((tasks, cache))
  {
  }

  /** Without a result list, update_task for placements some task carries raises at the
      append; the function keeps nothing of the task it set before. */
  lemma RecordWithoutList(tasks: seq<Task>, moves: seq<M.Placement>, result: real, i: nat)
    requires i < |tasks| && tasks[i].moves == moves
    ensures Record(tasks, None, moves, result) == Err(MissingResultList)
  {
  }
}
