/** The value semantics of class Board (Lab2/board.py).  A board is a grid of cells
    together with its list of placements; every operation of the class is a function
    from one such value to the next value or to an error.  The class in board.dfy
    is proved to compute exactly these functions. */
module BoardModel {
  import opened Errors

  const Empty: int := 0

  /** board.py's Player enum numbers the players PLAYER_CPU = 1 and PLAYER_HUMAN = 2.
      The board only uses the set of these values; game.py numbers them the other way. */
  const EnumCpu: int := 1
  const EnumHuman: int := 2
  const Players: set<int> := {EnumCpu, EnumHuman}

  /** One entry of `moves`: {'player': p, 'position': (row, col)}, with `col` as it
      was passed to `move`. */
  datatype Placement = Placement(player: int, row: int, col: int)

  /** WIDTH, HEIGHT, SEQUENCE_LENGTH, the `data` grid (row 0 on top) and `moves`. */
  datatype BoardState = BoardState(width: nat, height: nat, seqLen: int,
                                   grid: seq<seq<int>>, moves: seq<Placement>)

  predicate WellShaped(s: BoardState) {
    |s.grid| == s.height && forall r :: 0 <= r < |s.grid| ==> |s.grid[r]| == s.width
  }

  /** Only the grid and the move list differ between `s` and `t`. */
  predicate SameShape(s: BoardState, t: BoardState) {
    t.width == s.width && t.height == s.height && t.seqLen == s.seqLen
  }

  /** numpy indexing of a row by `col`: a negative index counts from the end. */
  function ColumnIndex(width: nat, col: int): Option<nat> {
    if 0 <= col < width then Some(col)
    else if 0 <= col + width && col < 0 then Some(col + width)
    else None
  }

  function Zeros(height: nat, width: nat): (g: seq<seq<int>>)
    ensures |g| == height
    ensures forall r :: 0 <= r < height ==> |g[r]| == width
    ensures forall r, c :: 0 <= r < height && 0 <= c < width ==> g[r][c] == Empty
  {
    seq(height, _ => seq(width, _ => Empty))
  }

  /** `Board(width, height, sequence_length)`: numpy refuses a negative dimension before
      the constructor compares the win length with the dimensions. */
  function Create(width: int, height: int, seqLen: int): (r: Result<BoardState>)
    ensures r.Err? <==> width < 0 || height < 0 || width < seqLen || height < seqLen
    ensures r.Err? ==> r.error == if width < 0 || height < 0 then NegativeDimensions else SequenceTooLong
    ensures r.Ok? ==> WellShaped(r.value) && r.value.moves == [] && r.value.seqLen == seqLen
                      && r.value.width == width && r.value.height == height
                      && forall i, j :: 0 <= i < height && 0 <= j < width ==> r.value.grid[i][j] == Empty
  {
    if width < 0 || height < 0 then Err(NegativeDimensions)
    else if width < seqLen || height < seqLen then Err(SequenceTooLong)
    else Ok(BoardState(width, height, seqLen, Zeros(height, width), []))
  }

  function SetCell(g: seq<seq<int>>, r: nat, c: nat, v: int): seq<seq<int>>
    requires r < |g| && c < |g[r]|
  {
    g[r := g[r][c := v]]
  }

  // ---------------------------------------------------------------------------
  // get_next_open_row, move_legal

  /** The scan of get_next_open_row from `row` upwards: the largest index at most
      `row` whose cell in column `c` is empty, or -1 when there is none. */
  function ScanUp(s: BoardState, c: nat, row: int): (r: int)
    requires WellShaped(s) && c < s.width && -1 <= row < s.height
    decreases row + 1
    ensures -1 <= r <= row
    ensures r == -1 <==> forall k :: 0 <= k <= row ==> s.grid[k][c] != Empty
    ensures r != -1 ==> s.grid[r][c] == Empty && forall k :: r < k <= row ==> s.grid[k][c] != Empty
  {
    if row < 0 then -1
    else if s.grid[row][c] == Empty then row
    else ScanUp(s, c, row - 1)
  }

  /** get_next_open_row(col): on a board with no rows the loop never indexes the grid. */
  function OpenRow(s: BoardState, col: int): Result<int>
    requires WellShaped(s)
  {
    if s.height == 0 then Ok(-1)
    else match ColumnIndex(s.width, col)
      case None => Err(IndexOutOfRange)
      case Some(c) => Ok(ScanUp(s, c, s.height - 1))
  }

  function MoveLegal(s: BoardState, col: int): Result<bool>
    requires WellShaped(s)
  {
    match OpenRow(s, col)
    case Err(e) => Err(e)
    case Ok(row) => Ok(row != -1)
  }

  /** move_legal answers without error exactly for a column numpy can index (or a board
      with no rows), and says yes exactly when that column holds an empty cell. */
  lemma MoveLegalMeaning(s: BoardState, col: int)
    requires WellShaped(s)
    ensures MoveLegal(s, col).Ok? <==> s.height == 0 || (0 <= col + s.width && col < s.width)
    ensures MoveLegal(s, col) == Ok(true) <==>
              0 <= col + s.width && col < s.width &&
              exists k :: 0 <= k < s.height && s.grid[k][ColumnIndex(s.width, col).value] == Empty
  {
    if s.height > 0 && 0 <= col + s.width && col < s.width {
      var c := ColumnIndex(s.width, col).value;
      var r := ScanUp(s, c, s.height - 1);
      if r != -1 {
        assert s.grid[r][c] == Empty;
      }
    }
  }

  // ---------------------------------------------------------------------------
  // move, undo_move

  /** move(col, player): the legality check (which may itself fail) comes before the
      player check; a legal move writes the player into the lowest empty cell. */
  function Move(s: BoardState, col: int, p: int): (r: Result<BoardState>)
    requires WellShaped(s)
    ensures r.Ok? ==> WellShaped(r.value) && SameShape(s, r.value)
  {
    match MoveLegal(s, col)
    case Err(e) => Err(e)
    case Ok(legal) =>
      if !legal then Err(ColumnFull)
      else if p !in Players then Err(UnsupportedPlayer)
      else
        var c := ColumnIndex(s.width, col).value;
        var row := ScanUp(s, c, s.height - 1);
        Ok(s.(grid := SetCell(s.grid, row, c, p), moves := s.moves + [Placement(p, row, col)]))
  }

  /** What move does: the errors in the order the source raises them, and on success
      exactly one cell changes (the lowest empty one of the column, which receives the
      player) and exactly one placement is appended. */
  lemma MoveMeaning(s: BoardState, col: int, p: int)
    requires WellShaped(s)
    ensures MoveLegal(s, col).Err? ==> Move(s, col, p) == Err(MoveLegal(s, col).error)
    ensures MoveLegal(s, col) == Ok(false) ==> Move(s, col, p) == Err(ColumnFull)
    ensures MoveLegal(s, col) == Ok(true) && p !in Players ==> Move(s, col, p) == Err(UnsupportedPlayer)
    ensures Move(s, col, p).Ok? <==> MoveLegal(s, col) == Ok(true) && p in Players
    ensures Move(s, col, p).Ok? ==>
              var t := Move(s, col, p).value;
              var c := ColumnIndex(s.width, col).value;
              var row := t.moves[|s.moves|].row;
              && 0 <= row < s.height
              && s.grid[row][c] == Empty && t.grid[row][c] == p
              && (forall k :: row < k < s.height ==> s.grid[k][c] != Empty)
              && (forall i, j :: 0 <= i < s.height && 0 <= j < s.width && (i, j) != (row, c) ==>
                    t.grid[i][j] == s.grid[i][j])
              && t.moves == s.moves + [Placement(p, row, col)]
  {
  }

  /** The column `m.col` refers to, as numpy resolves it. */
  function Norm(width: nat, col: int): int {
    if col < 0 then col + width else col
  }

  /** The cell of a placement, with its column resolved. */
  function Square(width: nat, m: Placement): (int, int) {
    (m.row, Norm(width, m.col))
  }

  /** A recorded placement is inside the grid and its cell still holds its player. */
  predicate Recorded(s: BoardState, m: Placement)
    requires WellShaped(s)
  {
    && m.player in Players
    && 0 <= m.row < s.height && 0 <= m.col + s.width && m.col < s.width
    && s.grid[m.row][Norm(s.width, m.col)] == m.player
  }

  /** Number of non-empty cells of a row. */
  function RowCount(row: seq<int>): (n: nat)
    ensures n <= |row|
  {
    if row == [] then 0 else RowCount(row[..|row| - 1]) + (if row[|row| - 1] != Empty then 1 else 0)
  }

  /** Number of non-empty cells of a grid. */
  function Occupied(g: seq<seq<int>>): nat {
    if g == [] then 0 else Occupied(g[..|g| - 1]) + RowCount(g[|g| - 1])
  }

  /** The board invariant that move and undo_move keep: every placement is recorded
      at its own cell, no two placements share a cell, and there are exactly as many
      placements as non-empty cells. */
  predicate Consistent(s: BoardState)
    requires WellShaped(s)
  {
    && (forall i :: 0 <= i < |s.moves| ==> Recorded(s, s.moves[i]))
    && (forall i, j :: 0 <= i < j < |s.moves| ==> Square(s.width, s.moves[i]) != Square(s.width, s.moves[j]))
    && |s.moves| == Occupied(s.grid)
  }

  /** undo_move: pop the last placement (an error with no placements) and clear its cell. */
  function Undo(s: BoardState): (r: Result<BoardState>)
    requires WellShaped(s) && Consistent(s)
    ensures r.Ok? ==> WellShaped(r.value) && SameShape(s, r.value)
  {
    if s.moves == [] then Err(EmptyHistory)
    else
      var m := s.moves[|s.moves| - 1];
      Ok(s.(grid := SetCell(s.grid, m.row, Norm(s.width, m.col), Empty), moves := s.moves[..|s.moves| - 1]))
  }

  lemma {:induction false} RowCountUpdate(row: seq<int>, c: nat, v: int)
    requires c < |row|
    ensures RowCount(row[c := v]) + (if row[c] != Empty then 1 else 0)
            == RowCount(row) + (if v != Empty then 1 else 0)
  {
    var n := |row|;
    var u := row[c := v];
    if c == n - 1 {
      assert u[..n - 1] == row[..n - 1];
    } else {
      assert u[..n - 1] == row[..n - 1][c := v];
      RowCountUpdate(row[..n - 1], c, v);
    }
  }

  lemma {:induction false} OccupiedUpdate(g: seq<seq<int>>, r: nat, c: nat, v: int)
    requires r < |g| && c < |g[r]|
    ensures Occupied(SetCell(g, r, c, v)) + (if g[r][c] != Empty then 1 else 0)
            == Occupied(g) + (if v != Empty then 1 else 0)
  {
    var n := |g|;
    var h := SetCell(g, r, c, v);
    if r == n - 1 {
      assert h[..n - 1] == g[..n - 1];
      RowCountUpdate(g[r], c, v);
    } else {
      assert h[..n - 1] == SetCell(g[..n - 1], r, c, v);
      OccupiedUpdate(g[..n - 1], r, c, v);
    }
  }

  lemma {:induction false} OccupiedZeros(height: nat, width: nat)
    ensures Occupied(Zeros(height, width)) == 0
  {
    if height > 0 {
      assert Zeros(height, width)[..height - 1] == Zeros(height - 1, width);
      OccupiedZeros(height - 1, width);
      RowCountZero(seq(width, _ => Empty));
    }
  }

  lemma {:induction false} RowCountZero(row: seq<int>)
    requires forall i :: 0 <= i < |row| ==> row[i] == Empty
    ensures RowCount(row) == 0
  {
    if row != [] {
      RowCountZero(row[..|row| - 1]);
    }
  }

  /** A freshly created board satisfies the invariant. */
  lemma CreatedConsistent(width: int, height: int, seqLen: int)
    requires Create(width, height, seqLen).Ok?
    ensures Consistent(Create(width, height, seqLen).value)
  {
    OccupiedZeros(height, width);
  }

  /** move keeps the invariant. */
  lemma MoveKeepsConsistent(s: BoardState, col: int, p: int)
    requires WellShaped(s) && Consistent(s) && Move(s, col, p).Ok?
    ensures Consistent(Move(s, col, p).value)
  {
    MoveMeaning(s, col, p);
    var t := Move(s, col, p).value;
    var c := ColumnIndex(s.width, col).value;
    var row := ScanUp(s, c, s.height - 1);
    var m := Placement(p, row, col);
    assert t.moves == s.moves + [m];
    OccupiedUpdate(s.grid, row, c, p);
    forall i | 0 <= i < |s.moves|
      ensures Recorded(t, t.moves[i]) && Square(s.width, t.moves[i]) != Square(s.width, m)
    {
      assert Recorded(s, s.moves[i]);
    }
  }

  /** undo_move keeps the invariant. */
  lemma UndoKeepsConsistent(s: BoardState)
    requires WellShaped(s) && Consistent(s) && Undo(s).Ok?
    ensures Consistent(Undo(s).value)
  {
    var t := Undo(s).value;
    var n := |s.moves|;
    var m := s.moves[n - 1];
    assert Recorded(s, m);
    OccupiedUpdate(s.grid, m.row, Norm(s.width, m.col), Empty);
    forall i | 0 <= i < n - 1
      ensures Recorded(t, t.moves[i])
    {
      assert Recorded(s, s.moves[i]);
      assert Square(s.width, s.moves[i]) != Square(s.width, m);
    }
  }

  /** move followed by undo_move gives back the board exactly. */
  lemma UndoAfterMove(s: BoardState, col: int, p: int)
    requires WellShaped(s) && Consistent(s) && Move(s, col, p).Ok?
    ensures Consistent(Move(s, col, p).value)
    ensures Undo(Move(s, col, p).value) == Ok(s)
  {
    MoveKeepsConsistent(s, col, p);
    var t := Move(s, col, p).value;
    var c := ColumnIndex(s.width, col).value;
    var row := ScanUp(s, c, s.height - 1);
    assert t.moves[..|t.moves| - 1] == s.moves;
    assert Norm(s.width, col) == c;
    assert row != -1 && s.grid[row][c] == Empty;
    assert s.grid[row][c := p][c := Empty] == s.grid[row];
    assert SetCell(t.grid, row, c, Empty) == s.grid;
  }

  /** undo_move on a board with no placements is an error. */
  lemma UndoOnEmpty(s: BoardState)
    requires WellShaped(s) && Consistent(s) && s.moves == []
    ensures Undo(s) == Err(EmptyHistory)
  {
  }

  // ---------------------------------------------------------------------------
  // in_bounds, game_end

  predicate InBounds(s: BoardState, row: int, col: int) {
    0 <= row < s.height && 0 <= col < s.width
  }

  /** The eight walking directions of game_end, listed so that entries 2k and 2k+1
      are opposite. */
  const Directions: seq<(int, int)> :=
    [(-1, 0), (1, 0), (0, -1), (0, 1), (-1, -1), (1, 1), (-1, 1), (1, -1)]

  /** Step `k` from (r0, c0) in direction `d` is inside the board and holds `p`. */
  predicate Probe(s: BoardState, p: int, r0: int, c0: int, d: (int, int), k: int)
    requires WellShaped(s)
  {
    var row := r0 + d.0 * k;
    var col := c0 + d.1 * k;
    InBounds(s, row, col) && s.grid[row][col] == p
  }

  /** One direction's counter and flag after `x` rounds of game_end's outer loop:
      round x looks at step x + 1 and counts it only while the flag is still set. */
  function Walk(s: BoardState, p: int, r0: int, c0: int, d: (int, int), x: nat): (w: (nat, bool))
    requires WellShaped(s)
    ensures w.0 <= x && (w.1 ==> w.0 == x)
  {
    if x == 0 then (0, true)
    else
      var prev := Walk(s, p, r0, c0, d, x - 1);
      if prev.1 && Probe(s, p, r0, c0, d, x) then (prev.0 + 1, true) else (prev.0, false)
  }

  /** The counter is the length of the run of matching steps, cut off at `x`: every
      step up to the count matches, the one after it (if still within `x`) does not,
      and the flag is still set exactly when no miss has been seen. */
  lemma {:induction false} WalkIsRun(s: BoardState, p: int, r0: int, c0: int, d: (int, int), x: nat)
    requires WellShaped(s)
    ensures var w := Walk(s, p, r0, c0, d, x);
            && (forall k :: 1 <= k <= w.0 ==> Probe(s, p, r0, c0, d, k))
            && (w.0 < x ==> !Probe(s, p, r0, c0, d, w.0 + 1))
            && (w.1 <==> w.0 == x)
  {
    if x > 0 {
      WalkIsRun(s, p, r0, c0, d, x - 1);
    }
  }

  /** A direction whose flag has turned off never counts again. */
  lemma {:induction false} WalkStopsForGood(s: BoardState, p: int, r0: int, c0: int, d: (int, int), x: nat, y: nat)
    requires WellShaped(s) && x <= y && !Walk(s, p, r0, c0, d, x).1
    ensures Walk(s, p, r0, c0, d, y) == Walk(s, p, r0, c0, d, x)
  {
    if x < y {
      WalkStopsForGood(s, p, r0, c0, d, x, y - 1);
    }
  }

  /** A run of `a` matching steps is counted up to the round limit. */
  lemma {:induction false} WalkCountsRun(s: BoardState, p: int, r0: int, c0: int, d: (int, int), x: nat, a: nat)
    requires WellShaped(s)
    requires forall k :: 1 <= k <= a ==> Probe(s, p, r0, c0, d, k)
    ensures Walk(s, p, r0, c0, d, x).0 >= if a < x then a else x
  {
    if x > 0 {
      WalkCountsRun(s, p, r0, c0, d, x - 1, a);
      WalkIsRun(s, p, r0, c0, d, x - 1);
    }
  }

  /** range(SEQUENCE_LENGTH) */
  function Rounds(seqLen: int): nat {
    if seqLen > 0 then seqLen else 0
  }

  /** The eight counters after the outer loop, walking from (r0, c0) for player p. */
  function Counts(s: BoardState, p: int, r0: int, c0: int): (cs: seq<nat>)
    requires WellShaped(s)
    ensures |cs| == |Directions|
    ensures forall i :: 0 <= i < |cs| ==> cs[i] <= Rounds(s.seqLen)
  {
    seq(|Directions|, i requires 0 <= i < |Directions| => Walk(s, p, r0, c0, Directions[i], Rounds(s.seqLen)).0)
  }

  /** The loop `for i in range(0, 2 * SEQUENCE_LENGTH - 1, 2)` over opposite pairs;
      directions[i + 1] does not exist once i reaches 8. */
  function PairCheck(cs: seq<nat>, i: nat, seqLen: int): Result<bool>
    requires |cs| == |Directions|
    decreases 2 * seqLen - 1 - i
  {
    if i >= 2 * seqLen - 1 then Ok(false)
    else if i + 1 >= |cs| then Err(IndexOutOfRange)
    else if cs[i] + cs[i + 1] >= seqLen - 1 then Ok(true)
    else PairCheck(cs, i + 2, seqLen)
  }

  /** The counters for the last placement. */
  function LastCounts(s: BoardState): seq<nat>
    requires WellShaped(s) && s.moves != []
  {
    var m := s.moves[|s.moves| - 1];
    Counts(s, m.player, m.row, m.col)
  }

  /** game_end(): only the last placement is looked at. */
  function GameEnd(s: BoardState): Result<bool>
    requires WellShaped(s)
  {
    if |s.moves| < s.seqLen then Ok(false)
    else if s.moves == [] then Err(IndexOutOfRange)
    else PairCheck(LastCounts(s), 0, s.seqLen)
  }

  /** Pair k (directions 2k and 2k + 1) reaches the win length with the anchor cell. */
  predicate PairWins(cs: seq<nat>, k: int, seqLen: int)
    requires |cs| == |Directions|
  {
    0 <= k < 4 && cs[2 * k] + cs[2 * k + 1] >= seqLen - 1
  }

  lemma {:induction false} PairCheckCases(cs: seq<nat>, j: nat, seqLen: int)
    requires |cs| == |Directions| && j <= 4
    decreases seqLen - j
    ensures PairCheck(cs, 2 * j, seqLen) == Ok(true) <==> exists k :: j <= k < seqLen && PairWins(cs, k, seqLen)
    ensures PairCheck(cs, 2 * j, seqLen).Err? <==>
              seqLen >= 5 && forall k :: j <= k < 4 ==> !PairWins(cs, k, seqLen)
    ensures PairCheck(cs, 2 * j, seqLen).Err? ==> PairCheck(cs, 2 * j, seqLen).error == IndexOutOfRange
  {
    if 2 * j >= 2 * seqLen - 1 {
    } else if 2 * j + 1 >= |cs| {
    } else if cs[2 * j] + cs[2 * j + 1] >= seqLen - 1 {
      assert PairWins(cs, j, seqLen);
    } else {
      PairCheckCases(cs, j + 1, seqLen);
      assert 2 * j + 2 == 2 * (j + 1);
    }
  }

  /** game_end is False with fewer placements than the win length; otherwise it is True
      exactly when one of the first min(SEQUENCE_LENGTH, 4) opposite pairs sums to at
      least SEQUENCE_LENGTH - 1, and it fails (IndexError) when there is no placement at
      all, or when SEQUENCE_LENGTH >= 5 and none of the four pairs wins. */
  lemma GameEndCases(s: BoardState)
    requires WellShaped(s)
    ensures |s.moves| < s.seqLen ==> GameEnd(s) == Ok(false)
    ensures GameEnd(s) == Ok(true) <==>
              |s.moves| >= s.seqLen && s.moves != [] &&
              exists k :: 0 <= k < s.seqLen && PairWins(LastCounts(s), k, s.seqLen)
    ensures GameEnd(s).Err? <==>
              |s.moves| >= s.seqLen &&
              (s.moves == [] || (s.seqLen >= 5 && forall k :: 0 <= k < 4 ==> !PairWins(LastCounts(s), k, s.seqLen)))
    ensures GameEnd(s).Err? ==> GameEnd(s).error == IndexOutOfRange
  {
    if |s.moves| >= s.seqLen && s.moves != [] {
      PairCheckCases(LastCounts(s), 0, s.seqLen);
    }
  }

  /** `a` steps in direction `d` and `b` steps in direction `e` from the anchor
      all hold `p`. */
  predicate Line(s: BoardState, p: int, r0: int, c0: int, d: (int, int), e: (int, int), a: nat, b: nat)
    requires WellShaped(s)
  {
    && (forall j :: 1 <= j <= a ==> Probe(s, p, r0, c0, d, j))
    && (forall j :: 1 <= j <= b ==> Probe(s, p, r0, c0, e, j))
  }

  /** Such a line along axis k, the opposite directions 2k and 2k + 1. */
  predicate AxisLine(s: BoardState, p: int, r0: int, c0: int, k: int, a: nat, b: nat)
    requires WellShaped(s) && 0 <= k < 4
  {
    Line(s, p, r0, c0, Directions[2 * k], Directions[2 * k + 1], a, b)
  }

  /** What a win means on the grid: when game_end is True, the last player's pieces
      run through the last placement along one of the four axes, with at least
      SEQUENCE_LENGTH - 1 of them besides the anchor. */
  lemma WinHasLine(s: BoardState)
    requires WellShaped(s) && GameEnd(s) == Ok(true)
    ensures s.moves != []
    ensures var m := s.moves[|s.moves| - 1];
            exists k, a: nat, b: nat :: 0 <= k < 4 && a + b >= s.seqLen - 1 &&
              AxisLine(s, m.player, m.row, m.col, k, a, b)
  {
    GameEndCases(s);
    var m := s.moves[|s.moves| - 1];
    var cs := LastCounts(s);
    var k :| 0 <= k < s.seqLen && PairWins(cs, k, s.seqLen);
    var x := Rounds(s.seqLen);
    var d, e := Directions[2 * k], Directions[2 * k + 1];
    assert cs[2 * k] == Walk(s, m.player, m.row, m.col, d, x).0;
    assert cs[2 * k + 1] == Walk(s, m.player, m.row, m.col, e, x).0;
    WalkIsRun(s, m.player, m.row, m.col, d, x);
    WalkIsRun(s, m.player, m.row, m.col, e, x);
    assert AxisLine(s, m.player, m.row, m.col, k, cs[2 * k], cs[2 * k + 1]);
  }

  /** And conversely: with at least SEQUENCE_LENGTH placements, such a run along one of
      the first min(SEQUENCE_LENGTH, 4) axes makes game_end True. */
  lemma LineIsWin(s: BoardState, k: int, a: nat, b: nat)
    requires WellShaped(s) && s.moves != [] && |s.moves| >= s.seqLen
    requires 0 <= k < 4 && k < s.seqLen && a + b >= s.seqLen - 1
    requires var m := s.moves[|s.moves| - 1];
             AxisLine(s, m.player, m.row, m.col, k, a, b)
    ensures GameEnd(s) == Ok(true)
  {
    var m := s.moves[|s.moves| - 1];
    var x := Rounds(s.seqLen);
    var d, e := Directions[2 * k], Directions[2 * k + 1];
    WalkCountsRun(s, m.player, m.row, m.col, d, x, a);
    WalkCountsRun(s, m.player, m.row, m.col, e, x, b);
    var cs := LastCounts(s);
    assert cs[2 * k] == Walk(s, m.player, m.row, m.col, d, x).0;
    assert cs[2 * k + 1] == Walk(s, m.player, m.row, m.col, e, x).0;
    assert PairWins(cs, k, s.seqLen);
    GameEndCases(s);
  }
}
