/** Class Board of Lab2/board.py: a HEIGHT x WIDTH grid, updated in place, with the
    list of placements.  Each method is proved to compute the function of
    BoardModel that describes it, on the value `State()` of the object. */
module Boards {
  import opened Errors
  import M = BoardModel

  class Board {
    const width: nat
    const height: nat
    const sequenceLength: int
    const data: array2<int>
    var moves: seq<M.Placement>
    /** The contents of `data`, as a value. */
    ghost var grid: seq<seq<int>>

    /** The board as a value. */
    ghost function State(): M.BoardState
      reads this
    {
      M.BoardState(width, height, sequenceLength, grid, moves)
    }

    ghost predicate Valid()
      reads this, data
    {
      && data.Length0 == height && data.Length1 == width
      && M.WellShaped(State())
      && (forall r, c :: 0 <= r < height && 0 <= c < width ==> data[r, c] == grid[r][c])
      && M.Consistent(State())
    }

    /** __init__ and init_data once the arguments are known to be acceptable: an
        all-zero grid and no placements. */
    constructor (width: nat, height: nat, sequenceLength: int)
      ensures Valid() && fresh(data)
      ensures State() == M.BoardState(width, height, sequenceLength, M.Zeros(height, width), [])
    {
      this.width := width;
      this.height := height;
      this.sequenceLength := sequenceLength;
      data := new int[height, width]((_, _) => M.Empty);
      moves := [];
      grid := M.Zeros(height, width);
      new;
      M.OccupiedZeros(height, width);
    }

    /** Board(width, height, sequence_length): numpy refuses negative dimensions while
        the grid is allocated, then the win length is compared with the dimensions. */
    static method Create(width: int, height: int, sequenceLength: int) returns (r: Result<Board>)
      ensures r.Err? ==> M.Create(width, height, sequenceLength) == Err(r.error)
      ensures r.Ok? ==> && M.Create(width, height, sequenceLength) == Ok(r.value.State())
                        && fresh(r.value) && fresh(r.value.data) && r.value.Valid()
    {
      if width < 0 || height < 0 {
        return Err(NegativeDimensions);
      }
      var b := new Board(width, height, sequenceLength);
      if width < sequenceLength || height < sequenceLength {
        return Err(SequenceTooLong);
      }
      return Ok(b);
    }

    /** copy.deepcopy(board): a new board with the same contents and no shared state. */
    constructor Copy(other: Board)
      requires other.Valid()
      ensures Valid() && fresh(data) && State() == other.State()
    {
      width := other.width;
      height := other.height;
      sequenceLength := other.sequenceLength;
      data := new int[other.height, other.width](
        (r, c) requires 0 <= r < other.height && 0 <= c < other.width reads other, other.data => other.data[r, c]);
      moves := other.moves;
      grid := other.grid;
    }

    /** The grid and the placements as a value (what a task carries to a worker). */
    method Snapshot() returns (s: M.BoardState)
      requires Valid()
      ensures s == State()
    {
      var rows: seq<seq<int>> := [];
      var r := 0;
      while r < height
        invariant 0 <= r <= height
        invariant rows == grid[..r]
      {
        var row: seq<int> := [];
        var c := 0;
        while c < width
          invariant 0 <= c <= width
          invariant row == grid[r][..c]
        {
          row := row + [data[r, c]];
          c := c + 1;
        }
        assert row == grid[r];
        rows := rows + [row];
        r := r + 1;
      }
      assert rows == grid;
      s := M.BoardState(width, height, sequenceLength, rows, moves);
    }

    /** get_next_open_row(col): scan the column from the bottom row upwards. */
    method GetNextOpenRow(col: int) returns (r: Result<int>)
      requires Valid()
      ensures r == M.OpenRow(State(), col)
    {
      var row := height - 1;
      while row >= 0
        invariant -1 <= row < height
        invariant row < height - 1 ==> M.ColumnIndex(width, col).Some?
        invariant M.ColumnIndex(width, col).Some? ==>
                    M.ScanUp(State(), M.ColumnIndex(width, col).value, height - 1)
                    == M.ScanUp(State(), M.ColumnIndex(width, col).value, row)
        decreases row
      {
        var c := M.ColumnIndex(width, col);
        if c.None? {
          return Err(IndexOutOfRange);
        }
        if data[row, c.value] == M.Empty {
          return Ok(row);
        }
        row := row - 1;
      }
      return Ok(-1);
    }

    /** move_legal(col) */
    method MoveLegal(col: int) returns (r: Result<bool>)
      requires Valid()
      ensures r == M.MoveLegal(State(), col)
    {
      var row := GetNextOpenRow(col);
      if row.Err? {
        return Err(row.error);
      }
      return Ok(row.value != -1);
    }

    /** move(col, player): on failure nothing changes. */
    method Move(col: int, player: int) returns (r: Outcome)
      requires Valid()
      modifies this, data
      ensures Valid()
      ensures match M.Move(old(State()), col, player)
              case Ok(t) => r == Pass && State() == t
              case Err(e) => r == Fail(e) && State() == old(State())
    {
      var legal := MoveLegal(col);
      if legal.Err? {
        return Fail(legal.error);
      }
      if !legal.value {
        return Fail(ColumnFull);
      }
      if player !in M.Players {
        return Fail(UnsupportedPlayer);
      }
      ghost var s := State();
      var row := GetNextOpenRow(col);
      var c := M.ColumnIndex(width, col).value;
      data[row.value, c] := player;
      grid := M.SetCell(grid, row.value, c, player);
      moves := moves + [M.Placement(player, row.value, col)];
      M.MoveKeepsConsistent(s, col, player);
      return Pass;
    }

    /** undo_move(): pop the last placement and clear its cell; popping an empty list
        is an error and changes nothing. */
    method UndoMove() returns (r: Outcome)
      requires Valid()
      modifies this, data
      ensures Valid()
      ensures match M.Undo(old(State()))
              case Ok(t) => r == Pass && State() == t
              case Err(e) => r == Fail(e) && State() == old(State())
    {
      if moves == [] {
        return Fail(EmptyHistory);
      }
      ghost var s := State();
      var m := moves[|moves| - 1];
      assert M.Recorded(s, m);
      moves := moves[..|moves| - 1];
      var c := M.Norm(width, m.col);
      data[m.row, c] := M.Empty;
      grid := M.SetCell(grid, m.row, c, M.Empty);
      M.UndoKeepsConsistent(s);
      return Pass;
    }

    predicate InBounds(row: int, col: int) {
      0 <= row < height && 0 <= col < width
    }

    /** game_end(): walk outwards from the last placement in the eight directions, then
        check the opposite pairs. */
    method GameEnd() returns (r: Result<bool>)
      requires Valid()
      ensures r == M.GameEnd(State())
    {
      if |moves| < sequenceLength {
        return Ok(false);
      }
      if moves == [] {
        return Err(IndexOutOfRange);
      }
      var last := moves[|moves| - 1];
      var counts := WalkDirections(last.player, last.row, last.col);
      var i := 0;
      while i < 2 * sequenceLength - 1
        invariant 0 <= i && i % 2 == 0
        invariant M.PairCheck(counts, i, sequenceLength) == M.PairCheck(counts, 0, sequenceLength)
        decreases 2 * sequenceLength - 1 - i
      {
        if i + 1 >= |counts| {
          return Err(IndexOutOfRange);
        }
        if counts[i] + counts[i + 1] >= sequenceLength - 1 {
          return Ok(true);
        }
        i := i + 2;
      }
      return Ok(false);
    }

    /** The outer loops of game_end: SEQUENCE_LENGTH rounds, each of which takes one more
        step in every direction whose flag is still set, counting a step that lands on
        the player's piece and clearing the flag at the first one that does not. */
    method WalkDirections(player: int, r0: int, c0: int) returns (cs: seq<nat>)
      requires Valid()
      ensures cs == M.Counts(State(), player, r0, c0)
    {
      ghost var s := State();
      var counts := new nat[|M.Directions|](_ => 0);
      var going := new bool[|M.Directions|](_ => true);
      var x := 0;
      while x < sequenceLength
        invariant 0 <= x <= M.Rounds(sequenceLength)
        invariant forall i :: 0 <= i < |M.Directions| ==>
                    (counts[i], going[i]) == M.Walk(s, player, r0, c0, M.Directions[i], x)
      {
        StepDirections(counts, going, player, r0, c0, x);
        x := x + 1;
      }
      cs := counts[..];
      assert forall i :: 0 <= i < |M.Directions| ==> cs[i] == M.Counts(s, player, r0, c0)[i];
    }

    /** One round x of the outer loop of game_end: every direction looks at step x + 1. */
    method StepDirections(counts: array<nat>, going: array<bool>, player: int, r0: int, c0: int, x: nat)
      requires Valid()
      requires counts.Length == |M.Directions| && going.Length == |M.Directions|
      requires forall i :: 0 <= i < |M.Directions| ==>
                 (counts[i], going[i]) == M.Walk(State(), player, r0, c0, M.Directions[i], x)
      modifies counts, going
      ensures forall i :: 0 <= i < |M.Directions| ==>
                (counts[i], going[i]) == M.Walk(State(), player, r0, c0, M.Directions[i], x + 1)
    {
      ghost var s := State();
      var i := 0;
      while i < |M.Directions|
        invariant 0 <= i <= |M.Directions|
        invariant forall j :: 0 <= j < i ==>
                    (counts[j], going[j]) == M.Walk(s, player, r0, c0, M.Directions[j], x + 1)
        invariant forall j :: i <= j < |M.Directions| ==>
                    (counts[j], going[j]) == M.Walk(s, player, r0, c0, M.Directions[j], x)
      {
        var d := M.Directions[i];
        var row := r0 + d.0 * (x + 1);
        var col := c0 + d.1 * (x + 1);
        ghost var w := M.Walk(s, player, r0, c0, d, x + 1);
        assert w == if going[i] && M.Probe(s, player, r0, c0, d, x + 1) then (counts[i] + 1, true) else (counts[i], false);
        if going[i] && InBounds(row, col) && data[row, col] == player {
          counts[i] := counts[i] + 1;
        } else {
          going[i] := false;
        }
        assert (counts[i], going[i]) == w;
        i := i + 1;
      }
    }
  }
}
