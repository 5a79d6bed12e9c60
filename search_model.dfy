/** The game-tree search of Lab2/game.py as functions on board values: evaluate,
    do_job, and what a worker makes of a task.  Floating-point scores are modelled as
    reals, round(x, 8) as exact rounding half to even, and np.random.random_sample() < 0.5
    as an oracle `coin` asked once per tie, in order. */
module SearchModel {
  import opened Errors
  import M = BoardModel
  import opened Rules
  import opened Tasks

  // ---------------------------------------------------------------------------
  // round(x, 8)

  const Scale: real := 100000000.0

  /** The integer nearest to y, ties going to the even one. */
  function RoundHalfEven(y: real): (n: int)
    ensures y - 0.5 <= n as real <= y + 0.5
  {
    var f := y.Floor;
    var frac := y - f as real;
    if frac < 0.5 then f
    else if frac > 0.5 then f + 1
    else if f % 2 == 0 then f else f + 1
  }

  /** round(x, 8): the nearest multiple of 10^-8, ties to the even multiple. */
  function Round8(x: real): (r: real)
    ensures x - 0.5 / Scale <= r <= x + 0.5 / Scale
  {
    var n := RoundHalfEven(x * Scale);
    assert n as real / Scale - x == (n as real - x * Scale) / Scale;
    n as real / Scale
  }

  /** Rounding to 8 places keeps a score between -1 and 1. */
  lemma Round8Bounded(x: real)
    requires -1.0 <= x <= 1.0
    ensures -1.0 <= Round8(x) <= 1.0
  {
    var y := x * Scale;
    assert -Scale <= y <= Scale;
    var f := y.Floor;
    assert -100000000 <= f <= 100000000;
    var n := RoundHalfEven(y);
    assert f == 100000000 ==> y - f as real == 0.0;
    assert -100000000 <= n <= 100000000;
  }

  // ---------------------------------------------------------------------------
  // evaluate

  /** The values evaluate keeps over the children it has looked at: n_moves, total,
      all_win and all_lose. */
  datatype Acc = Acc(n: nat, total: real, allWin: bool, allLose: bool)

  const Start: Acc := Acc(0, 0.0, true, true)

  /** One more child with score v. */
  function Add(a: Acc, v: real): Acc {
    Acc(a.n + 1, a.total + v, a.allWin && !(v < 1.0), a.allLose && !(v > -1.0))
  }

  /** The score that ends the loop of evaluate at once: a win for the computer when
      the computer moved into it, a loss when the human did. */
  predicate Decisive(v: real, q: int) {
    (v == 1.0 && q == PlayerCpu) || (v == -1.0 && q == PlayerHuman)
  }

  /** The value of evaluate after the loop: 1 when no child scored below 1 (in
      particular when there was no legal move), -1 when none scored above -1, the mean
      rounded to 8 places otherwise. */
  function Finish(a: Acc): real
    requires a.n > 0 || a.allWin
  {
    if a.allWin then 1.0
    else if a.allLose then -1.0
    else Round8(a.total / a.n as real)
  }

  function Depth(depth: int): nat {
    if depth > 0 then depth else 0
  }

  /** evaluate(current, player, depth, moves_result_list): `player` has just moved;
      `workerDepth` is DEPTH_WORKER. */
  function Evaluation(s: M.BoardState, player: int, depth: int, cache: Option<seq<CacheEntry>>, workerDepth: int)
    : Result<real>
    requires M.WellShaped(s)
    decreases Depth(depth), 2, 0
  {
    match M.GameEnd(s)
    case Err(e) => Err(e)
    case Ok(won) =>
      if won then Ok(if player == PlayerCpu then 1.0 else -1.0)
      else if depth <= 0 then Ok(0.0)
      else ChildLoop(s, player, depth, cache, workerDepth, 0, Start)
  }

  /** The score of the child `t` reached from a position with placements `key` by a
      move of `q`: at DEPTH_WORKER the entry the workers recorded for `key`, the
      position before the move, otherwise evaluate one level down. */
  function Child(key: seq<M.Placement>, t: M.BoardState, q: int, depth: int,
                 cache: Option<seq<CacheEntry>>, workerDepth: int): Result<real>
    requires M.WellShaped(t) && depth > 0
    decreases Depth(depth), 0, 0
  {
    if cache.Some? && depth == workerDepth then
      match Lookup(cache.value, key)
      case None => Err(MissingCacheEntry)
      case Some(e) => Ok(e.result)
    else Evaluation(t, q, depth - 1, cache, workerDepth)
  }

  /** What one turn of the loop of evaluate leaves: the loop goes on with the updated
      values, or evaluate returns. */
  datatype Visit = Next(acc: Acc) | Done(result: Result<real>)

  /** One turn of the loop of evaluate at column `col`: an illegal column changes
      nothing; a legal one is scored, and a decisive score is returned at once. */
  function ChildColumn(s: M.BoardState, player: int, depth: int, cache: Option<seq<CacheEntry>>, workerDepth: int,
                       col: nat, acc: Acc): (r: Visit)
    requires M.WellShaped(s) && depth > 0 && col < s.width
    ensures r.Next? ==> r.acc == acc || r.acc.n == acc.n + 1
    decreases Depth(depth), 1, 0
  {
    match M.MoveLegal(s, col)
    case Err(e) => Done(Err(e))
    case Ok(legal) =>
      if !legal then Next(acc)
      else
        var q := NextPlayer(player);
        match M.Move(s, col, q)
        case Err(e) => Done(Err(e))
        case Ok(t) =>
          match Child(s.moves, t, q, depth, cache, workerDepth)
          case Err(e) => Done(Err(e))
          case Ok(v) => if Decisive(v, q) then Done(Ok(v)) else Next(Add(acc, v))
  }

  /** The loop of evaluate over the columns col, ..., WIDTH - 1; the board is the same
      at every turn of the loop, since each move is undone. */
  function ChildLoop(s: M.BoardState, player: int, depth: int, cache: Option<seq<CacheEntry>>, workerDepth: int,
                     col: nat, acc: Acc): Result<real>
    requires M.WellShaped(s) && depth > 0 && col <= s.width && (acc.n > 0 || acc.allWin)
    decreases Depth(depth), 1, s.width - col
  {
    if col == s.width then Ok(Finish(acc))
    else
      match ChildColumn(s, player, depth, cache, workerDepth, col, acc)
      case Done(r) => r
      case Next(a) => ChildLoop(s, player, depth, cache, workerDepth, col + 1, a)
  }

  // ---------------------------------------------------------------------------
  // The value of a node from the scores of its children

  function Sum(xs: seq<real>): real {
    if xs == [] then 0.0 else xs[0] + Sum(xs[1..])
  }

  function DecisiveValue(q: int): real {
    if q == PlayerCpu then 1.0 else -1.0
  }

  /** What evaluate computes from the scores of all legal children, in column order,
      when `q` moves into them: the decisive score if one occurs, otherwise 1 if every
      score is at least 1, -1 if every score is at most -1, and the mean rounded to
      8 places otherwise. */
  function NodeValue(scores: seq<real>, q: int): real {
    if exists i :: 0 <= i < |scores| && Decisive(scores[i], q) then DecisiveValue(q)
    else if forall i :: 0 <= i < |scores| ==> scores[i] >= 1.0 then 1.0
    else if forall i :: 0 <= i < |scores| ==> scores[i] <= -1.0 then -1.0
    else Round8(Sum(scores) / |scores| as real)
  }

  /** The scores of the legal children from column col on, all of them evaluated. */
  function ChildScores(s: M.BoardState, player: int, depth: int, cache: Option<seq<CacheEntry>>, workerDepth: int,
                       col: nat): Result<seq<real>>
    requires M.WellShaped(s) && depth > 0 && col <= s.width
    decreases s.width - col
  {
    if col == s.width then Ok([])
    else
      match M.MoveLegal(s, col)
      case Err(e) => Err(e)
      case Ok(legal) =>
        if !legal then ChildScores(s, player, depth, cache, workerDepth, col + 1)
        else
          var q := NextPlayer(player);
          match M.Move(s, col, q)
          case Err(e) => Err(e)
          case Ok(t) =>
            match Child(s.moves, t, q, depth, cache, workerDepth)
            case Err(e) => Err(e)
            case Ok(v) =>
              match ChildScores(s, player, depth, cache, workerDepth, col + 1)
              case Err(e) => Err(e)
              case Ok(rest) => Ok([v] + rest)
  }

  /** The accumulator after the scores xs. */
  function Fold(a: Acc, xs: seq<real>): Acc
    decreases |xs|
  {
    if xs == [] then a else Fold(Add(a, xs[0]), xs[1..])
  }

  lemma {:induction false} FoldMeaning(a: Acc, xs: seq<real>)
    ensures Fold(a, xs) == Acc(a.n + |xs|, a.total + Sum(xs),
                               a.allWin && forall i :: 0 <= i < |xs| ==> xs[i] >= 1.0,
                               a.allLose && forall i :: 0 <= i < |xs| ==> xs[i] <= -1.0)
    decreases |xs|
  {
    if xs != [] {
      FoldMeaning(Add(a, xs[0]), xs[1..]);
      assert forall i :: 1 <= i < |xs| ==> xs[i] == xs[1..][i - 1];
      assert (forall i :: 0 <= i < |xs| ==> xs[i] >= 1.0) <==>
             xs[0] >= 1.0 && forall i :: 0 <= i < |xs[1..]| ==> xs[1..][i] >= 1.0;
      assert (forall i :: 0 <= i < |xs| ==> xs[i] <= -1.0) <==>
             xs[0] <= -1.0 && forall i :: 0 <= i < |xs[1..]| ==> xs[1..][i] <= -1.0;
    }
  }

  /** The value of the loop of evaluate over scores xs after the accumulator a. */
  function Combine(a: Acc, xs: seq<real>, q: int): real
    requires a.n > 0 || a.allWin
  {
    if exists i :: 0 <= i < |xs| && Decisive(xs[i], q) then DecisiveValue(q)
    else
      FoldMeaning(a, xs);
      Finish(Fold(a, xs))
  }

  lemma {:induction false} ChildLoopCombines(s: M.BoardState, player: int, depth: int, cache: Option<seq<CacheEntry>>,
                                              workerDepth: int, col: nat, a: Acc, xs: seq<real>)
    requires M.WellShaped(s) && depth > 0 && col <= s.width && (a.n > 0 || a.allWin)
    requires ChildScores(s, player, depth, cache, workerDepth, col) == Ok(xs)
    ensures ChildLoop(s, player, depth, cache, workerDepth, col, a) == Ok(Combine(a, xs, NextPlayer(player)))
    decreases s.width - col
  {
    var q := NextPlayer(player);
    if col < s.width {
      if !M.MoveLegal(s, col).value {
        ChildLoopCombines(s, player, depth, cache, workerDepth, col + 1, a, xs);
      } else {
        var t := M.Move(s, col, q).value;
        var v := Child(s.moves, t, q, depth, cache, workerDepth).value;
        var rest := ChildScores(s, player, depth, cache, workerDepth, col + 1).value;
        assert xs == [v] + rest;
        if Decisive(v, q) {
          assert Decisive(xs[0], q);
          assert v == DecisiveValue(q);
        } else {
          ChildLoopCombines(s, player, depth, cache, workerDepth, col + 1, Add(a, v), rest);
          assert xs[1..] == rest;
          assert (exists i :: 0 <= i < |xs| && Decisive(xs[i], q)) <==>
                 (exists i :: 0 <= i < |rest| && Decisive(rest[i], q)) by {
            forall i | 0 <= i < |rest| ensures xs[i + 1] == rest[i] { }
            if exists i :: 0 <= i < |xs| && Decisive(xs[i], q) {
              var i :| 0 <= i < |xs| && Decisive(xs[i], q);
              assert i > 0 && Decisive(rest[i - 1], q);
            }
          }
          FoldMeaning(a, xs);
          FoldMeaning(Add(a, v), rest);
        }
      }
    }
  }

  /** evaluate agrees with the reference value of a node: when the position is not
      won, depth remains and every legal child has a score, evaluate returns the value
      NodeValue assigns to those scores. */
  lemma EvaluationIsNodeValue(s: M.BoardState, player: int, depth: int, cache: Option<seq<CacheEntry>>,
                              workerDepth: int, xs: seq<real>)
    requires M.WellShaped(s) && M.GameEnd(s) == Ok(false) && depth > 0
    requires ChildScores(s, player, depth, cache, workerDepth, 0) == Ok(xs)
    ensures Evaluation(s, player, depth, cache, workerDepth) == Ok(NodeValue(xs, NextPlayer(player)))
  {
    ChildLoopCombines(s, player, depth, cache, workerDepth, 0, Start, xs);
    FoldMeaning(Start, xs);
  }

  /** The terminal and cut-off cases: a won position scores 1 for a computer move and
      -1 for a human move, whatever the depth; otherwise depth 0 scores 0. */
  lemma EvaluationLeaves(s: M.BoardState, player: int, depth: int, cache: Option<seq<CacheEntry>>, workerDepth: int)
    requires M.WellShaped(s)
    ensures M.GameEnd(s) == Ok(true) ==>
              Evaluation(s, player, depth, cache, workerDepth) == Ok(if player == PlayerCpu then 1.0 else -1.0)
    ensures M.GameEnd(s) == Ok(false) && depth <= 0 ==> Evaluation(s, player, depth, cache, workerDepth) == Ok(0.0)
    ensures M.GameEnd(s).Err? ==> Evaluation(s, player, depth, cache, workerDepth) == Err(M.GameEnd(s).error)
  {
  }

  lemma {:induction false} NoLegalChildren(s: M.BoardState, player: int, depth: int, cache: Option<seq<CacheEntry>>,
                                            workerDepth: int, col: nat)
    requires M.WellShaped(s) && depth > 0 && col <= s.width
    requires forall c :: col <= c < s.width ==> M.MoveLegal(s, c) == Ok(false)
    ensures ChildScores(s, player, depth, cache, workerDepth, col) == Ok([])
    decreases s.width - col
  {
    if col < s.width {
      NoLegalChildren(s, player, depth, cache, workerDepth, col + 1);
    }
  }

  /** With depth left, a position that is not won and has no legal move -- a full
      board -- scores 1, for either player: all_win is never cleared. */
  lemma FullBoardScoresOne(s: M.BoardState, player: int, depth: int, cache: Option<seq<CacheEntry>>, workerDepth: int)
    requires M.WellShaped(s) && M.GameEnd(s) == Ok(false) && depth > 0
    requires forall c :: 0 <= c < s.width ==> M.MoveLegal(s, c) == Ok(false)
    ensures Evaluation(s, player, depth, cache, workerDepth) == Ok(1.0)
  {
    NoLegalChildren(s, player, depth, cache, workerDepth, 0);
    EvaluationIsNodeValue(s, player, depth, cache, workerDepth, []);
  }

  /** Number of legal columns from col on. */
  function LegalCount(s: M.BoardState, col: nat): nat
    requires M.WellShaped(s) && col <= s.width
    decreases s.width - col
  {
    if col == s.width then 0
    else LegalCount(s, col + 1) + (if M.MoveLegal(s, col) == Ok(true) then 1 else 0)
  }

  /** At DEPTH_WORKER every legal child receives the entry recorded for the position
      itself. */
  lemma {:induction false} CutoffChildren(s: M.BoardState, player: int, depth: int, cache: seq<CacheEntry>, e: CacheEntry,
                                           col: nat)
    requires M.WellShaped(s) && depth > 0 && col <= s.width
    requires Lookup(cache, s.moves) == Some(e)
    requires forall c :: 0 <= c < s.width ==> M.MoveLegal(s, c).Ok?
    ensures ChildScores(s, player, depth, Some(cache), depth, col) == Ok(seq(LegalCount(s, col), _ => e.result))
    decreases s.width - col
  {
    if col < s.width {
      CutoffChildren(s, player, depth, cache, e, col + 1);
      var n := LegalCount(s, col + 1);
      if M.MoveLegal(s, col) == Ok(true) {
        var q := NextPlayer(player);
        M.MoveMeaning(s, col, q);
        var t := M.Move(s, col, q).value;
        assert Child(s.moves, t, q, depth, Some(cache), depth) == Ok(e.result);
        assert [e.result] + seq(n, _ => e.result) == seq(n + 1, _ => e.result);
        assert LegalCount(s, col) == n + 1;
        assert ChildScores(s, player, depth, Some(cache), depth, col) == Ok([e.result] + seq(n, _ => e.result));
      } else {
        assert M.MoveLegal(s, col) == Ok(false);
        assert LegalCount(s, col) == n;
        assert ChildScores(s, player, depth, Some(cache), depth, col) == Ok(seq(n, _ => e.result));
      }
    } else {
      assert seq(LegalCount(s, col), _ => e.result) == [];
    }
  }

  lemma {:induction false} SumConstant(n: nat, c: real)
    ensures Sum(seq(n, _ => c)) == n as real * c
  {
    if n > 0 {
      assert seq(n, _ => c)[1..] == seq(n - 1, _ => c);
      SumConstant(n - 1, c);
      assert Sum(seq(n, _ => c)) == c + Sum(seq(n - 1, _ => c));
      assert n as real * c == c + (n - 1) as real * c;
    }
  }

  /** What the coordinator makes of the entry `c` recorded for a position one of
      whose `n` > 0 legal moves `q` is about to make. */
  function CachedValue(c: real, q: int): real {
    if Decisive(c, q) then c
    else if c >= 1.0 then 1.0
    else if c <= -1.0 then -1.0
    else Round8(c)
  }

  /** The look-up at DEPTH_WORKER is keyed by the position before the child's move, so
      all children share one entry: the position scores that entry (rounded), or 1
      without legal moves. */
  lemma CutoffHit(s: M.BoardState, player: int, depth: int, cache: seq<CacheEntry>)
    requires M.WellShaped(s) && M.GameEnd(s) == Ok(false) && depth > 0
    requires Lookup(cache, s.moves).Some?
    ensures Evaluation(s, player, depth, Some(cache), depth) ==
              Ok(if LegalCount(s, 0) == 0 then 1.0 else CachedValue(Lookup(cache, s.moves).value.result, NextPlayer(player)))
  {
    var e := Lookup(cache, s.moves).value;
    var xs := seq(LegalCount(s, 0), _ => e.result);
    CutoffScores(s, player, depth, cache);
    EvaluationIsNodeValue(s, player, depth, Some(cache), depth, xs);
    ConstantNodeValue(LegalCount(s, 0), e.result, NextPlayer(player));
  }

  lemma CutoffScores(s: M.BoardState, player: int, depth: int, cache: seq<CacheEntry>)
    requires M.WellShaped(s) && depth > 0 && Lookup(cache, s.moves).Some?
    ensures ChildScores(s, player, depth, Some(cache), depth, 0)
            == Ok(seq(LegalCount(s, 0), _ => Lookup(cache, s.moves).value.result))
  {
    AllColumnsCheckable(s);
    CutoffChildren(s, player, depth, cache, Lookup(cache, s.moves).value, 0);
  }

  /** Every column of the board can be checked for legality (numpy does not raise). */
  lemma AllColumnsCheckable(s: M.BoardState)
    requires M.WellShaped(s)
    ensures forall c :: 0 <= c < s.width ==> M.MoveLegal(s, c).Ok?
  {
    forall c | 0 <= c < s.width ensures M.MoveLegal(s, c).Ok? {
      M.MoveLegalMeaning(s, c);
    }
  }

  /** n equal scores c make a node worth c, clamped to [-1, 1] and rounded, or the
      decisive value; no score at all makes it worth 1. */
  lemma ConstantNodeValue(n: nat, c: real, q: int)
    ensures NodeValue(seq(n, _ => c), q) == if n == 0 then 1.0 else CachedValue(c, q)
  {
    if n > 0 {
      var xs := seq(n, _ => c);
      SumConstant(n, c);
      MeanOfConstant(n as real, c);
      SameScores(xs, c, q);
    }
  }

  lemma SameScores(xs: seq<real>, c: real, q: int)
    requires |xs| > 0 && (forall i :: 0 <= i < |xs| ==> xs[i] == c) && Sum(xs) / |xs| as real == c
    ensures NodeValue(xs, q) == CachedValue(c, q)
  {
    assert xs[0] == c;
    assert (exists i :: 0 <= i < |xs| && Decisive(xs[i], q)) == Decisive(c, q);
    assert (forall i :: 0 <= i < |xs| ==> xs[i] >= 1.0) == (c >= 1.0);
    assert (forall i :: 0 <= i < |xs| ==> xs[i] <= -1.0) == (c <= -1.0);
  }

  lemma MeanOfConstant(n: real, c: real)
    requires n > 0.0
    ensures (n * c) / n == c
  {
  }

  /** Without an entry for the position, the first legal child raises. */
  lemma CutoffMiss(s: M.BoardState, player: int, depth: int, cache: seq<CacheEntry>)
    requires M.WellShaped(s) && M.GameEnd(s) == Ok(false) && depth > 0
    requires Lookup(cache, s.moves).None? && LegalCount(s, 0) > 0
    ensures Evaluation(s, player, depth, Some(cache), depth) == Err(MissingCacheEntry)
  {
    AllColumnsCheckable(s);
    MissAtFirstLegal(s, player, depth, cache, 0, Start);
  }

  lemma {:induction false} MissAtFirstLegal(s: M.BoardState, player: int, depth: int, cache: seq<CacheEntry>,
                                             col: nat, a: Acc)
    requires M.WellShaped(s) && depth > 0 && col <= s.width && (a.n > 0 || a.allWin)
    requires Lookup(cache, s.moves).None? && LegalCount(s, col) > 0
    requires forall c :: 0 <= c < s.width ==> M.MoveLegal(s, c).Ok?
    ensures ChildLoop(s, player, depth, Some(cache), depth, col, a) == Err(MissingCacheEntry)
    decreases s.width - col
  {
    if M.MoveLegal(s, col) == Ok(false) {
      MissAtFirstLegal(s, player, depth, cache, col + 1, a);
    } else {
      M.MoveMeaning(s, col, NextPlayer(player));
      assert ChildColumn(s, player, depth, Some(cache), depth, col, a) == Done(Err(MissingCacheEntry));
    }
  }

  // ---------------------------------------------------------------------------
  // Scores stay between -1 and 1

  predicate InRange(v: real) {
    -1.0 <= v <= 1.0
  }

  predicate CacheInRange(cache: Option<seq<CacheEntry>>) {
    cache.Some? ==> forall j :: 0 <= j < |cache.value| ==> InRange(cache.value[j].result)
  }

  lemma FinishInRange(a: Acc)
    requires (a.n > 0 || a.allWin) && -(a.n as real) <= a.total <= a.n as real
    ensures InRange(Finish(a))
  {
    if !a.allWin && !a.allLose {
      var m := a.total / a.n as real;
      MeanBounded(a.total, a.n as real);
      Round8Bounded(m);
    }
  }

  lemma MeanBounded(t: real, n: real)
    requires n > 0.0 && -n <= t <= n
    ensures -1.0 <= t / n <= 1.0
  {
    var m := t / n;
    assert t - n == (m - 1.0) * n;
    assert t + n == (m + 1.0) * n;
    SignOfProduct(m - 1.0, n);
    SignOfProduct(m + 1.0, n);
  }

  lemma SignOfProduct(a: real, b: real)
    requires b > 0.0
    ensures a * b <= 0.0 ==> a <= 0.0
    ensures a * b >= 0.0 ==> a >= 0.0
  {
  }

  /** With a result list in range, every score evaluate returns lies between -1 and 1. */
  lemma {:induction false} EvaluationInRange(s: M.BoardState, player: int, depth: int, cache: Option<seq<CacheEntry>>,
                                              workerDepth: int)
    requires M.WellShaped(s) && CacheInRange(cache)
    ensures Evaluation(s, player, depth, cache, workerDepth).Ok? ==>
              InRange(Evaluation(s, player, depth, cache, workerDepth).value)
    decreases Depth(depth), 2, 0
  {
    if M.GameEnd(s) == Ok(false) && depth > 0 {
      ChildLoopInRange(s, player, depth, cache, workerDepth, 0, Start);
    }
  }

  lemma {:induction false} ChildInRange(key: seq<M.Placement>, t: M.BoardState, q: int, depth: int,
                                         cache: Option<seq<CacheEntry>>, workerDepth: int)
    requires M.WellShaped(t) && depth > 0 && CacheInRange(cache)
    ensures Child(key, t, q, depth, cache, workerDepth).Ok? ==> InRange(Child(key, t, q, depth, cache, workerDepth).value)
    decreases Depth(depth), 0, 0
  {
    if cache.Some? && depth == workerDepth {
      if Lookup(cache.value, key).Some? {
        var e := Lookup(cache.value, key).value;
        var j :| 0 <= j < |cache.value| && cache.value[j] == e;
      }
    } else {
      EvaluationInRange(t, q, depth - 1, cache, workerDepth);
    }
  }

  lemma {:induction false} ChildLoopInRange(s: M.BoardState, player: int, depth: int, cache: Option<seq<CacheEntry>>,
                                             workerDepth: int, col: nat, a: Acc)
    requires M.WellShaped(s) && depth > 0 && col <= s.width && (a.n > 0 || a.allWin) && CacheInRange(cache)
    requires -(a.n as real) <= a.total <= a.n as real
    ensures ChildLoop(s, player, depth, cache, workerDepth, col, a).Ok? ==>
              InRange(ChildLoop(s, player, depth, cache, workerDepth, col, a).value)
    decreases Depth(depth), 1, s.width - col
  {
    if col == s.width {
      FinishInRange(a);
    } else if M.MoveLegal(s, col) == Ok(false) {
      ChildLoopInRange(s, player, depth, cache, workerDepth, col + 1, a);
    } else if M.MoveLegal(s, col) == Ok(true) && M.Move(s, col, NextPlayer(player)).Ok? {
      var q := NextPlayer(player);
      var t := M.Move(s, col, q).value;
      ChildInRange(s.moves, t, q, depth, cache, workerDepth);
      var r := Child(s.moves, t, q, depth, cache, workerDepth);
      if r.Ok? && !Decisive(r.value, q) {
        ChildLoopInRange(s, player, depth, cache, workerDepth, col + 1, Add(a, r.value));
      }
    }
  }

  // ---------------------------------------------------------------------------
  // When evaluate raises

  /** A win length the board can check without error. */
  predicate Checkable(s: M.BoardState) {
    1 <= s.seqLen <= 4
  }

  /** With a win length between one and four, the only error evaluate can raise is the
      missing result-list entry; without a result list (a worker's search) it raises
      nothing. */
  lemma {:induction false} EvaluationErrors(s: M.BoardState, player: int, depth: int, cache: Option<seq<CacheEntry>>,
                                             workerDepth: int)
    requires M.WellShaped(s) && Checkable(s)
    ensures Evaluation(s, player, depth, cache, workerDepth).Err? ==>
              cache.Some? && Evaluation(s, player, depth, cache, workerDepth).error == MissingCacheEntry
    decreases Depth(depth), 2, 0
  {
    M.GameEndCases(s);
    if M.GameEnd(s) == Ok(false) && depth > 0 {
      ChildLoopErrors(s, player, depth, cache, workerDepth, 0, Start);
    }
  }

  lemma {:induction false} ChildLoopErrors(s: M.BoardState, player: int, depth: int, cache: Option<seq<CacheEntry>>,
                                            workerDepth: int, col: nat, a: Acc)
    requires M.WellShaped(s) && Checkable(s) && depth > 0 && col <= s.width && (a.n > 0 || a.allWin)
    ensures ChildLoop(s, player, depth, cache, workerDepth, col, a).Err? ==>
              cache.Some? && ChildLoop(s, player, depth, cache, workerDepth, col, a).error == MissingCacheEntry
    decreases Depth(depth), 1, s.width - col
  {
    if col < s.width {
      M.MoveLegalMeaning(s, col);
      var q := NextPlayer(player);
      M.MoveMeaning(s, col, q);
      if M.MoveLegal(s, col) == Ok(false) {
        assert ChildColumn(s, player, depth, cache, workerDepth, col, a) == Next(a);
        ChildLoopErrors(s, player, depth, cache, workerDepth, col + 1, a);
      } else {
        var t := M.Move(s, col, q).value;
        assert Checkable(t);
        if !(cache.Some? && depth == workerDepth) {
          EvaluationErrors(t, q, depth - 1, cache, workerDepth);
        }
        var r := Child(s.moves, t, q, depth, cache, workerDepth);
        if r.Ok? && !Decisive(r.value, q) {
          assert ChildColumn(s, player, depth, cache, workerDepth, col, a) == Next(Add(a, r.value));
          ChildLoopErrors(s, player, depth, cache, workerDepth, col + 1, Add(a, r.value));
        } else {
          assert ChildColumn(s, player, depth, cache, workerDepth, col, a) == Done(r);
        }
      }
    }
  }

  // ---------------------------------------------------------------------------
  // do_job

  /** best_result, best_col and the number of coin flips used so far. */
  datatype Choice = Choice(best: real, column: int, flips: nat)

  /** The update of best_result and best_col after `col` scored v: a higher score
      replaces the best, an equal one replaces it when the next coin flip says so. */
  function Pick(c: Choice, v: real, col: int, coin: nat -> bool): (r: Choice)
    ensures r.best == (if v > c.best then v else c.best)
    ensures r.column == (if v > c.best || (v == c.best && coin(c.flips)) then col else c.column)
    ensures r.flips == (if v == c.best then c.flips + 1 else c.flips)
  {
    if v > c.best then Choice(v, col, c.flips)
    else if v == c.best then
      (if coin(c.flips) then Choice(v, col, c.flips + 1) else c.(flips := c.flips + 1))
    else c
  }

  /** One pass of the loop of do_job at depth `depth` over the columns col, ...,
      WIDTH - 1: `player` tries each legal column; a higher score replaces the best, an
      equal one replaces it when the coin says so. */
  function Round(s: M.BoardState, player: int, depth: int, cache: Option<seq<CacheEntry>>, workerDepth: int,
                 coin: nat -> bool, col: nat, c: Choice): Result<Choice>
    requires M.WellShaped(s) && col <= s.width
    decreases s.width - col
  {
    if col == s.width then Ok(c)
    else
      match RoundColumn(s, player, depth, cache, workerDepth, coin, col, c)
      case Err(e) => Err(e)
      case Ok(c1) => Round(s, player, depth, cache, workerDepth, coin, col + 1, c1)
  }

  /** One turn of the for loop of do_job at column `col`: a legal column is scored at
      depth - 1 and offered to Pick; an illegal one changes nothing. */
  function RoundColumn(s: M.BoardState, player: int, depth: int, cache: Option<seq<CacheEntry>>, workerDepth: int,
                       coin: nat -> bool, col: nat, c: Choice): Result<Choice>
    requires M.WellShaped(s) && col < s.width
  {
    match M.MoveLegal(s, col)
    case Err(e) => Err(e)
    case Ok(legal) =>
      if !legal then Ok(c)
      else
        match M.Move(s, col, player)
        case Err(e) => Err(e)
        case Ok(t) =>
          match Evaluation(t, player, depth - 1, cache, workerDepth)
          case Err(e) => Err(e)
          case Ok(v) => Ok(Pick(c, v, col, coin))
  }

  /** The while loop of do_job: repeat at half the depth while the best score is -1. */
  function SearchFrom(s: M.BoardState, player: int, depth: int, cache: Option<seq<CacheEntry>>, workerDepth: int,
                      coin: nat -> bool, c: Choice): Result<Choice>
    requires M.WellShaped(s)
    decreases Depth(depth)
  {
    if c.best == -1.0 && depth > 0 then
      match Round(s, player, depth, cache, workerDepth, coin, 0, Choice(-1.0, 0, c.flips))
      case Err(e) => Err(e)
      case Ok(r) => SearchFrom(s, player, depth / 2, cache, workerDepth, coin, r)
    else Ok(c)
  }

  /** do_job(depth, player, moves_result_list) on the position s. */
  function Search(s: M.BoardState, player: int, depth: int, cache: Option<seq<CacheEntry>>, workerDepth: int,
                  coin: nat -> bool): Result<Choice>
    requires M.WellShaped(s)
  {
    SearchFrom(s, player, depth, cache, workerDepth, coin, Choice(-1.0, 0, 0))
  }

  /** Column `col` is legal and `player`'s move there scores `v` at depth - 1. */
  predicate Scores(s: M.BoardState, player: int, depth: int, cache: Option<seq<CacheEntry>>, workerDepth: int,
                   col: int, v: real)
    requires M.WellShaped(s)
  {
    && 0 <= col < s.width && M.MoveLegal(s, col) == Ok(true) && M.Move(s, col, player).Ok?
    && Evaluation(M.Move(s, col, player).value, player, depth - 1, cache, workerDepth) == Ok(v)
  }

  /** A pass of do_job that raises nothing has evaluated every legal column; it keeps
      the best score seen, and the column it keeps scores it, unless no column beat or
      tied the starting choice. */
  lemma {:induction false} RoundMeaning(s: M.BoardState, player: int, depth: int, cache: Option<seq<CacheEntry>>,
                                         workerDepth: int, coin: nat -> bool, col: nat, c: Choice)
    requires M.WellShaped(s) && col <= s.width
    requires Round(s, player, depth, cache, workerDepth, coin, col, c).Ok?
    ensures var r := Round(s, player, depth, cache, workerDepth, coin, col, c).value;
            && r.best >= c.best && r.flips >= c.flips
            && (forall k :: col <= k < s.width && M.MoveLegal(s, k) == Ok(true) ==>
                  exists v :: v <= r.best && Scores(s, player, depth, cache, workerDepth, k, v))
            && ((r.best == c.best && r.column == c.column)
                || (col <= r.column && Scores(s, player, depth, cache, workerDepth, r.column, r.best)))
    decreases s.width - col
  {
    if col < s.width {
      RoundColumnCases(s, player, depth, cache, workerDepth, coin, col, c);
      var next := RoundColumn(s, player, depth, cache, workerDepth, coin, col, c).value;
      RoundMeaning(s, player, depth, cache, workerDepth, coin, col + 1, next);
    }
  }

  /** One column of a pass that raises nothing: an illegal column keeps the choice, a
      legal one offers its score to Pick. */
  lemma RoundColumnCases(s: M.BoardState, player: int, depth: int, cache: Option<seq<CacheEntry>>,
                         workerDepth: int, coin: nat -> bool, col: nat, c: Choice)
    requires M.WellShaped(s) && col < s.width
    requires RoundColumn(s, player, depth, cache, workerDepth, coin, col, c).Ok?
    ensures var n := RoundColumn(s, player, depth, cache, workerDepth, coin, col, c).value;
            && (M.MoveLegal(s, col) == Ok(false) ==> n == c)
            && (M.MoveLegal(s, col) == Ok(false) || exists v :: Scores(s, player, depth, cache, workerDepth, col, v)
                                                              && n == Pick(c, v, col, coin))
  {
    if M.MoveLegal(s, col) == Ok(true) {
      var t := M.Move(s, col, player).value;
      var v := Evaluation(t, player, depth - 1, cache, workerDepth).value;
      assert Scores(s, player, depth, cache, workerDepth, col, v);
    }
  }

  /** The coin decides only the column: two passes from choices with the same score
      fail together or reach the same best score. */
  lemma {:induction false} RoundBestIgnoresCoin(s: M.BoardState, player: int, depth: int, cache: Option<seq<CacheEntry>>,
                                                 workerDepth: int, coin1: nat -> bool, coin2: nat -> bool,
                                                 col: nat, c1: Choice, c2: Choice)
    requires M.WellShaped(s) && col <= s.width && c1.best == c2.best
    ensures var r1 := Round(s, player, depth, cache, workerDepth, coin1, col, c1);
            var r2 := Round(s, player, depth, cache, workerDepth, coin2, col, c2);
            r1.Ok? == r2.Ok? && (r1.Ok? ==> r1.value.best == r2.value.best)
    decreases s.width - col
  {
    if col < s.width && M.MoveLegal(s, col).Ok? {
      if !M.MoveLegal(s, col).value {
        RoundBestIgnoresCoin(s, player, depth, cache, workerDepth, coin1, coin2, col + 1, c1, c2);
      } else if M.Move(s, col, player).Ok? {
        var t := M.Move(s, col, player).value;
        var e := Evaluation(t, player, depth - 1, cache, workerDepth);
        if e.Ok? {
          var v := e.value;
          var n1 := Pick(c1, v, col, coin1);
          var n2 := Pick(c2, v, col, coin2);
          RoundBestIgnoresCoin(s, player, depth, cache, workerDepth, coin1, coin2, col + 1, n1, n2);
        }
      }
    }
  }

  function Halved(depth: int, k: nat): int {
    if k == 0 then depth else Halved(depth, k - 1) / 2
  }

  /** do_job with no depth left returns (-1, 0) without searching; otherwise its answer
      is the outcome of a pass at one of the depths depth, depth / 2, ..., and the
      score is -1 only when the passes went down to depth 1. */
  lemma {:induction false} SearchLastPass(s: M.BoardState, player: int, depth: int, cache: Option<seq<CacheEntry>>,
                                           workerDepth: int, coin: nat -> bool, c: Choice)
    requires M.WellShaped(s) && c.best == -1.0
    requires SearchFrom(s, player, depth, cache, workerDepth, coin, c).Ok?
    ensures depth <= 0 ==> SearchFrom(s, player, depth, cache, workerDepth, coin, c) == Ok(c)
    ensures depth > 0 ==>
              var r := SearchFrom(s, player, depth, cache, workerDepth, coin, c).value;
              exists k: nat, f: nat ::
                && Halved(depth, k) > 0
                && Round(s, player, Halved(depth, k), cache, workerDepth, coin, 0, Choice(-1.0, 0, f)) == Ok(r)
                && (r.best == -1.0 ==> Halved(depth, k) == 1)
    decreases Depth(depth)
  {
    if depth > 0 {
      var r1 := Round(s, player, depth, cache, workerDepth, coin, 0, Choice(-1.0, 0, c.flips)).value;
      var r := SearchFrom(s, player, depth, cache, workerDepth, coin, c).value;
      assert Halved(depth, 0) == depth;
      if r1.best != -1.0 || depth / 2 <= 0 {
        assert r == r1;
        assert Round(s, player, Halved(depth, 0), cache, workerDepth, coin, 0, Choice(-1.0, 0, c.flips)) == Ok(r);
      } else {
        SearchLastPass(s, player, depth / 2, cache, workerDepth, coin, r1);
        var k: nat, f: nat :| && Halved(depth / 2, k) > 0
                              && Round(s, player, Halved(depth / 2, k), cache, workerDepth, coin, 0, Choice(-1.0, 0, f)) == Ok(r)
                              && (r.best == -1.0 ==> Halved(depth / 2, k) == 1);
        HalvedShift(depth, k);
        assert Round(s, player, Halved(depth, k + 1), cache, workerDepth, coin, 0, Choice(-1.0, 0, f)) == Ok(r);
      }
    }
  }

  lemma {:induction false} HalvedBounded(depth: int, k: nat)
    requires depth > 0
    ensures Halved(depth, k) <= depth
  {
    if k > 0 {
      HalvedBounded(depth, k - 1);
    }
  }

  lemma {:induction false} HalvedShift(depth: int, k: nat)
    ensures Halved(depth / 2, k) == Halved(depth, k + 1)
  {
    if k > 0 {
      HalvedShift(depth, k - 1);
    }
  }

  /** The computer always plays a legal column: with depth left and a legal column,
      do_job ends with a score above -1, because the last pass, at depth 1, scores
      every legal column 0 or 1, and the column it returns is one that scores it. */
  lemma SearchPicksLegalColumn(s: M.BoardState, depth: int, cache: Option<seq<CacheEntry>>, workerDepth: int,
                               coin: nat -> bool)
    requires M.WellShaped(s) && depth > 0
    requires exists c :: 0 <= c < s.width && M.MoveLegal(s, c) == Ok(true)
    requires Search(s, PlayerCpu, depth, cache, workerDepth, coin).Ok?
    ensures var r := Search(s, PlayerCpu, depth, cache, workerDepth, coin).value;
            && r.best > -1.0
            && (exists d :: 0 < d <= depth && Scores(s, PlayerCpu, d, cache, workerDepth, r.column, r.best))
            && M.MoveLegal(s, r.column) == Ok(true)
  {
    var start := Choice(-1.0, 0, 0);
    var r := Search(s, PlayerCpu, depth, cache, workerDepth, coin).value;
    SearchLastPass(s, PlayerCpu, depth, cache, workerDepth, coin, start);
    var k: nat, f: nat :| && Halved(depth, k) > 0
                          && Round(s, PlayerCpu, Halved(depth, k), cache, workerDepth, coin, 0, Choice(-1.0, 0, f)) == Ok(r)
                          && (r.best == -1.0 ==> Halved(depth, k) == 1);
    var d := Halved(depth, k);
    HalvedBounded(depth, k);
    RoundMeaning(s, PlayerCpu, d, cache, workerDepth, coin, 0, Choice(-1.0, 0, f));
  }

  /** A pass that starts from (-1, 0) and raises nothing ends with a score between -1
      and 1 when the result list is in range. */
  lemma {:induction false} RoundInRange(s: M.BoardState, player: int, depth: int, cache: Option<seq<CacheEntry>>,
                                         workerDepth: int, coin: nat -> bool, col: nat, c: Choice)
    requires M.WellShaped(s) && col <= s.width && CacheInRange(cache) && InRange(c.best)
    requires Round(s, player, depth, cache, workerDepth, coin, col, c).Ok?
    ensures InRange(Round(s, player, depth, cache, workerDepth, coin, col, c).value.best)
    decreases s.width - col
  {
    if col < s.width {
      if M.MoveLegal(s, col) == Ok(false) {
        RoundInRange(s, player, depth, cache, workerDepth, coin, col + 1, c);
      } else {
        var t := M.Move(s, col, player).value;
        EvaluationInRange(t, player, depth - 1, cache, workerDepth);
        var v := Evaluation(t, player, depth - 1, cache, workerDepth).value;
        var next := Pick(c, v, col, coin);
        RoundInRange(s, player, depth, cache, workerDepth, coin, col + 1, next);
      }
    }
  }

  lemma {:induction false} SearchInRange(s: M.BoardState, player: int, depth: int, cache: Option<seq<CacheEntry>>,
                                          workerDepth: int, coin: nat -> bool, c: Choice)
    requires M.WellShaped(s) && CacheInRange(cache) && InRange(c.best)
    requires SearchFrom(s, player, depth, cache, workerDepth, coin, c).Ok?
    ensures InRange(SearchFrom(s, player, depth, cache, workerDepth, coin, c).value.best)
    decreases Depth(depth)
  {
    if c.best == -1.0 && depth > 0 {
      var start := Choice(-1.0, 0, c.flips);
      RoundInRange(s, player, depth, cache, workerDepth, coin, 0, start);
      var r := Round(s, player, depth, cache, workerDepth, coin, 0, start).value;
      SearchInRange(s, player, depth / 2, cache, workerDepth, coin, r);
    }
  }

  // ---------------------------------------------------------------------------
  // A worker

  /** What a worker sends back for a task: the task with the best score of do_job at
      DEPTH_WORKER (searched without a result list) and the placements of its board. */
  function Work(t: Task, workerDepth: int, coin: nat -> bool): Result<Task>
    requires M.WellShaped(t.board)
  {
    match Search(t.board, t.player, workerDepth, None, workerDepth, coin)
    case Err(e) => Err(e)
    case Ok(c) => Ok(t.(result := Some(c.best), moves := t.board.moves))
  }

  /** A worker's reply carries the task's own placements, so update_task finds the first
      task carrying them, and a score between -1 and 1; for a board of win length at
      most four and a player the board accepts, the worker raises nothing. */
  lemma WorkReply(t: Task, workerDepth: int, coin: nat -> bool)
    requires M.WellShaped(t.board)
    ensures Work(t, workerDepth, coin).Ok? ==>
              && Work(t, workerDepth, coin).value.moves == t.board.moves
              && Work(t, workerDepth, coin).value.result.Some?
              && InRange(Work(t, workerDepth, coin).value.result.value)
              && Work(t, workerDepth, coin).value.board == t.board
    ensures Checkable(t.board) && t.player in M.Players ==> Work(t, workerDepth, coin).Ok?
  {
    if Work(t, workerDepth, coin).Ok? {
      SearchInRange(t.board, t.player, workerDepth, None, workerDepth, coin, Choice(-1.0, 0, 0));
    }
    if Checkable(t.board) && t.player in M.Players {
      SearchTotal(t.board, t.player, workerDepth, workerDepth, coin, Choice(-1.0, 0, 0));
    }
  }

  lemma {:induction false} RoundTotal(s: M.BoardState, player: int, depth: int, workerDepth: int, coin: nat -> bool,
                                       col: nat, c: Choice)
    requires M.WellShaped(s) && Checkable(s) && player in M.Players && col <= s.width
    ensures Round(s, player, depth, None, workerDepth, coin, col, c).Ok?
    decreases s.width - col
  {
    if col < s.width {
      RoundColumnTotal(s, player, depth, workerDepth, coin, col, c);
      RoundTotal(s, player, depth, workerDepth, coin, col + 1,
                 RoundColumn(s, player, depth, None, workerDepth, coin, col, c).value);
    }
  }

  lemma RoundColumnTotal(s: M.BoardState, player: int, depth: int, workerDepth: int, coin: nat -> bool,
                         col: nat, c: Choice)
    requires M.WellShaped(s) && Checkable(s) && player in M.Players && col < s.width
    ensures RoundColumn(s, player, depth, None, workerDepth, coin, col, c).Ok?
  {
    M.MoveLegalMeaning(s, col);
    M.MoveMeaning(s, col, player);
    if M.MoveLegal(s, col) == Ok(true) {
      var t := M.Move(s, col, player).value;
      EvaluationErrors(t, player, depth - 1, None, workerDepth);
    }
  }

  lemma {:induction false} SearchTotal(s: M.BoardState, player: int, depth: int, workerDepth: int, coin: nat -> bool,
                                        c: Choice)
    requires M.WellShaped(s) && Checkable(s) && player in M.Players
    ensures SearchFrom(s, player, depth, None, workerDepth, coin, c).Ok?
    decreases Depth(depth)
  {
    if c.best == -1.0 && depth > 0 {
      var start := Choice(-1.0, 0, c.flips);
      RoundTotal(s, player, depth, workerDepth, coin, 0, start);
      var r := Round(s, player, depth, None, workerDepth, coin, 0, start).value;
      SearchTotal(s, player, depth / 2, workerDepth, coin, r);
    }
  }
}
