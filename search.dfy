/**
 * `evaluateBoard` and `minimax` of utils/ai.ts.
 *
 * The source's evaluation is `stoneCount + positionScore * 0.1`; here it
 * is that value in exact arithmetic, multiplied by 10 to stay an integer.
 * A positive factor keeps every exact comparison, but the source computes
 * in binary floating point, whose rounding can split values that are
 * equal here.  The source's -Infinity and
 * +Infinity are the sentinels NEG_INF and POS_INF, which lie beyond every
 * value the search can produce (MinimaxBounded).
 *
 * `AlphaBeta` is the search as written (fail-soft alpha-beta with the
 * source's `break`); `MinimaxValue` is the same tree without pruning.
 * AlphaBetaClamp relates the two on every window and AlphaBetaFullWindow
 * shows they agree on the window the AI uses.
 */
module Search {
  import opened GameTypes
  import opened GameLogic
  import opened BoardProperties
  import opened Numbers

  // ---------------------------------------------------------------------
  // evaluateBoard

  const WEIGHTS: seq<seq<int>> := [
    [100, -20, 10, 5, 5, 10, -20, 100],
    [-20, -50, -2, -2, -2, -2, -50, -20],
    [10, -2, -1, -1, -1, -1, -2, 10],
    [5, -2, -1, -1, -1, -1, -2, 5],
    [5, -2, -1, -1, -1, -1, -2, 5],
    [10, -2, -1, -1, -1, -1, -2, 10],
    [-20, -50, -2, -2, -2, -2, -50, -20],
    [100, -20, 10, 5, 5, 10, -20, 100]
  ]

  function Weight(row: int, col: int): (w: int)
    requires IsValidPosition(row, col)
    ensures -100 <= w <= 100
  {
    WEIGHTS[row][col]
  }

  /** One cell's term: its weight for the player's stone, minus it for the opponent's. */
  function CellScore(b: Board, player: Player, row: int, col: int): int
    requires IsValidPosition(row, col)
  {
    if b[row][col] == player then Weight(row, col)
    else if b[row][col] == GetOpponentColor(player) then -Weight(row, col)
    else 0
  }

  function RowScore(b: Board, player: Player, row: int, col: nat): int
    requires 0 <= row < BOARD_SIZE && col <= BOARD_SIZE
  {
    if col == 0 then 0 else RowScore(b, player, row, col - 1) + CellScore(b, player, row, col - 1)
  }

  function ScoreUpTo(b: Board, player: Player, rows: nat): int
    requires rows <= BOARD_SIZE
  {
    if rows == 0 then 0 else ScoreUpTo(b, player, rows - 1) + RowScore(b, player, rows - 1, BOARD_SIZE)
  }

  function PositionScore(b: Board, player: Player): int {
    ScoreUpTo(b, player, BOARD_SIZE)
  }

  /** The player's stones minus the opponent's. */
  function StoneCount(b: Board, player: Player): int {
    if player == Black then Count(b, Black) - Count(b, White) else Count(b, White) - Count(b, Black)
  }

  /** Ten times the source's evaluation. */
  function Evaluate(b: Board, player: Player): int {
    10 * StoneCount(b, player) + PositionScore(b, player)
  }

  /** The inner `j` loop of `evaluateBoard` for one row. */
  method ScoreRow(b: Board, player: Player, i: int) returns (rowScore: int)
    requires 0 <= i < BOARD_SIZE
    ensures rowScore == RowScore(b, player, i, BOARD_SIZE)
  {
    rowScore := 0;
    var opponent := GetOpponentColor(player);
    for j := 0 to BOARD_SIZE
      invariant rowScore == RowScore(b, player, i, j)
    {
      if b[i][j] == player {
        rowScore := rowScore + WEIGHTS[i][j];
      } else if b[i][j] == opponent {
        rowScore := rowScore - WEIGHTS[i][j];
      }
    }
  }

  method EvaluateBoard(b: Board, player: Player) returns (score: int)
    ensures score == Evaluate(b, player)
  {
    var black, white := CountStones(b);
    var stoneCount := if player == Black then black as int - white else white as int - black;
    var positionScore := 0;
    for i := 0 to BOARD_SIZE
      invariant positionScore == ScoreUpTo(b, player, i)
    {
      var rowScore := ScoreRow(b, player, i);
      positionScore := positionScore + rowScore;
    }
    score := 10 * stoneCount + positionScore;
  }

  lemma {:induction false} RowScoreAntisymmetric(b: Board, row: int, col: nat)
    requires 0 <= row < BOARD_SIZE && col <= BOARD_SIZE
    ensures RowScore(b, Black, row, col) == -RowScore(b, White, row, col)
  {
    if col > 0 {
      RowScoreAntisymmetric(b, row, col - 1);
    }
  }

  lemma {:induction false} ScoreUpToAntisymmetric(b: Board, rows: nat)
    requires rows <= BOARD_SIZE
    ensures ScoreUpTo(b, Black, rows) == -ScoreUpTo(b, White, rows)
  {
    if rows > 0 {
      ScoreUpToAntisymmetric(b, rows - 1);
      RowScoreAntisymmetric(b, rows - 1, BOARD_SIZE);
    }
  }

  /** What is good for black is equally bad for white. */
  lemma EvaluateAntisymmetric(b: Board)
    ensures Evaluate(b, Black) == -Evaluate(b, White)
  {
    ScoreUpToAntisymmetric(b, BOARD_SIZE);
  }

  lemma {:induction false} RowScoreBounded(b: Board, player: Player, row: int, col: nat)
    requires 0 <= row < BOARD_SIZE && col <= BOARD_SIZE
    ensures -100 * col <= RowScore(b, player, row, col) <= 100 * col
  {
    if col > 0 {
      RowScoreBounded(b, player, row, col - 1);
    }
  }

  lemma {:induction false} ScoreUpToBounded(b: Board, player: Player, rows: nat)
    requires rows <= BOARD_SIZE
    ensures -800 * rows <= ScoreUpTo(b, player, rows) <= 800 * rows
  {
    if rows > 0 {
      ScoreUpToBounded(b, player, rows - 1);
      RowScoreBounded(b, player, rows - 1, BOARD_SIZE);
    }
  }

  const EVAL_BOUND: int := 7040

  /** |stone difference| <= 64 and every weight is at most 100 in size. */
  lemma EvaluateBounded(b: Board, player: Player)
    ensures -EVAL_BOUND <= Evaluate(b, player) <= EVAL_BOUND
  {
    CountTotal(b);
    ScoreUpToBounded(b, player, BOARD_SIZE);
  }

  // ---------------------------------------------------------------------
  // minimax: specification

  const NEG_INF: int := -1_000_000_000
  const POS_INF: int := 1_000_000_000

  /** No search value exceeds this in size: 100 times the largest evaluation. */
  const SEARCH_BOUND: int := 704000

  /** `currentPlayer`: the AI's colour on maximizing levels, the opponent's otherwise. */
  function SideToMove(isMaximizing: bool, player: Player): Player {
    if isMaximizing then player else GetOpponentColor(player)
  }

  /** 1 on a node where the side to move must pass; the pass step decreases it. */
  function PassRank(b: Board, depth: nat, isMaximizing: bool, player: Player): nat {
    if depth > 0 && |ValidMoves(b, SideToMove(isMaximizing, player))| == 0 then 1 else 0
  }

  /** After a pass the other side has a move, so at most one pass happens in a row. */
  lemma PassThenMove(b: Board, depth: nat, isMaximizing: bool, player: Player)
    requires depth > 0 && |ValidMoves(b, SideToMove(isMaximizing, player))| == 0
    requires |ValidMoves(b, GetOpponentColor(SideToMove(isMaximizing, player)))| > 0
    ensures PassRank(b, depth, isMaximizing, player) == 1
    ensures PassRank(b, depth, !isMaximizing, player) == 0
  {
  }

  /** The value `minimax(board, depth, isMaximizing, player, alpha, beta)` returns. */
  function AlphaBeta(b: Board, depth: nat, isMaximizing: bool, player: Player, alpha: int, beta: int): int
    decreases depth, 1 + PassRank(b, depth, isMaximizing, player), 0
  {
    if depth == 0 then Evaluate(b, player)
    else
      var currentPlayer := SideToMove(isMaximizing, player);
      var validMoves := ValidMoves(b, currentPlayer);
      if |validMoves| == 0 then
        if |ValidMoves(b, GetOpponentColor(currentPlayer))| == 0 then 100 * Evaluate(b, player)
        else AlphaBeta(b, depth, !isMaximizing, player, alpha, beta)
      else if isMaximizing then MaxLoop(b, depth, player, validMoves, 0, alpha, beta, NEG_INF)
      else MinLoop(b, depth, player, validMoves, 0, alpha, beta, POS_INF)
  }

  /** The maximizing `for` loop from move i on, with its running `alpha` and `maxEval`. */
  function MaxLoop(b: Board, depth: nat, player: Player, moves: seq<Move>, i: nat,
                   alpha: int, beta: int, maxEval: int): int
    requires 0 < depth && i <= |moves|
    requires forall m :: m in moves ==> WellFormed(m)
    decreases depth, 0, |moves| - i
  {
    if i == |moves| then maxEval
    else
      var evaluation := AlphaBeta(ApplyMove(b, moves[i], player), depth - 1, false, player, alpha, beta);
      var maxEval' := Max(maxEval, evaluation);
      var alpha' := Max(alpha, evaluation);
      if beta <= alpha' then maxEval'
      else MaxLoop(b, depth, player, moves, i + 1, alpha', beta, maxEval')
  }

  /** The minimizing `for` loop from move i on, with its running `beta` and `minEval`. */
  function MinLoop(b: Board, depth: nat, player: Player, moves: seq<Move>, i: nat,
                   alpha: int, beta: int, minEval: int): int
    requires 0 < depth && i <= |moves|
    requires forall m :: m in moves ==> WellFormed(m)
    decreases depth, 0, |moves| - i
  {
    if i == |moves| then minEval
    else
      var evaluation := AlphaBeta(ApplyMove(b, moves[i], GetOpponentColor(player)), depth - 1, true, player, alpha, beta);
      var minEval' := Min(minEval, evaluation);
      var beta' := Min(beta, evaluation);
      if beta' <= alpha then minEval'
      else MinLoop(b, depth, player, moves, i + 1, alpha, beta', minEval')
  }

  /** The same game tree searched without pruning. */
  function MinimaxValue(b: Board, depth: nat, isMaximizing: bool, player: Player): int
    decreases depth, 1 + PassRank(b, depth, isMaximizing, player), 0
  {
    if depth == 0 then Evaluate(b, player)
    else
      var currentPlayer := SideToMove(isMaximizing, player);
      var validMoves := ValidMoves(b, currentPlayer);
      if |validMoves| == 0 then
        if |ValidMoves(b, GetOpponentColor(currentPlayer))| == 0 then 100 * Evaluate(b, player)
        else MinimaxValue(b, depth, !isMaximizing, player)
      else if isMaximizing then MaxOf(b, depth, player, validMoves, 0, NEG_INF)
      else MinOf(b, depth, player, validMoves, 0, POS_INF)
  }

  /** The largest of `acc` and the values of the children from move i on. */
  function MaxOf(b: Board, depth: nat, player: Player, moves: seq<Move>, i: nat, acc: int): int
    requires 0 < depth && i <= |moves|
    requires forall m :: m in moves ==> WellFormed(m)
    decreases depth, 0, |moves| - i
  {
    if i == |moves| then acc
    else MaxOf(b, depth, player, moves, i + 1,
               Max(acc, MinimaxValue(ApplyMove(b, moves[i], player), depth - 1, false, player)))
  }

  /** The smallest of `acc` and the values of the children from move i on. */
  function MinOf(b: Board, depth: nat, player: Player, moves: seq<Move>, i: nat, acc: int): int
    requires 0 < depth && i <= |moves|
    requires forall m :: m in moves ==> WellFormed(m)
    decreases depth, 0, |moves| - i
  {
    if i == |moves| then acc
    else MinOf(b, depth, player, moves, i + 1,
               Min(acc, MinimaxValue(ApplyMove(b, moves[i], GetOpponentColor(player)), depth - 1, true, player)))
  }

  // ---------------------------------------------------------------------
  // minimax: the search value is bounded

  predicate InSearchBound(x: int) {
    -SEARCH_BOUND <= x <= SEARCH_BOUND
  }

  lemma {:induction false} MinimaxBounded(b: Board, depth: nat, isMaximizing: bool, player: Player)
    ensures InSearchBound(MinimaxValue(b, depth, isMaximizing, player))
    decreases depth, 1 + PassRank(b, depth, isMaximizing, player), 0
  {
    EvaluateBounded(b, player);
    if depth > 0 {
      var currentPlayer := SideToMove(isMaximizing, player);
      var validMoves := ValidMoves(b, currentPlayer);
      if |validMoves| == 0 {
        if |ValidMoves(b, GetOpponentColor(currentPlayer))| != 0 {
          MinimaxBounded(b, depth, !isMaximizing, player);
        }
      } else if isMaximizing {
        MaxOfBounded(b, depth, player, validMoves, 0, NEG_INF);
      } else {
        MinOfBounded(b, depth, player, validMoves, 0, POS_INF);
      }
    }
  }

  lemma {:induction false} MaxOfBounded(b: Board, depth: nat, player: Player, moves: seq<Move>, i: nat, acc: int)
    requires 0 < depth && i <= |moves|
    requires forall m :: m in moves ==> WellFormed(m)
    requires InSearchBound(acc) || (acc == NEG_INF && i < |moves|)
    ensures InSearchBound(MaxOf(b, depth, player, moves, i, acc))
    decreases depth, 0, |moves| - i
  {
    if i < |moves| {
      MinimaxBounded(ApplyMove(b, moves[i], player), depth - 1, false, player);
      MaxOfBounded(b, depth, player, moves, i + 1,
                   Max(acc, MinimaxValue(ApplyMove(b, moves[i], player), depth - 1, false, player)));
    }
  }

  lemma {:induction false} MinOfBounded(b: Board, depth: nat, player: Player, moves: seq<Move>, i: nat, acc: int)
    requires 0 < depth && i <= |moves|
    requires forall m :: m in moves ==> WellFormed(m)
    requires InSearchBound(acc) || (acc == POS_INF && i < |moves|)
    ensures InSearchBound(MinOf(b, depth, player, moves, i, acc))
    decreases depth, 0, |moves| - i
  {
    if i < |moves| {
      var child := ApplyMove(b, moves[i], GetOpponentColor(player));
      MinimaxBounded(child, depth - 1, true, player);
      MinOfBounded(b, depth, player, moves, i + 1, Min(acc, MinimaxValue(child, depth - 1, true, player)));
    }
  }

  // ---------------------------------------------------------------------
  // minimax: pruning does not change the value inside the window

  function Clamp(x: int, lo: int, hi: int): int {
    Max(lo, Min(x, hi))
  }

  /** Only max(lo, acc) matters to the clamped fold. */
  lemma {:induction false} MaxOfShift(b: Board, depth: nat, player: Player, moves: seq<Move>, i: nat,
                                      acc1: int, acc2: int, lo: int, hi: int)
    requires 0 < depth && i <= |moves|
    requires forall m :: m in moves ==> WellFormed(m)
    requires lo < hi && Max(lo, acc1) == Max(lo, acc2)
    ensures Clamp(MaxOf(b, depth, player, moves, i, acc1), lo, hi)
            == Clamp(MaxOf(b, depth, player, moves, i, acc2), lo, hi)
    decreases |moves| - i
  {
    if i < |moves| {
      var v := MinimaxValue(ApplyMove(b, moves[i], player), depth - 1, false, player);
      MaxOfShift(b, depth, player, moves, i + 1, Max(acc1, v), Max(acc2, v), lo, hi);
    }
  }

  /** Only min(acc, hi) matters to the clamped fold. */
  lemma {:induction false} MinOfShift(b: Board, depth: nat, player: Player, moves: seq<Move>, i: nat,
                                      acc1: int, acc2: int, lo: int, hi: int)
    requires 0 < depth && i <= |moves|
    requires forall m :: m in moves ==> WellFormed(m)
    requires lo < hi && Min(hi, acc1) == Min(hi, acc2)
    ensures Clamp(MinOf(b, depth, player, moves, i, acc1), lo, hi)
            == Clamp(MinOf(b, depth, player, moves, i, acc2), lo, hi)
    decreases |moves| - i
  {
    if i < |moves| {
      var v := MinimaxValue(ApplyMove(b, moves[i], GetOpponentColor(player)), depth - 1, true, player);
      MinOfShift(b, depth, player, moves, i + 1, Min(acc1, v), Min(acc2, v), lo, hi);
    }
  }

  lemma {:induction false} MaxOfAtLeast(b: Board, depth: nat, player: Player, moves: seq<Move>, i: nat, acc: int)
    requires 0 < depth && i <= |moves|
    requires forall m :: m in moves ==> WellFormed(m)
    ensures MaxOf(b, depth, player, moves, i, acc) >= acc
    decreases |moves| - i
  {
    if i < |moves| {
      var v := MinimaxValue(ApplyMove(b, moves[i], player), depth - 1, false, player);
      MaxOfAtLeast(b, depth, player, moves, i + 1, Max(acc, v));
    }
  }

  lemma {:induction false} MinOfAtMost(b: Board, depth: nat, player: Player, moves: seq<Move>, i: nat, acc: int)
    requires 0 < depth && i <= |moves|
    requires forall m :: m in moves ==> WellFormed(m)
    ensures MinOf(b, depth, player, moves, i, acc) <= acc
    decreases |moves| - i
  {
    if i < |moves| {
      var v := MinimaxValue(ApplyMove(b, moves[i], GetOpponentColor(player)), depth - 1, true, player);
      MinOfAtMost(b, depth, player, moves, i + 1, Min(acc, v));
    }
  }

  /**
   * Fail-soft alpha-beta agrees with plain minimax once both are clamped
   * to the window: exact inside it, and on the correct side outside it.
   */
  lemma {:induction false} AlphaBetaClamp(b: Board, depth: nat, isMaximizing: bool, player: Player, alpha: int, beta: int)
    requires NEG_INF <= alpha < beta <= POS_INF
    ensures Clamp(AlphaBeta(b, depth, isMaximizing, player, alpha, beta), alpha, beta)
            == Clamp(MinimaxValue(b, depth, isMaximizing, player), alpha, beta)
    decreases depth, 1 + PassRank(b, depth, isMaximizing, player), 0
  {
    if depth > 0 {
      var currentPlayer := SideToMove(isMaximizing, player);
      var validMoves := ValidMoves(b, currentPlayer);
      if |validMoves| == 0 {
        if |ValidMoves(b, GetOpponentColor(currentPlayer))| != 0 {
          AlphaBetaClamp(b, depth, !isMaximizing, player, alpha, beta);
        }
      } else if isMaximizing {
        MaxLoopClamp(b, depth, player, validMoves, 0, alpha, beta, NEG_INF, alpha);
      } else {
        MinLoopClamp(b, depth, player, validMoves, 0, alpha, beta, POS_INF, beta);
      }
    }
  }

  lemma {:induction false} MaxLoopClamp(b: Board, depth: nat, player: Player, moves: seq<Move>, i: nat,
                                        alpha: int, beta: int, maxEval: int, alpha0: int)
    requires 0 < depth && i <= |moves|
    requires forall m :: m in moves ==> WellFormed(m)
    requires NEG_INF <= alpha0 < beta <= POS_INF
    requires alpha == Max(alpha0, maxEval) && alpha < beta
    ensures Clamp(MaxLoop(b, depth, player, moves, i, alpha, beta, maxEval), alpha0, beta)
            == Clamp(MaxOf(b, depth, player, moves, i, maxEval), alpha0, beta)
    decreases depth, 0, |moves| - i
  {
    if i < |moves| {
      var child := ApplyMove(b, moves[i], player);
      var e := AlphaBeta(child, depth - 1, false, player, alpha, beta);
      var v := MinimaxValue(child, depth - 1, false, player);
      AlphaBetaClamp(child, depth - 1, false, player, alpha, beta);
      if beta <= Max(alpha, e) {
        MaxOfAtLeast(b, depth, player, moves, i + 1, Max(maxEval, v));
      } else {
        MaxLoopClamp(b, depth, player, moves, i + 1, Max(alpha, e), beta, Max(maxEval, e), alpha0);
        MaxOfShift(b, depth, player, moves, i + 1, Max(maxEval, e), Max(maxEval, v), alpha0, beta);
      }
    }
  }

  lemma {:induction false} MinLoopClamp(b: Board, depth: nat, player: Player, moves: seq<Move>, i: nat,
                                        alpha: int, beta: int, minEval: int, beta0: int)
    requires 0 < depth && i <= |moves|
    requires forall m :: m in moves ==> WellFormed(m)
    requires NEG_INF <= alpha < beta0 <= POS_INF
    requires beta == Min(beta0, minEval) && alpha < beta
    ensures Clamp(MinLoop(b, depth, player, moves, i, alpha, beta, minEval), alpha, beta0)
            == Clamp(MinOf(b, depth, player, moves, i, minEval), alpha, beta0)
    decreases depth, 0, |moves| - i
  {
    if i < |moves| {
      var child := ApplyMove(b, moves[i], GetOpponentColor(player));
      var e := AlphaBeta(child, depth - 1, true, player, alpha, beta);
      var v := MinimaxValue(child, depth - 1, true, player);
      AlphaBetaClamp(child, depth - 1, true, player, alpha, beta);
      if Min(beta, e) <= alpha {
        MinOfAtMost(b, depth, player, moves, i + 1, Min(minEval, v));
      } else {
        MinLoopClamp(b, depth, player, moves, i + 1, alpha, Min(beta, e), Min(minEval, e), beta0);
        MinOfShift(b, depth, player, moves, i + 1, Min(minEval, e), Min(minEval, v), alpha, beta0);
      }
    }
  }

  /** On the window (-Infinity, +Infinity) the pruned search returns the minimax value. */
  lemma AlphaBetaFullWindow(b: Board, depth: nat, isMaximizing: bool, player: Player)
    ensures AlphaBeta(b, depth, isMaximizing, player, NEG_INF, POS_INF) == MinimaxValue(b, depth, isMaximizing, player)
    ensures InSearchBound(AlphaBeta(b, depth, isMaximizing, player, NEG_INF, POS_INF))
  {
    AlphaBetaClamp(b, depth, isMaximizing, player, NEG_INF, POS_INF);
    MinimaxBounded(b, depth, isMaximizing, player);
  }

  // ---------------------------------------------------------------------
  // minimax: the search as written

  method Minimax(b: Board, depth: nat, isMaximizing: bool, player: Player, alpha: int, beta: int)
    returns (value: int)
    ensures value == AlphaBeta(b, depth, isMaximizing, player, alpha, beta)
    decreases depth, 1 + PassRank(b, depth, isMaximizing, player), 0
  {
    if depth == 0 {
      value := EvaluateBoard(b, player);
      return;
    }
    var currentPlayer := if isMaximizing then player else GetOpponentColor(player);
    var validMoves := GetValidMoves(b, currentPlayer);
    if |validMoves| == 0 {
      var opponentMoves := GetValidMoves(b, GetOpponentColor(currentPlayer));
      if |opponentMoves| == 0 {
        value := EvaluateBoard(b, player);
        value := value * 100;
        return;
      }
      value := Minimax(b, depth, !isMaximizing, player, alpha, beta);
      return;
    }
    if isMaximizing {
      value := MaxSearch(b, depth, player, validMoves, alpha, beta);
    } else {
      value := MinSearch(b, depth, player, validMoves, alpha, beta);
    }
  }

  lemma MaxLoopStep(b: Board, depth: nat, player: Player, moves: seq<Move>, i: nat,
                    alpha: int, beta: int, maxEval: int, evaluation: int)
    requires 0 < depth && i < |moves|
    requires forall m :: m in moves ==> WellFormed(m)
    requires evaluation == AlphaBeta(ApplyMove(b, moves[i], player), depth - 1, false, player, alpha, beta)
    ensures MaxLoop(b, depth, player, moves, i, alpha, beta, maxEval)
            == if beta <= Max(alpha, evaluation) then Max(maxEval, evaluation)
               else MaxLoop(b, depth, player, moves, i + 1, Max(alpha, evaluation), beta, Max(maxEval, evaluation))
  {
  }

  lemma MinLoopStep(b: Board, depth: nat, player: Player, moves: seq<Move>, i: nat,
                    alpha: int, beta: int, minEval: int, evaluation: int)
    requires 0 < depth && i < |moves|
    requires forall m :: m in moves ==> WellFormed(m)
    requires evaluation == AlphaBeta(ApplyMove(b, moves[i], GetOpponentColor(player)), depth - 1, true, player, alpha, beta)
    ensures MinLoop(b, depth, player, moves, i, alpha, beta, minEval)
            == if Min(beta, evaluation) <= alpha then Min(minEval, evaluation)
               else MinLoop(b, depth, player, moves, i + 1, alpha, Min(beta, evaluation), Min(minEval, evaluation))
  {
  }

  /** The maximizing loop of `minimax`, `break` included. */
  method MaxSearch(b: Board, depth: nat, player: Player, validMoves: seq<Move>, alpha0: int, beta: int)
    returns (maxEval: int)
    requires 0 < depth
    requires forall m :: m in validMoves ==> WellFormed(m)
    ensures maxEval == MaxLoop(b, depth, player, validMoves, 0, alpha0, beta, NEG_INF)
    decreases depth, 0, 0
  {
    ghost var target := MaxLoop(b, depth, player, validMoves, 0, alpha0, beta, NEG_INF);
    maxEval := NEG_INF;
    var alpha := alpha0;
    var i := 0;
    while i < |validMoves|
      invariant i <= |validMoves|
      invariant MaxLoop(b, depth, player, validMoves, i, alpha, beta, maxEval) == target
      decreases |validMoves| - i
    {
      var newBoard := MakeMove(b, validMoves[i], player);
      var evaluation := Minimax(newBoard, depth - 1, false, player, alpha, beta);
      MaxLoopStep(b, depth, player, validMoves, i, alpha, beta, maxEval, evaluation);
      maxEval := Max(maxEval, evaluation);
      alpha := Max(alpha, evaluation);
      if beta <= alpha {
        break;
      }
      i := i + 1;
    }
  }

  /** The minimizing loop of `minimax`, `break` included. */
  method MinSearch(b: Board, depth: nat, player: Player, validMoves: seq<Move>, alpha: int, beta0: int)
    returns (minEval: int)
    requires 0 < depth
    requires forall m :: m in validMoves ==> WellFormed(m)
    ensures minEval == MinLoop(b, depth, player, validMoves, 0, alpha, beta0, POS_INF)
    decreases depth, 0, 0
  {
    ghost var target := MinLoop(b, depth, player, validMoves, 0, alpha, beta0, POS_INF);
    minEval := POS_INF;
    var beta := beta0;
    var currentPlayer := GetOpponentColor(player);
    var i := 0;
    while i < |validMoves|
      invariant i <= |validMoves|
      invariant MinLoop(b, depth, player, validMoves, i, alpha, beta, minEval) == target
      decreases |validMoves| - i
    {
      var newBoard := MakeMove(b, validMoves[i], currentPlayer);
      var evaluation := Minimax(newBoard, depth - 1, true, player, alpha, beta);
      MinLoopStep(b, depth, player, validMoves, i, alpha, beta, minEval, evaluation);
      minEval := Min(minEval, evaluation);
      beta := Min(beta, evaluation);
      if beta <= alpha {
        break;
      }
      i := i + 1;
    }
  }
}
