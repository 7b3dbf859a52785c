/**
 * Move selection of utils/ai.ts: `getAIMove` and the four difficulty
 * strategies.
 *
 * `Math.random()` is the parameter `draw`; a strategy that draws twice
 * receives two of them.
 */
module Ai {
  import opened Wrappers
  import opened GameTypes
  import opened GameLogic
  import opened BoardProperties
  import opened Search
  import opened Random

  const CORNER_POSITIONS: seq<Position> := [Position(0, 0), Position(0, 7), Position(7, 0), Position(7, 7)]

  predicate IsCornerMove(m: Move) {
    m.position in CORNER_POSITIONS
  }

  // ---------------------------------------------------------------------
  // The earliest maximum: what both `reduce` (strict `>`) and the
  // `score > bestScore` loop keep, and the head of a stable descending sort

  predicate IsFirstBest(scores: seq<int>, k: int) {
    && 0 <= k < |scores|
    && (forall j :: 0 <= j < |scores| ==> scores[j] <= scores[k])
    && (forall j :: 0 <= j < k ==> scores[j] < scores[k])
  }

  /** `best` is the earliest maximum of the first i scores. */
  predicate BestSoFar(scores: seq<int>, i: int, best: int) {
    && 0 <= best < i <= |scores|
    && (forall j :: 0 <= j < i ==> scores[j] <= scores[best])
    && (forall j :: 0 <= j < best ==> scores[j] < scores[best])
  }

  /** The fold `reduce((best, x) => x > best ? x : best)` over the indices from i on. */
  function BestFrom(scores: seq<int>, i: nat, best: nat): (k: nat)
    requires BestSoFar(scores, i, best)
    ensures IsFirstBest(scores, k)
    decreases |scores| - i
  {
    if i == |scores| then best
    else BestFrom(scores, i + 1, if scores[i] > scores[best] then i else best)
  }

  /** One step of the fold keeps the earliest maximum. */
  lemma BestStep(scores: seq<int>, i: nat, best: nat)
    requires BestSoFar(scores, i, best) && i < |scores|
    ensures var best' := if scores[i] > scores[best] then i else best;
      BestSoFar(scores, i + 1, best') && BestFrom(scores, i, best) == BestFrom(scores, i + 1, best')
  {
  }

  function FirstBest(scores: seq<int>): (k: nat)
    requires |scores| > 0
    ensures IsFirstBest(scores, k)
  {
    BestFrom(scores, 1, 0)
  }

  /** There is only one earliest maximum. */
  lemma FirstBestUnique(scores: seq<int>, k1: int, k2: int)
    requires IsFirstBest(scores, k1) && IsFirstBest(scores, k2)
    ensures k1 == k2
  {
    assert scores[k1] == scores[k2];
  }

  function FlipCounts(moves: seq<Move>): (counts: seq<int>)
    ensures |counts| == |moves|
    ensures forall i :: 0 <= i < |moves| ==> counts[i] == |moves[i].flippedPositions|
  {
    seq(|moves|, i requires 0 <= i < |moves| => |moves[i].flippedPositions|)
  }

  /** The first move with the most flips. */
  function MostFlips(moves: seq<Move>): (m: Move)
    requires |moves| > 0
    ensures m in moves
  {
    moves[FirstBest(FlipCounts(moves))]
  }

  /** MostFlips is the earliest move whose flip count no other move exceeds. */
  lemma MostFlipsSpec(moves: seq<Move>)
    requires |moves| > 0
    ensures exists k :: 0 <= k < |moves| && MostFlips(moves) == moves[k]
                        && (forall j :: 0 <= j < |moves| ==> |moves[j].flippedPositions| <= |moves[k].flippedPositions|)
                        && (forall j :: 0 <= j < k ==> |moves[j].flippedPositions| < |moves[k].flippedPositions|)
  {
    var k := FirstBest(FlipCounts(moves));
    assert IsFirstBest(FlipCounts(moves), k);
  }

  // ---------------------------------------------------------------------
  // beginner and intermediate

  function GetRandomMove(validMoves: seq<Move>, draw: real): (m: Move)
    requires |validMoves| > 0 && IsDraw(draw)
    ensures m in validMoves
  {
    validMoves[RandomIndex(draw, |validMoves|)]
  }

  /** The head of the copy sorted by descending flip count with probability 0.7, else a random move. */
  function GetIntermediateMove(validMoves: seq<Move>, draw: real, draw2: real): (m: Move)
    requires |validMoves| > 0 && IsDraw(draw) && IsDraw(draw2)
    ensures m in validMoves
    ensures draw < 0.7 ==> m == MostFlips(validMoves)
    ensures draw >= 0.7 ==> m == GetRandomMove(validMoves, draw2)
  {
    if draw < 0.7 then MostFlips(validMoves) else GetRandomMove(validMoves, draw2)
  }

  // ---------------------------------------------------------------------
  // advanced

  function CornerMoves(moves: seq<Move>): (corners: seq<Move>)
    ensures forall m :: m in corners ==> m in moves && IsCornerMove(m)
    ensures forall m :: m in moves && IsCornerMove(m) ==> m in corners
    ensures (forall i :: 0 <= i < |moves| ==> !IsCornerMove(moves[i])) ==> corners == []
  {
    if moves == [] then []
    else (if IsCornerMove(moves[0]) then [moves[0]] else []) + CornerMoves(moves[1..])
  }

  /** Whether the opponent could take a corner right after `move`. */
  predicate GivesCornerToOpponent(b: Board, move: Move, player: Player)
    requires WellFormed(move)
  {
    var opponentMoves := ValidMoves(ApplyMove(b, move, player), GetOpponentColor(player));
    exists i :: 0 <= i < |opponentMoves| && IsCornerMove(opponentMoves[i])
  }

  function SafeMoves(b: Board, player: Player, moves: seq<Move>): (safe: seq<Move>)
    requires forall m :: m in moves ==> WellFormed(m)
    ensures forall m :: m in safe ==> m in moves && !GivesCornerToOpponent(b, m, player)
    ensures forall m :: m in moves && !GivesCornerToOpponent(b, m, player) ==> m in safe
  {
    if moves == [] then []
    else (if !GivesCornerToOpponent(b, moves[0], player) then [moves[0]] else []) + SafeMoves(b, player, moves[1..])
  }

  lemma ConcatAssoc(h: seq<Move>, rest: seq<Move>, tail: seq<Move>)
    ensures h + (rest + tail) == (h + rest) + tail
  {
  }

  /** The corner filter keeps the moves' order: filtering a concatenation concatenates the filtered parts. */
  lemma {:induction false} CornerMovesAppend(xs: seq<Move>, ys: seq<Move>)
    ensures CornerMoves(xs + ys) == CornerMoves(xs) + CornerMoves(ys)
  {
    if xs == [] {
      assert xs + ys == ys;
    } else {
      assert (xs + ys)[0] == xs[0];
      assert (xs + ys)[1..] == xs[1..] + ys;
      CornerMovesAppend(xs[1..], ys);
    }
  }

  /** The safe filter keeps the moves' order, so the tie-break among safe moves follows the move list. */
  lemma {:induction false} SafeMovesAppend(b: Board, player: Player, xs: seq<Move>, ys: seq<Move>)
    requires forall m :: m in xs ==> WellFormed(m)
    requires forall m :: m in ys ==> WellFormed(m)
    ensures SafeMoves(b, player, xs + ys) == SafeMoves(b, player, xs) + SafeMoves(b, player, ys)
  {
    assert forall m :: m in xs + ys ==> WellFormed(m);
    if xs == [] {
      assert xs + ys == ys;
    } else {
      var zs := xs + ys;
      assert zs[0] == xs[0];
      assert zs[1..] == xs[1..] + ys;
      assert forall m :: m in xs[1..] ==> m in xs;
      SafeMovesAppend(b, player, xs[1..], ys);
      var h := if !GivesCornerToOpponent(b, xs[0], player) then [xs[0]] else [];
      var rest, tail := SafeMoves(b, player, xs[1..]), SafeMoves(b, player, ys);
      assert SafeMoves(b, player, zs) == h + (rest + tail);
      assert SafeMoves(b, player, xs) == h + rest;
      ConcatAssoc(h, rest, tail);
    }
  }

  function GetAdvancedMove(b: Board, player: Player, validMoves: seq<Move>): (m: Move)
    requires |validMoves| > 0
    requires forall m :: m in validMoves ==> WellFormed(m)
    ensures m in validMoves
  {
    var cornerMoves := CornerMoves(validMoves);
    if |cornerMoves| > 0 then cornerMoves[0]
    else
      var safeMoves := SafeMoves(b, player, validMoves);
      if |safeMoves| > 0 then MostFlips(safeMoves) else MostFlips(validMoves)
  }

  /** The first corner move of the list is the first entry that is a corner move. */
  lemma {:induction false} FirstCornerMove(moves: seq<Move>)
    requires |CornerMoves(moves)| > 0
    ensures exists k :: 0 <= k < |moves| && CornerMoves(moves)[0] == moves[k]
                        && IsCornerMove(moves[k]) && forall j :: 0 <= j < k ==> !IsCornerMove(moves[j])
  {
    if !IsCornerMove(moves[0]) {
      assert CornerMoves(moves) == CornerMoves(moves[1..]);
      FirstCornerMove(moves[1..]);
      var k :| 0 <= k < |moves[1..]| && CornerMoves(moves[1..])[0] == moves[1..][k]
               && IsCornerMove(moves[1..][k]) && forall j :: 0 <= j < k ==> !IsCornerMove(moves[1..][j]);
      assert moves[k + 1] == moves[1..][k];
      forall j | 0 <= j < k + 1 ensures !IsCornerMove(moves[j]) {
        if j > 0 {
          assert moves[j] == moves[1..][j - 1];
        }
      }
    }
  }

  /**
   * Advanced play takes the first legal corner; failing that, the first
   * move with the most flips among those that give the opponent no corner;
   * failing that, the first move with the most flips overall.
   */
  lemma AdvancedMoveSpec(b: Board, player: Player, validMoves: seq<Move>)
    requires |validMoves| > 0
    requires forall m :: m in validMoves ==> WellFormed(m)
    ensures var m := GetAdvancedMove(b, player, validMoves);
      && ((exists i :: 0 <= i < |validMoves| && IsCornerMove(validMoves[i])) ==>
            exists k :: 0 <= k < |validMoves| && m == validMoves[k]
                        && IsCornerMove(m) && forall j :: 0 <= j < k ==> !IsCornerMove(validMoves[j]))
      && ((forall i :: 0 <= i < |validMoves| ==> !IsCornerMove(validMoves[i])) ==>
            var safe := SafeMoves(b, player, validMoves);
            if |safe| > 0 then
              !GivesCornerToOpponent(b, m, player) && m == MostFlips(safe)
              && forall s :: s in safe ==> |s.flippedPositions| <= |m.flippedPositions|
            else
              (forall v :: v in validMoves ==> GivesCornerToOpponent(b, v, player))
              && m == MostFlips(validMoves)
              && forall v :: v in validMoves ==> |v.flippedPositions| <= |m.flippedPositions|)
  {
    var corners := CornerMoves(validMoves);
    if exists i :: 0 <= i < |validMoves| && IsCornerMove(validMoves[i]) {
      var i :| 0 <= i < |validMoves| && IsCornerMove(validMoves[i]);
      assert validMoves[i] in corners;
      FirstCornerMove(validMoves);
    } else {
      var safe := SafeMoves(b, player, validMoves);
      if |safe| > 0 {
        MostFlipsSpec(safe);
      } else {
        MostFlipsSpec(validMoves);
        forall v | v in validMoves ensures GivesCornerToOpponent(b, v, player) {
          assert v !in safe;
        }
      }
    }
  }

  // ---------------------------------------------------------------------
  // extreme

  /** The depth-3 minimax value of each move, the opponent to reply. */
  function ExtremeScores(b: Board, player: Player, moves: seq<Move>): (scores: seq<int>)
    requires forall m :: m in moves ==> WellFormed(m)
    ensures |scores| == |moves|
  {
    seq(|moves|, i requires 0 <= i < |moves| => MinimaxValue(ApplyMove(b, moves[i], player), 3, false, player))
  }

  function ExtremeMove(b: Board, player: Player, validMoves: seq<Move>): (m: Move)
    requires |validMoves| > 0
    requires forall m :: m in validMoves ==> WellFormed(m)
  {
    validMoves[FirstBest(ExtremeScores(b, player, validMoves))]
  }

  /** One pass of the loop: play the move, then search three plies with the opponent to reply. */
  method ScoreMove(b: Board, player: Player, move: Move) returns (score: int)
    requires WellFormed(move)
    ensures score == MinimaxValue(ApplyMove(b, move, player), 3, false, player)
    ensures InSearchBound(score)
  {
    var newBoard := MakeMove(b, move, player);
    score := Minimax(newBoard, 3, false, player, NEG_INF, POS_INF);
    AlphaBetaFullWindow(newBoard, 3, false, player);
  }

  /** The `for` loop of `getExtremeMove`: keep the first move whose score beats all before it. */
  method GetExtremeMove(b: Board, player: Player, validMoves: seq<Move>) returns (bestMove: Move)
    requires |validMoves| > 0
    requires forall m :: m in validMoves ==> WellFormed(m)
    ensures bestMove == ExtremeMove(b, player, validMoves)
  {
    ghost var scores := ExtremeScores(b, player, validMoves);
    bestMove := validMoves[0];
    var bestScore := NEG_INF;
    ghost var k := 0;
    for i := 0 to |validMoves|
      invariant k < |validMoves| && bestMove == validMoves[k]
      invariant i == 0 ==> bestScore == NEG_INF && k == 0
      invariant i > 0 ==> BestSoFar(scores, i, k) && bestScore == scores[k]
                          && BestFrom(scores, i, k) == FirstBest(scores)
    {
      var score := ScoreMove(b, player, validMoves[i]);
      assert score == scores[i];
      if i > 0 {
        BestStep(scores, i, k);
      }
      if score > bestScore {
        bestScore := score;
        bestMove := validMoves[i];
        k := i;
      }
    }
  }

  /** Extreme play returns the first legal move whose depth-3 minimax value is largest. */
  lemma ExtremeMoveSpec(b: Board, player: Player, validMoves: seq<Move>)
    requires |validMoves| > 0
    requires forall m :: m in validMoves ==> WellFormed(m)
    ensures exists k :: IsFirstBest(ExtremeScores(b, player, validMoves), k)
                        && ExtremeMove(b, player, validMoves) == validMoves[k]
  {
    var k := FirstBest(ExtremeScores(b, player, validMoves));
    assert IsFirstBest(ExtremeScores(b, player, validMoves), k);
  }

  // ---------------------------------------------------------------------
  // getAIMove

  /** The move `getAIMove` returns, as a function of the board and the random draws. */
  function AIMove(b: Board, player: Player, difficulty: Difficulty, draw: real, draw2: real): (r: Option<Move>)
    requires IsDraw(draw) && IsDraw(draw2)
  {
    var validMoves := ValidMoves(b, player);
    if |validMoves| == 0 then None
    else
      match difficulty
      case Beginner => Some(GetRandomMove(validMoves, draw))
      case Intermediate => Some(GetIntermediateMove(validMoves, draw, draw2))
      case Advanced => Some(GetAdvancedMove(b, player, validMoves))
      case Extreme => Some(ExtremeMove(b, player, validMoves))
  }

  /** No move exactly when the player has none; otherwise always one of the legal moves. */
  lemma AIMoveIsLegal(b: Board, player: Player, difficulty: Difficulty, draw: real, draw2: real)
    requires IsDraw(draw) && IsDraw(draw2)
    ensures AIMove(b, player, difficulty, draw, draw2).None? <==> |ValidMoves(b, player)| == 0
    ensures AIMove(b, player, difficulty, draw, draw2).Some? ==>
              AIMove(b, player, difficulty, draw, draw2).value in ValidMoves(b, player)
  {
    var validMoves := ValidMoves(b, player);
    if |validMoves| > 0 && difficulty == Extreme {
      var k := FirstBest(ExtremeScores(b, player, validMoves));
      assert validMoves[k] in validMoves;
    }
  }

  method GetAIMove(b: Board, player: Player, difficulty: Difficulty, draw: real, draw2: real)
    returns (move: Option<Move>)
    requires IsDraw(draw) && IsDraw(draw2)
    ensures move == AIMove(b, player, difficulty, draw, draw2)
  {
    var validMoves := GetValidMoves(b, player);
    if |validMoves| == 0 {
      return None;
    }
    match difficulty {
      case Beginner =>
        move := Some(GetRandomMove(validMoves, draw));
      case Intermediate =>
        move := Some(GetIntermediateMove(validMoves, draw, draw2));
      case Advanced =>
        move := Some(GetAdvancedMove(b, player, validMoves));
      case Extreme =>
        var extremeMove := GetExtremeMove(b, player, validMoves);
        move := Some(extremeMove);
    }
  }
}
