/**
 * The cheat engine of utils/cheating.ts: when the AI cheats, which black
 * stones it turns white, and how a challenge checks a cheat.
 *
 * The random choices are inputs: `Math.random()` draws are reals in
 * [0, 1); the per-corner coin of the intermediate filter is the function
 * `keepCorner`; the random shuffle followed by `slice` is `picks`, which
 * names, one after another, which remaining candidate to take next.
 */
module Cheating {
  import opened Wrappers
  import opened GameTypes
  import opened GameLogic
  import opened BoardProperties
  import opened Random
  import opened Numbers

  function CheatProbability(difficulty: Difficulty): real {
    match difficulty
    case Beginner => 0.15
    case Intermediate => 0.25
    case Advanced => 0.35
    case Extreme => 0.45
  }

  function MaxCheatsPerGame(difficulty: Difficulty): nat {
    match difficulty
    case Beginner => 2
    case Intermediate => 3
    case Advanced => 4
    case Extreme => 6
  }

  /** The record `performCheat` returns; its `timestamp` is left out. */
  datatype CheatRecord = CheatRecord(turn: int, originalBoard: Board, cheatedBoard: Board, positions: seq<Position>)

  // ---------------------------------------------------------------------
  // shouldCheat

  /**
   * The AI cheats only from turn 10 on, below the difficulty's cap, at
   * least 3 turns after its last cheat, and when the draw falls below the
   * difficulty's probability.
   */
  function ShouldCheat(difficulty: Difficulty, turn: int, previousCheats: seq<CheatRecord>, draw: real): (r: bool)
    ensures r <==>
              && turn >= 10
              && |previousCheats| < MaxCheatsPerGame(difficulty)
              && (|previousCheats| == 0 || turn - previousCheats[|previousCheats| - 1].turn >= 3)
              && draw < CheatProbability(difficulty)
  {
    if turn < 10 then false
    else if |previousCheats| >= MaxCheatsPerGame(difficulty) then false
    else if |previousCheats| > 0 && turn - previousCheats[|previousCheats| - 1].turn < 3 then false
    else draw < CheatProbability(difficulty)
  }

  // ---------------------------------------------------------------------
  // isCorner / isEdge

  predicate IsCorner(pos: Position) {
    (pos.row == 0 || pos.row == 7) && (pos.col == 0 || pos.col == 7)
  }

  predicate IsEdge(pos: Position) {
    pos.row == 0 || pos.row == 7 || pos.col == 0 || pos.col == 7
  }

  // ---------------------------------------------------------------------
  // getCheatPositions: collecting the black stones

  function RowBlacks(b: Board, row: int, col: nat): seq<Position>
    requires 0 <= row < BOARD_SIZE && col <= BOARD_SIZE
  {
    if col == 0 then []
    else RowBlacks(b, row, col - 1) + (if b[row][col - 1] == Black then [Position(row, col - 1)] else [])
  }

  function BlacksUpTo(b: Board, rows: nat): seq<Position>
    requires rows <= BOARD_SIZE
  {
    if rows == 0 then [] else BlacksUpTo(b, rows - 1) + RowBlacks(b, rows - 1, BOARD_SIZE)
  }

  /** The black stones in row-major order. */
  function BlackStones(b: Board): seq<Position> {
    BlacksUpTo(b, BOARD_SIZE)
  }

  method CollectBlackStones(b: Board) returns (blackStones: seq<Position>)
    ensures blackStones == BlackStones(b)
  {
    blackStones := [];
    for row := 0 to BOARD_SIZE
      invariant blackStones == BlacksUpTo(b, row)
    {
      for col := 0 to BOARD_SIZE
        invariant blackStones == BlacksUpTo(b, row) + RowBlacks(b, row, col)
      {
        if b[row][col] == Black {
          blackStones := blackStones + [Position(row, col)];
        }
      }
    }
  }

  lemma {:induction false} RowBlacksMem(b: Board, row: int, col: nat, p: Position)
    requires 0 <= row < BOARD_SIZE && col <= BOARD_SIZE
    ensures p in RowBlacks(b, row, col) <==> p.row == row && 0 <= p.col < col && b[row][p.col] == Black
  {
    if col > 0 {
      RowBlacksMem(b, row, col - 1, p);
    }
  }

  lemma {:induction false} BlacksUpToMem(b: Board, rows: nat, p: Position)
    requires rows <= BOARD_SIZE
    ensures p in BlacksUpTo(b, rows) <==> 0 <= p.row < rows && 0 <= p.col < BOARD_SIZE && b[p.row][p.col] == Black
  {
    if rows > 0 {
      BlacksUpToMem(b, rows - 1, p);
      RowBlacksMem(b, rows - 1, BOARD_SIZE, p);
    }
  }

  /** `blackStones` holds exactly the cells with a black stone. */
  lemma BlackStonesMem(b: Board, p: Position)
    ensures p in BlackStones(b) <==> InBounds(p) && CellAt(b, p) == Black
  {
    BlacksUpToMem(b, BOARD_SIZE, p);
  }

  predicate Increasing(s: seq<Position>) {
    forall i, j :: 0 <= i < j < |s| ==> Index(s[i]) < Index(s[j])
  }

  lemma IncreasingConcat(a: seq<Position>, c: seq<Position>)
    requires Increasing(a) && Increasing(c)
    requires forall i, j :: 0 <= i < |a| && 0 <= j < |c| ==> Index(a[i]) < Index(c[j])
    ensures Increasing(a + c)
  {
    forall i, j | 0 <= i < j < |a + c| ensures Index((a + c)[i]) < Index((a + c)[j]) {
      if j < |a| {
        assert (a + c)[i] == a[i] && (a + c)[j] == a[j];
      } else if i >= |a| {
        assert (a + c)[i] == c[i - |a|] && (a + c)[j] == c[j - |a|];
      } else {
        assert (a + c)[i] == a[i] && (a + c)[j] == c[j - |a|];
      }
    }
  }

  lemma {:induction false} RowBlacksIncreasing(b: Board, row: int, col: nat)
    requires 0 <= row < BOARD_SIZE && col <= BOARD_SIZE
    ensures Increasing(RowBlacks(b, row, col))
    ensures forall i :: 0 <= i < |RowBlacks(b, row, col)| ==>
              RowBlacks(b, row, col)[i].row == row && 0 <= RowBlacks(b, row, col)[i].col < col
  {
    if col > 0 {
      RowBlacksIncreasing(b, row, col - 1);
      var prev := RowBlacks(b, row, col - 1);
      var extra := if b[row][col - 1] == Black then [Position(row, col - 1)] else [];
      assert RowBlacks(b, row, col) == prev + extra;
      IncreasingConcat(prev, extra);
      forall i | 0 <= i < |prev + extra| ensures (prev + extra)[i].row == row && 0 <= (prev + extra)[i].col < col {
        if i < |prev| {
          assert (prev + extra)[i] == prev[i];
        } else {
          assert (prev + extra)[i] == extra[i - |prev|];
        }
      }
    }
  }

  lemma {:induction false} BlacksUpToIncreasing(b: Board, rows: nat)
    requires rows <= BOARD_SIZE
    ensures Increasing(BlacksUpTo(b, rows))
    ensures forall i :: 0 <= i < |BlacksUpTo(b, rows)| ==>
              0 <= BlacksUpTo(b, rows)[i].row < rows && 0 <= BlacksUpTo(b, rows)[i].col < BOARD_SIZE
  {
    if rows > 0 {
      BlacksUpToIncreasing(b, rows - 1);
      RowBlacksIncreasing(b, rows - 1, BOARD_SIZE);
      var prev, last := BlacksUpTo(b, rows - 1), RowBlacks(b, rows - 1, BOARD_SIZE);
      assert BlacksUpTo(b, rows) == prev + last;
      IncreasingConcat(prev, last);
      forall i | 0 <= i < |prev + last|
        ensures 0 <= (prev + last)[i].row < rows && 0 <= (prev + last)[i].col < BOARD_SIZE
      {
        if i < |prev| {
          assert (prev + last)[i] == prev[i];
        } else {
          assert (prev + last)[i] == last[i - |prev|];
        }
      }
    }
  }

  /** The black stones are collected in row-major order, so none repeats. */
  lemma BlackStonesDistinct(b: Board)
    ensures Increasing(BlackStones(b))
    ensures Distinct(BlackStones(b))
  {
    BlacksUpToIncreasing(b, BOARD_SIZE);
  }

  // ---------------------------------------------------------------------
  // getCheatPositions: the extreme filter's neighbour count

  function Occupied(b: Board, r: int, c: int): nat {
    if IsValidPosition(r, c) && b[r][c] != Empty then 1 else 0
  }

  /** Occupied neighbours of `pos` in row offset dr, for column offsets below dcEnd. */
  function RowNeighbours(b: Board, pos: Position, dr: int, dcEnd: int): nat
    requires -1 <= dcEnd <= 2
    decreases dcEnd + 1
  {
    if dcEnd == -1 then 0
    else RowNeighbours(b, pos, dr, dcEnd - 1)
         + (if dr == 0 && dcEnd - 1 == 0 then 0 else Occupied(b, pos.row + dr, pos.col + dcEnd - 1))
  }

  /** Occupied neighbours of `pos` for row offsets below drEnd. */
  function NeighboursUpTo(b: Board, pos: Position, drEnd: int): nat
    requires -1 <= drEnd <= 2
    decreases drEnd + 1
  {
    if drEnd == -1 then 0 else NeighboursUpTo(b, pos, drEnd - 1) + RowNeighbours(b, pos, drEnd - 1, 2)
  }

  /** `surroundedCount`: how many of the eight neighbours are on the board and occupied. */
  function SurroundedCount(b: Board, pos: Position): nat {
    NeighboursUpTo(b, pos, 2)
  }

  method CountSurrounded(b: Board, pos: Position) returns (surroundedCount: nat)
    ensures surroundedCount == SurroundedCount(b, pos)
  {
    surroundedCount := 0;
    for dr := -1 to 2
      invariant surroundedCount == NeighboursUpTo(b, pos, dr)
    {
      for dc := -1 to 2
        invariant surroundedCount == NeighboursUpTo(b, pos, dr) + RowNeighbours(b, pos, dr, dc)
      {
        if dr == 0 && dc == 0 {
          continue;
        }
        var r := pos.row + dr;
        var c := pos.col + dc;
        if IsValidPosition(r, c) && b[r][c] != Empty {
          surroundedCount := surroundedCount + 1;
        }
      }
    }
  }

  lemma {:induction false} RowNeighboursBounded(b: Board, pos: Position, dr: int, dcEnd: int)
    requires -1 <= dcEnd <= 2
    ensures RowNeighbours(b, pos, dr, dcEnd) <= dcEnd + 1 - (if dr == 0 && dcEnd >= 1 then 1 else 0)
    decreases dcEnd + 1
  {
    if dcEnd > -1 {
      RowNeighboursBounded(b, pos, dr, dcEnd - 1);
    }
  }

  lemma {:induction false} NeighboursUpToBounded(b: Board, pos: Position, drEnd: int)
    requires -1 <= drEnd <= 2
    ensures NeighboursUpTo(b, pos, drEnd) <= 3 * (drEnd + 1) - (if drEnd >= 1 then 1 else 0)
    decreases drEnd + 1
  {
    if drEnd > -1 {
      NeighboursUpToBounded(b, pos, drEnd - 1);
      RowNeighboursBounded(b, pos, drEnd - 1, 2);
    }
  }

  /** A cell has at most eight neighbours. */
  lemma SurroundedCountBounded(b: Board, pos: Position)
    ensures SurroundedCount(b, pos) <= 8
  {
    NeighboursUpToBounded(b, pos, 2);
  }

  // ---------------------------------------------------------------------
  // getCheatPositions: the difficulty filters

  /** Intermediate: every non-corner stone, and a corner stone when its coin says so. */
  function IntermediateStones(stones: seq<Position>, keepCorner: Position -> bool): (r: seq<Position>)
    ensures forall p :: p in r <==> p in stones && (!IsCorner(p) || keepCorner(p))
  {
    if stones == [] then []
    else
      var last := stones[|stones| - 1];
      assert stones == stones[..|stones| - 1] + [last];
      IntermediateStones(stones[..|stones| - 1], keepCorner) + (if !IsCorner(last) || keepCorner(last) then [last] else [])
  }

  /** Advanced: the stones off the corners and edges. */
  function InteriorStones(stones: seq<Position>): (r: seq<Position>)
    ensures forall p :: p in r <==> p in stones && !IsCorner(p) && !IsEdge(p)
  {
    if stones == [] then []
    else
      var last := stones[|stones| - 1];
      assert stones == stones[..|stones| - 1] + [last];
      InteriorStones(stones[..|stones| - 1]) + (if !IsCorner(last) && !IsEdge(last) then [last] else [])
  }

  /** Extreme: the stones with at least four occupied neighbours. */
  function SurroundedStones(b: Board, stones: seq<Position>): (r: seq<Position>)
    ensures forall p :: p in r <==> p in stones && SurroundedCount(b, p) >= 4
  {
    if stones == [] then []
    else
      var last := stones[|stones| - 1];
      assert stones == stones[..|stones| - 1] + [last];
      SurroundedStones(b, stones[..|stones| - 1]) + (if SurroundedCount(b, last) >= 4 then [last] else [])
  }

  /** The `filter` of the extreme branch, its callback's loop included. */
  method FilterSurrounded(b: Board, blackStones: seq<Position>) returns (candidates: seq<Position>)
    ensures candidates == SurroundedStones(b, blackStones)
  {
    candidates := [];
    for i := 0 to |blackStones|
      invariant candidates == SurroundedStones(b, blackStones[..i])
    {
      var surroundedCount := CountSurrounded(b, blackStones[i]);
      assert blackStones[..i + 1][..i] == blackStones[..i];
      if surroundedCount >= 4 {
        candidates := candidates + [blackStones[i]];
      }
    }
    assert blackStones[..|blackStones|] == blackStones;
  }

  function Candidates(b: Board, difficulty: Difficulty, blackStones: seq<Position>, keepCorner: Position -> bool)
    : (candidates: seq<Position>)
    ensures forall p :: p in candidates ==> p in blackStones
    ensures difficulty == Beginner ==> candidates == blackStones
    ensures difficulty == Advanced && (exists q :: q in blackStones && !IsCorner(q) && !IsEdge(q)) ==>
              forall p :: p in candidates ==> !IsCorner(p) && !IsEdge(p)
    ensures difficulty == Advanced && (forall q :: q in blackStones ==> IsCorner(q) || IsEdge(q)) ==>
              candidates == blackStones
    ensures difficulty == Extreme && (exists q :: q in blackStones && SurroundedCount(b, q) >= 4) ==>
              forall p :: p in candidates ==> SurroundedCount(b, p) >= 4
    ensures difficulty == Extreme && (forall q :: q in blackStones ==> SurroundedCount(b, q) < 4) ==>
              candidates == blackStones
  {
    match difficulty
    case Beginner => blackStones
    case Intermediate => IntermediateStones(blackStones, keepCorner)
    case Advanced =>
      var interior := InteriorStones(blackStones);
      if |interior| == 0 then blackStones else assert interior[0] in interior; interior
    case Extreme =>
      var surrounded := SurroundedStones(b, blackStones);
      if |surrounded| == 0 then blackStones else assert surrounded[0] in surrounded; surrounded
  }

  // ---------------------------------------------------------------------
  // getCheatPositions: shuffle and slice

  /** Take n candidates, each time the one `picks` names among those still left. */
  function Pick(candidates: seq<Position>, picks: seq<nat>, n: nat): seq<Position>
    decreases n
  {
    if n == 0 || candidates == [] then []
    else
      var j := if picks == [] then 0 else picks[0] % |candidates|;
      [candidates[j]] + Pick(candidates[..j] + candidates[j + 1..], if picks == [] then [] else picks[1..], n - 1)
  }

  lemma DistinctRemove(s: seq<Position>, j: int)
    requires Distinct(s) && 0 <= j < |s|
    ensures Distinct(s[..j] + s[j + 1..])
    ensures forall p :: p in s[..j] + s[j + 1..] <==> p in s && p != s[j]
  {
    var t := s[..j] + s[j + 1..];
    forall i1, i2 | 0 <= i1 < i2 < |t| ensures t[i1] != t[i2] {
      var k1 := if i1 < j then i1 else i1 + 1;
      var k2 := if i2 < j then i2 else i2 + 1;
      assert t[i1] == s[k1] && t[i2] == s[k2];
    }
    forall p ensures p in t <==> p in s && p != s[j] {
      if p in s && p != s[j] {
        var k :| 0 <= k < |s| && s[k] == p;
        if k < j {
          assert t[k] == p;
        } else {
          assert t[k - 1] == p;
        }
      }
      if p in t {
        var i :| 0 <= i < |t| && t[i] == p;
        var k := if i < j then i else i + 1;
        assert s[k] == p && k != j;
      }
    }
  }

  /** The selection has min(n, |candidates|) distinct members, all of them candidates. */
  lemma {:induction false} PickSpec(candidates: seq<Position>, picks: seq<nat>, n: nat)
    requires Distinct(candidates)
    ensures |Pick(candidates, picks, n)| == Min(n, |candidates|)
    ensures forall p :: p in Pick(candidates, picks, n) ==> p in candidates
    ensures Distinct(Pick(candidates, picks, n))
    decreases n
  {
    if n > 0 && candidates != [] {
      var j := if picks == [] then 0 else picks[0] % |candidates|;
      var rest := candidates[..j] + candidates[j + 1..];
      var more := if picks == [] then [] else picks[1..];
      var tail := Pick(rest, more, n - 1);
      assert Pick(candidates, picks, n) == [candidates[j]] + tail;
      DistinctRemove(candidates, j);
      PickSpec(rest, more, n - 1);
      PickStep(candidates, j, rest, tail);
    }
  }

  lemma PickStep(candidates: seq<Position>, j: int, rest: seq<Position>, tail: seq<Position>)
    requires 0 <= j < |candidates|
    requires Distinct(tail)
    requires forall p :: p in rest <==> p in candidates && p != candidates[j]
    requires forall p :: p in tail ==> p in rest
    ensures forall p :: p in [candidates[j]] + tail ==> p in candidates
    ensures Distinct([candidates[j]] + tail)
  {
    DistinctConcat([candidates[j]], tail);
  }

  function CheatPositions(b: Board, difficulty: Difficulty, numStones: nat,
                          keepCorner: Position -> bool, picks: seq<nat>): seq<Position>
  {
    var blackStones := BlackStones(b);
    if |blackStones| == 0 then []
    else
      var candidates := Candidates(b, difficulty, blackStones, keepCorner);
      Pick(candidates, picks, Min(numStones, |candidates|))
  }

  method GetCheatPositions(b: Board, difficulty: Difficulty, numStones: nat,
                           keepCorner: Position -> bool, picks: seq<nat>)
    returns (positions: seq<Position>)
    ensures positions == CheatPositions(b, difficulty, numStones, keepCorner, picks)
  {
    var blackStones := CollectBlackStones(b);
    if |blackStones| == 0 {
      return [];
    }
    var candidatePositions := blackStones;
    match difficulty {
      case Beginner =>
      case Intermediate =>
        candidatePositions := IntermediateStones(blackStones, keepCorner);
      case Advanced =>
        candidatePositions := InteriorStones(blackStones);
        if |candidatePositions| == 0 {
          candidatePositions := blackStones;
        }
      case Extreme =>
        candidatePositions := FilterSurrounded(b, blackStones);
        if |candidatePositions| == 0 {
          candidatePositions := blackStones;
        }
    }
    positions := Pick(candidatePositions, picks, Min(numStones, |candidatePositions|));
  }

  /** The element dropped from the end of a distinct sequence is not in what remains. */
  lemma LastNotInFront(s: seq<Position>)
    requires Distinct(s) && |s| > 0
    ensures Distinct(s[..|s| - 1])
    ensures s[|s| - 1] !in s[..|s| - 1]
  {
    var n := |s| - 1;
    forall i | 0 <= i < n ensures s[..n][i] != s[n] {
      assert s[..n][i] == s[i];
    }
  }

  lemma {:induction false} IntermediateDistinct(stones: seq<Position>, keepCorner: Position -> bool)
    requires Distinct(stones)
    ensures Distinct(IntermediateStones(stones, keepCorner))
  {
    if stones != [] {
      var n := |stones| - 1;
      var last := stones[n];
      LastNotInFront(stones);
      IntermediateDistinct(stones[..n], keepCorner);
      DistinctConcat(IntermediateStones(stones[..n], keepCorner),
                     if !IsCorner(last) || keepCorner(last) then [last] else []);
    }
  }

  lemma {:induction false} InteriorDistinct(stones: seq<Position>)
    requires Distinct(stones)
    ensures Distinct(InteriorStones(stones))
  {
    if stones != [] {
      var n := |stones| - 1;
      var last := stones[n];
      LastNotInFront(stones);
      InteriorDistinct(stones[..n]);
      DistinctConcat(InteriorStones(stones[..n]), if !IsCorner(last) && !IsEdge(last) then [last] else []);
    }
  }

  lemma {:induction false} SurroundedDistinct(b: Board, stones: seq<Position>)
    requires Distinct(stones)
    ensures Distinct(SurroundedStones(b, stones))
  {
    if stones != [] {
      var n := |stones| - 1;
      var last := stones[n];
      LastNotInFront(stones);
      SurroundedDistinct(b, stones[..n]);
      DistinctConcat(SurroundedStones(b, stones[..n]), if SurroundedCount(b, last) >= 4 then [last] else []);
    }
  }

  lemma CandidatesDistinct(b: Board, difficulty: Difficulty, blackStones: seq<Position>, keepCorner: Position -> bool)
    requires Distinct(blackStones)
    ensures Distinct(Candidates(b, difficulty, blackStones, keepCorner))
  {
    match difficulty {
      case Beginner =>
      case Intermediate =>
        IntermediateDistinct(blackStones, keepCorner);
      case Advanced =>
        InteriorDistinct(blackStones);
      case Extreme =>
        SurroundedDistinct(b, blackStones);
    }
  }

  /**
   * The chosen cells hold black stones, none twice, at most numStones of
   * them, and at least one whenever there is a candidate; for advanced play
   * they are all off the edges whenever some black stone is.
   */
  lemma CheatPositionsSpec(b: Board, difficulty: Difficulty, numStones: nat,
                           keepCorner: Position -> bool, picks: seq<nat>)
    ensures var ps := CheatPositions(b, difficulty, numStones, keepCorner, picks);
      && (forall p :: p in ps ==> InBounds(p) && CellAt(b, p) == Black)
      && Distinct(ps)
      && |ps| <= numStones
      && (0 < numStones && |Candidates(b, difficulty, BlackStones(b), keepCorner)| > 0 ==> |ps| > 0)
      && (difficulty == Advanced && (exists q :: q in BlackStones(b) && !IsEdge(q)) ==>
            forall p :: p in ps ==> !IsEdge(p) && !IsCorner(p))
      && (difficulty == Extreme && (exists q :: q in BlackStones(b) && SurroundedCount(b, q) >= 4) ==>
            forall p :: p in ps ==> SurroundedCount(b, p) >= 4)
  {
    var blackStones := BlackStones(b);
    BlackStonesDistinct(b);
    forall p | p in blackStones ensures InBounds(p) && CellAt(b, p) == Black {
      BlackStonesMem(b, p);
    }
    if |blackStones| > 0 {
      var candidates := Candidates(b, difficulty, blackStones, keepCorner);
      CandidatesDistinct(b, difficulty, blackStones, keepCorner);
      PickSpec(candidates, picks, Min(numStones, |candidates|));
      if difficulty == Advanced && exists q :: q in blackStones && !IsEdge(q) {
        var q :| q in blackStones && !IsEdge(q);
        assert q in InteriorStones(blackStones);
      }
    }
  }

  // ---------------------------------------------------------------------
  // performCheat

  function MaxStones(difficulty: Difficulty): nat {
    if difficulty == Beginner then 2 else if difficulty == Extreme then 1 else 3
  }

  /** `Math.min(Math.floor(Math.random() * 2) + 1, maxStones)`. */
  function NumStones(difficulty: Difficulty, draw: real): (n: nat)
    requires IsDraw(draw)
    ensures 1 <= n <= 2 && n <= MaxStones(difficulty)
  {
    Min(RandomIndex(draw, 2) + 1, MaxStones(difficulty))
  }

  /** The random inputs of one `performCheat` call. */
  datatype CheatDraws = CheatDraws(stoneDraw: real, keepCorner: Position -> bool, picks: seq<nat>)

  predicate ValidDraws(draws: CheatDraws) {
    IsDraw(draws.stoneDraw)
  }

  /** The `for` loop over the chosen cells: a black cell turns white and is recorded. */
  function Recolor(b: Board, cheatPositions: seq<Position>): (Board, seq<Position>)
    requires forall p :: p in cheatPositions ==> InBounds(p)
    decreases |cheatPositions|
  {
    if cheatPositions == [] then (b, [])
    else
      var n := |cheatPositions| - 1;
      var pos := cheatPositions[n];
      assert forall p :: p in cheatPositions[..n] ==> p in cheatPositions;
      var (cheatedBoard, positions) := Recolor(b, cheatPositions[..n]);
      if CellAt(cheatedBoard, pos) == Black then (SetCell(cheatedBoard, pos, White), positions + [pos])
      else (cheatedBoard, positions)
  }

  function PerformCheatResult(b: Board, difficulty: Difficulty, turn: int, draws: CheatDraws): Option<CheatRecord>
    requires ValidDraws(draws)
  {
    var numStones := NumStones(difficulty, draws.stoneDraw);
    var cheatPositions := CheatPositions(b, difficulty, numStones, draws.keepCorner, draws.picks);
    CheatPositionsInBounds(b, difficulty, numStones, draws.keepCorner, draws.picks);
    var (cheatedBoard, positions) := Recolor(b, cheatPositions);
    if |positions| == 0 then None else Some(CheatRecord(turn, b, cheatedBoard, positions))
  }

  lemma CheatPositionsInBounds(b: Board, difficulty: Difficulty, numStones: nat,
                               keepCorner: Position -> bool, picks: seq<nat>)
    ensures forall p :: p in CheatPositions(b, difficulty, numStones, keepCorner, picks) ==> InBounds(p)
  {
    CheatPositionsSpec(b, difficulty, numStones, keepCorner, picks);
  }

  method PerformCheat(b: Board, difficulty: Difficulty, turn: int, draws: CheatDraws)
    returns (r: Option<CheatRecord>)
    requires ValidDraws(draws)
    ensures r == PerformCheatResult(b, difficulty, turn, draws)
  {
    var originalBoard := b;
    var cheatedBoard := b;
    var positions: seq<Position> := [];
    var numStones := NumStones(difficulty, draws.stoneDraw);
    var cheatPositions := GetCheatPositions(b, difficulty, numStones, draws.keepCorner, draws.picks);
    CheatPositionsInBounds(b, difficulty, numStones, draws.keepCorner, draws.picks);
    for i := 0 to |cheatPositions|
      invariant forall p :: p in cheatPositions[..i] ==> InBounds(p)
      invariant forall p :: p in cheatPositions ==> InBounds(p)
      invariant (cheatedBoard, positions) == Recolor(b, cheatPositions[..i])
    {
      var pos := cheatPositions[i];
      assert pos in cheatPositions;
      assert cheatPositions[..i + 1][..i] == cheatPositions[..i];
      if cheatedBoard[pos.row][pos.col] == Black {
        cheatedBoard := SetCell(cheatedBoard, pos, White);
        positions := positions + [pos];
      }
    }
    assert cheatPositions[..|cheatPositions|] == cheatPositions;
    if |positions| == 0 {
      return None;
    }
    r := Some(CheatRecord(turn, originalBoard, cheatedBoard, positions));
  }

  /** Recolouring turns only black cells white, records each such cell once, and leaves the rest alone. */
  lemma {:induction false} RecolorSpec(b: Board, cheatPositions: seq<Position>)
    requires forall p :: p in cheatPositions ==> InBounds(p)
    ensures var (cheatedBoard, positions) := Recolor(b, cheatPositions);
      && Distinct(positions)
      && (forall p :: p in positions ==> p in cheatPositions && InBounds(p) && CellAt(b, p) == Black)
      && (forall q :: InBounds(q) ==>
            CellAt(cheatedBoard, q) == if q in positions then White else CellAt(b, q))
      && |positions| <= |cheatPositions|
    decreases |cheatPositions|
  {
    if cheatPositions != [] {
      var n := |cheatPositions| - 1;
      var pos := cheatPositions[n];
      assert forall p :: p in cheatPositions[..n] ==> p in cheatPositions;
      RecolorSpec(b, cheatPositions[..n]);
      var (cheatedBoard, positions) := Recolor(b, cheatPositions[..n]);
      if CellAt(cheatedBoard, pos) == Black {
        assert pos !in positions;
        DistinctConcat(positions, [pos]);
        forall q | InBounds(q)
          ensures CellAt(SetCell(cheatedBoard, pos, White), q) == if q in positions + [pos] then White else CellAt(b, q)
        {
          SetCellAt(cheatedBoard, pos, White, q);
        }
      }
    }
  }

  /** Each loop step keeps every chosen black cell: if the chosen cells are distinct black stones, all are recorded. */
  lemma {:induction false} RecolorAll(b: Board, cheatPositions: seq<Position>)
    requires forall p :: p in cheatPositions ==> InBounds(p) && CellAt(b, p) == Black
    requires Distinct(cheatPositions)
    ensures Recolor(b, cheatPositions).1 == cheatPositions
    decreases |cheatPositions|
  {
    if cheatPositions != [] {
      var n := |cheatPositions| - 1;
      var pos := cheatPositions[n];
      assert forall p :: p in cheatPositions[..n] ==> p in cheatPositions;
      assert Distinct(cheatPositions[..n]);
      RecolorAll(b, cheatPositions[..n]);
      RecolorSpec(b, cheatPositions[..n]);
      assert pos !in cheatPositions[..n];
      assert cheatPositions == cheatPositions[..n] + [pos];
    }
  }

  /**
   * `performCheat` copies the board and records it as `originalBoard`;
   * on success the recorded cells are distinct, were black and are now
   * white, every other cell is unchanged, and there are at most
   * min(numStones, maxStones) of them.  It returns null exactly when no
   * cell was chosen, which for every difficulty but intermediate means
   * exactly when the board has no black stone.
   */
  lemma PerformCheatSpec(b: Board, difficulty: Difficulty, turn: int, draws: CheatDraws)
    requires ValidDraws(draws)
    ensures var r := PerformCheatResult(b, difficulty, turn, draws);
      && (r.None? <==> |CheatPositions(b, difficulty, NumStones(difficulty, draws.stoneDraw), draws.keepCorner, draws.picks)| == 0)
      && (difficulty != Intermediate ==> (r.None? <==> |BlackStones(b)| == 0))
      && (r.Some? ==>
            && r.value.turn == turn
            && r.value.originalBoard == b
            && |r.value.positions| > 0
            && Distinct(r.value.positions)
            && |r.value.positions| <= NumStones(difficulty, draws.stoneDraw) <= MaxStones(difficulty)
            && (forall p :: p in r.value.positions ==>
                  InBounds(p) && CellAt(b, p) == Black && CellAt(r.value.cheatedBoard, p) == White)
            && (forall q :: InBounds(q) && q !in r.value.positions ==>
                  CellAt(r.value.cheatedBoard, q) == CellAt(b, q)))
  {
    var numStones := NumStones(difficulty, draws.stoneDraw);
    var cheatPositions := CheatPositions(b, difficulty, numStones, draws.keepCorner, draws.picks);
    CheatPositionsSpec(b, difficulty, numStones, draws.keepCorner, draws.picks);
    RecolorSpec(b, cheatPositions);
    RecolorAll(b, cheatPositions);
    if difficulty != Intermediate && |BlackStones(b)| > 0 {
      var blackStones := BlackStones(b);
      assert |Candidates(b, difficulty, blackStones, draws.keepCorner)| > 0;
    }
  }

  // ---------------------------------------------------------------------
  // detectCheat

  /** Two boards are equal exactly when they agree on all 64 cells. */
  lemma BoardsEqualIff(b1: Board, b2: Board)
    ensures b1 == b2 <==> forall r, c :: IsValidPosition(r, c) ==> b1[r][c] == b2[r][c]
  {
    if forall r, c :: IsValidPosition(r, c) ==> b1[r][c] == b2[r][c] {
      forall r | 0 <= r < BOARD_SIZE ensures b1[r] == b2[r] {
        assert forall c :: 0 <= c < BOARD_SIZE ==> b1[r][c] == b2[r][c];
      }
    }
  }

  /** The inner `col` loop for one row: does the row match the cheated board's? */
  method RowMatches(currentBoard: Board, cheatedBoard: Board, row: int) returns (same: bool)
    requires 0 <= row < BOARD_SIZE
    ensures same <==> forall c :: 0 <= c < BOARD_SIZE ==> currentBoard[row][c] == cheatedBoard[row][c]
  {
    for col := 0 to BOARD_SIZE
      invariant forall c :: 0 <= c < col ==> currentBoard[row][c] == cheatedBoard[row][c]
    {
      if currentBoard[row][col] != cheatedBoard[row][col] {
        return false;
      }
    }
    return true;
  }

  /** `previousBoard` is accepted and never read. */
  method DetectCheat(currentBoard: Board, previousBoard: Board, lastCheat: Option<CheatRecord>)
    returns (detected: bool)
    ensures detected <==> lastCheat.Some? && currentBoard == lastCheat.value.cheatedBoard
  {
    if lastCheat.None? {
      return false;
    }
    var cheatedBoard := lastCheat.value.cheatedBoard;
    BoardsEqualIff(currentBoard, cheatedBoard);
    for row := 0 to BOARD_SIZE
      invariant forall r, c :: 0 <= r < row && 0 <= c < BOARD_SIZE ==> currentBoard[r][c] == cheatedBoard[r][c]
    {
      var same := RowMatches(currentBoard, cheatedBoard, row);
      if !same {
        return false;
      }
    }
    return true;
  }
}
