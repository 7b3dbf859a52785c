/**
 * What the board rules of utils/gameLogic.ts guarantee: the start
 * position, the geometry and soundness of the flip scan, soundness,
 * completeness and order of the move list, move application cell by cell,
 * stone conservation and game-over detection.
 */
module BoardProperties {
  import opened Wrappers
  import opened GameTypes
  import opened GameLogic

  predicate Distinct<T(==)>(s: seq<T>) {
    forall i, j :: 0 <= i < j < |s| ==> s[i] != s[j]
  }

  lemma DistinctConcat<T>(a: seq<T>, b: seq<T>)
    requires Distinct(a) && Distinct(b)
    requires forall x :: x in a ==> x !in b
    ensures Distinct(a + b)
  {
    forall i, j | 0 <= i < j < |a + b| ensures (a + b)[i] != (a + b)[j] {
      if j < |a| {
      } else if i >= |a| {
        assert (a + b)[i] == b[i - |a|] && (a + b)[j] == b[j - |a|];
      } else {
        assert (a + b)[i] == a[i] && (a + b)[j] == b[j - |a|];
        assert b[j - |a|] in b;
      }
    }
  }

  // ---------------------------------------------------------------------
  // The start position

  /** `createInitialBoard` leaves two stones of each colour and 60 empty cells. */
  lemma InitialBoardCounts(b: Board)
    requires IsInitialBoard(b)
    ensures Count(b, Black) == 2 && Count(b, White) == 2 && Count(b, Empty) == 60
  {
    InitialCountUpTo(b, BOARD_SIZE);
  }

  lemma {:induction false} InitialRowCount(b: Board, row: int, col: nat)
    requires IsInitialBoard(b) && 0 <= row < BOARD_SIZE && col <= BOARD_SIZE
    ensures RowCount(b, Black, row, col)
            == (if (row == 3 && col > 4) || (row == 4 && col > 3) then 1 else 0)
    ensures RowCount(b, White, row, col)
            == (if (row == 3 && col > 3) || (row == 4 && col > 4) then 1 else 0)
    ensures RowCount(b, Empty, row, col) + RowCount(b, Black, row, col) + RowCount(b, White, row, col) == col
  {
    if col > 0 {
      InitialRowCount(b, row, col - 1);
      assert b[row][col - 1] == InitialCell(row, col - 1);
    }
  }

  lemma {:induction false} InitialCountUpTo(b: Board, rows: nat)
    requires IsInitialBoard(b) && rows <= BOARD_SIZE
    ensures CountUpTo(b, Black, rows) == (if rows > 3 then 1 else 0) + (if rows > 4 then 1 else 0)
    ensures CountUpTo(b, White, rows) == (if rows > 3 then 1 else 0) + (if rows > 4 then 1 else 0)
    ensures CountUpTo(b, Empty, rows) + CountUpTo(b, Black, rows) + CountUpTo(b, White, rows) == 8 * rows
  {
    if rows > 0 {
      InitialCountUpTo(b, rows - 1);
      InitialRowCount(b, rows - 1, BOARD_SIZE);
    }
  }

  // ---------------------------------------------------------------------
  // Stone conservation: every cell holds exactly one of the three values

  lemma {:induction false} RowCountTotal(b: Board, row: int, col: nat)
    requires 0 <= row < BOARD_SIZE && col <= BOARD_SIZE
    ensures RowCount(b, Black, row, col) + RowCount(b, White, row, col) + RowCount(b, Empty, row, col) == col
  {
    if col > 0 {
      RowCountTotal(b, row, col - 1);
    }
  }

  lemma {:induction false} CountUpToTotal(b: Board, rows: nat)
    requires rows <= BOARD_SIZE
    ensures CountUpTo(b, Black, rows) + CountUpTo(b, White, rows) + CountUpTo(b, Empty, rows) == 8 * rows
  {
    if rows > 0 {
      CountUpToTotal(b, rows - 1);
      RowCountTotal(b, rows - 1, BOARD_SIZE);
    }
  }

  /** black + white + empty == 64 on every board, so black + white <= 64. */
  lemma CountTotal(b: Board)
    ensures Count(b, Black) + Count(b, White) + Count(b, Empty) == CELL_COUNT
    ensures Count(b, Black) + Count(b, White) <= CELL_COUNT
  {
    CountUpToTotal(b, BOARD_SIZE);
  }

  // ---------------------------------------------------------------------
  // Geometry of the flip scan

  function Sign(x: int): int {
    if x > 0 then 1 else if x < 0 then -1 else 0
  }

  function Abs(x: int): int {
    if x < 0 then -x else x
  }

  /** q lies strictly beyond `origin` on the ray that leaves it in direction (dr, dc). */
  predicate OnRay(origin: Position, dr: int, dc: int, q: Position) {
    var x, y := q.row - origin.row, q.col - origin.col;
    Sign(x) == dr && Sign(y) == dc && (dr != 0 && dc != 0 ==> Abs(x) == Abs(y))
  }

  /** The run walked from (r, c) lies on the ray through (r, c) and repeats no cell. */
  lemma {:induction false} RunOnRay(b: Board, r: int, c: int, dr: int, dc: int, opp: Player)
    requires IsDirection(dr, dc)
    ensures forall q :: q in Run(b, r, c, dr, dc, opp) ==> OnRay(Position(r - dr, c - dc), dr, dc, q)
    ensures Distinct(Run(b, r, c, dr, dc, opp))
    decreases Reach(r, dr) + Reach(c, dc)
  {
    if IsValidPosition(r, c) && b[r][c] == opp {
      var tail := Run(b, r + dr, c + dc, dr, dc, opp);
      RunOnRay(b, r + dr, c + dc, dr, dc, opp);
      assert Run(b, r, c, dr, dc, opp) == [Position(r, c)] + tail;
      assert !OnRay(Position(r, c), dr, dc, Position(r, c));
      DistinctConcat([Position(r, c)], tail);
    }
  }

  function DirIndex(dr: int, dc: int): int {
    if dr == -1 then dc + 1 else if dr == 0 then (if dc == -1 then 3 else 4) else 6 + dc
  }

  lemma DirIndexOfDirections()
    ensures forall i :: 0 <= i < |DIRECTIONS| ==> DirIndex(DIRECTIONS[i].0, DIRECTIONS[i].1) == i
  {
  }

  /** Each direction contributes cells of its own ray only, without repetition. */
  lemma DirectionalFlipsOnRay(b: Board, pos: Position, player: Player, dr: int, dc: int)
    requires IsDirection(dr, dc)
    ensures forall q :: q in DirectionalFlips(b, pos, player, dr, dc) ==> OnRay(pos, dr, dc, q)
    ensures Distinct(DirectionalFlips(b, pos, player, dr, dc))
  {
    RunOnRay(b, pos.row + dr, pos.col + dc, dr, dc, GetOpponentColor(player));
  }

  lemma {:induction false} FlipsUpToDistinct(b: Board, pos: Position, player: Player, k: nat)
    requires k <= |DIRECTIONS|
    ensures Distinct(FlipsUpTo(b, pos, player, k))
    ensures forall q :: q in FlipsUpTo(b, pos, player, k) ==>
              q != pos && DirIndex(Sign(q.row - pos.row), Sign(q.col - pos.col)) < k
  {
    if k > 0 {
      DirectionsAreDirections();
      DirIndexOfDirections();
      var (dr, dc) := DIRECTIONS[k - 1];
      FlipsUpToDistinct(b, pos, player, k - 1);
      DirectionalFlipsOnRay(b, pos, player, dr, dc);
      var prefix, last := FlipsUpTo(b, pos, player, k - 1), DirectionalFlips(b, pos, player, dr, dc);
      forall q | q in last
        ensures q != pos && DirIndex(Sign(q.row - pos.row), Sign(q.col - pos.col)) == k - 1
      {
        assert OnRay(pos, dr, dc, q);
      }
      DistinctConcat(prefix, last);
    }
  }

  /** A move's flip list repeats no cell and never contains the target itself. */
  lemma FlipsDistinct(b: Board, pos: Position, player: Player)
    requires InBounds(pos)
    ensures Distinct(Flips(b, pos, player))
    ensures pos !in Flips(b, pos, player)
  {
    if CellAt(b, pos) == Empty {
      FlipsUpToDistinct(b, pos, player, |DIRECTIONS|);
    }
  }

  /** A non-empty flip list is only possible on an empty target cell. */
  lemma FlipsOnlyOnEmpty(b: Board, pos: Position, player: Player)
    requires InBounds(pos)
    ensures |Flips(b, pos, player)| > 0 ==> CellAt(b, pos) == Empty
  {
  }

  // ---------------------------------------------------------------------
  // The move list: sound, complete, row-major

  /** Every entry lies in row `row`, in one of its first `col` columns. */
  predicate InRowBefore(ms: seq<Move>, row: int, col: int) {
    forall i :: 0 <= i < |ms| ==> ms[i].position.row == row && 0 <= ms[i].position.col < col
  }

  /** Every entry lies on the board, in one of its first `rows` rows. */
  predicate InRowsBefore(ms: seq<Move>, rows: int) {
    forall i :: 0 <= i < |ms| ==> 0 <= ms[i].position.row < rows && 0 <= ms[i].position.col < BOARD_SIZE
  }

  predicate RowMajor(ms: seq<Move>) {
    forall i, j :: 0 <= i < j < |ms| ==> Index(ms[i].position) < Index(ms[j].position)
  }

  lemma RowMajorConcat(a: seq<Move>, c: seq<Move>)
    requires RowMajor(a) && RowMajor(c)
    requires forall i, j :: 0 <= i < |a| && 0 <= j < |c| ==> Index(a[i].position) < Index(c[j].position)
    ensures RowMajor(a + c)
  {
    forall i, j | 0 <= i < j < |a + c| ensures Index((a + c)[i].position) < Index((a + c)[j].position) {
      if j < |a| {
        assert (a + c)[i] == a[i] && (a + c)[j] == a[j];
      } else if i >= |a| {
        assert (a + c)[i] == c[i - |a|] && (a + c)[j] == c[j - |a|];
      } else {
        assert (a + c)[i] == a[i] && (a + c)[j] == c[j - |a|];
      }
    }
  }

  lemma PlacedStep(prev: seq<Move>, extra: seq<Move>, row: int, col: int)
    requires 1 <= col
    requires InRowBefore(prev, row, col - 1) && RowMajor(prev)
    requires forall i :: 0 <= i < |extra| ==> extra[i].position == Position(row, col - 1)
    requires |extra| <= 1
    ensures InRowBefore(prev + extra, row, col) && RowMajor(prev + extra)
  {
    RowMajorConcat(prev, extra);
    forall i | 0 <= i < |prev + extra|
      ensures (prev + extra)[i].position.row == row && 0 <= (prev + extra)[i].position.col < col
    {
      if i < |prev| {
        assert (prev + extra)[i] == prev[i];
      } else {
        assert (prev + extra)[i] == extra[i - |prev|];
      }
    }
  }

  lemma {:induction false} RowMovesPlaced(flips: Position -> seq<Position>, row: int, col: nat)
    ensures InRowBefore(RowMoves(flips, row, col), row, col)
    ensures RowMajor(RowMoves(flips, row, col))
  {
    if col > 0 {
      RowMovesPlaced(flips, row, col - 1);
      var prev, extra := RowMoves(flips, row, col - 1), CellEntry(flips, row, col - 1);
      assert RowMoves(flips, row, col) == prev + extra;
      PlacedStep(prev, extra, row, col);
    }
  }

  /** Some entry of `ms` is for cell `pos`. */
  predicate Listed(ms: seq<Move>, pos: Position) {
    exists i :: 0 <= i < |ms| && ms[i].position == pos
  }

  lemma ListedConcat(whole: seq<Move>, a: seq<Move>, c: seq<Move>, pos: Position)
    requires whole == a + c && (Listed(a, pos) || Listed(c, pos))
    ensures Listed(whole, pos)
  {
    if Listed(a, pos) {
      var i :| 0 <= i < |a| && a[i].position == pos;
      assert whole[i] == a[i];
    } else {
      var i :| 0 <= i < |c| && c[i].position == pos;
      assert whole[|a| + i] == c[i];
    }
  }

  lemma {:induction false} RowMovesComplete(flips: Position -> seq<Position>, row: int, col: nat, pos: Position)
    requires pos.row == row && 0 <= pos.col < col && |flips(pos)| > 0
    ensures Listed(RowMoves(flips, row, col), pos)
  {
    var prev, extra := RowMoves(flips, row, col - 1), CellEntry(flips, row, col - 1);
    if pos.col < col - 1 {
      RowMovesComplete(flips, row, col - 1, pos);
    } else {
      assert extra[0].position == pos;
    }
    ListedConcat(RowMoves(flips, row, col), prev, extra, pos);
  }

  lemma OrderedStep(whole: seq<Move>, prev: seq<Move>, last: seq<Move>, rows: int)
    requires 1 <= rows && whole == prev + last
    requires InRowsBefore(prev, rows - 1) && RowMajor(prev)
    requires InRowBefore(last, rows - 1, BOARD_SIZE) && RowMajor(last)
    ensures InRowsBefore(whole, rows) && RowMajor(whole)
  {
    forall i, j | 0 <= i < |prev| && 0 <= j < |last| ensures Index(prev[i].position) < Index(last[j].position) {
      assert prev[i].position.row < last[j].position.row;
    }
    RowMajorConcat(prev, last);
    forall i | 0 <= i < |whole| ensures 0 <= whole[i].position.row < rows && 0 <= whole[i].position.col < BOARD_SIZE {
      if i < |prev| {
        assert whole[i] == prev[i];
      } else {
        assert whole[i] == last[i - |prev|];
      }
    }
  }

  lemma {:induction false} MovesUpToOrdered(flips: Position -> seq<Position>, rows: nat)
    requires rows <= BOARD_SIZE
    ensures InRowsBefore(MovesUpTo(flips, rows), rows)
    ensures RowMajor(MovesUpTo(flips, rows))
  {
    if rows > 0 {
      MovesUpToOrdered(flips, rows - 1);
      RowMovesPlaced(flips, rows - 1, BOARD_SIZE);
      OrderedStep(MovesUpTo(flips, rows), MovesUpTo(flips, rows - 1), RowMoves(flips, rows - 1, BOARD_SIZE), rows);
    }
  }

  lemma {:induction false} MovesUpToComplete(flips: Position -> seq<Position>, rows: nat, pos: Position)
    requires 0 <= pos.row < rows && 0 <= pos.col < BOARD_SIZE && |flips(pos)| > 0
    ensures Listed(MovesUpTo(flips, rows), pos)
  {
    var prev, last := MovesUpTo(flips, rows - 1), RowMoves(flips, rows - 1, BOARD_SIZE);
    if pos.row < rows - 1 {
      MovesUpToComplete(flips, rows - 1, pos);
    } else {
      RowMovesComplete(flips, rows - 1, BOARD_SIZE, pos);
    }
    ListedConcat(MovesUpTo(flips, rows), prev, last, pos);
  }

  /**
   * `getValidMoves` is exactly the list of cells with a non-empty flip
   * set, each paired with that set, in row-major order.
   */
  lemma ValidMovesSpec(b: Board, player: Player)
    ensures var ms := ValidMoves(b, player);
      && (forall i :: 0 <= i < |ms| ==>
            InBounds(ms[i].position)
            && ms[i].flippedPositions == Flips(b, ms[i].position, player)
            && |ms[i].flippedPositions| > 0)
      && (forall i, j :: 0 <= i < j < |ms| ==> Index(ms[i].position) < Index(ms[j].position))
      && (forall r, c :: IsValidPosition(r, c) && |Flips(b, Position(r, c), player)| > 0 ==>
            exists i :: 0 <= i < |ms| && ms[i].position == Position(r, c))
  {
    ValidMovesTable(b, player);
    ValidMovesEntries(b, player);
    MovesSpec(FlipTable(b, player));
    ValidMovesComplete(b, player);
  }

  lemma ValidMovesEntries(b: Board, player: Player)
    ensures var ms := ValidMoves(b, player);
      forall i :: 0 <= i < |ms| ==>
        InBounds(ms[i].position)
        && ms[i].flippedPositions == Flips(b, ms[i].position, player)
        && |ms[i].flippedPositions| > 0
  {
    ValidMovesTable(b, player);
    MovesUpToEntries(FlipTable(b, player), BOARD_SIZE);
    TableEntriesOnBoard(b, player, MovesUpTo(FlipTable(b, player), BOARD_SIZE));
  }

  lemma TableEntriesOnBoard(b: Board, player: Player, ms: seq<Move>)
    requires AllEntries(FlipTable(b, player), ms)
    ensures forall i :: 0 <= i < |ms| ==>
        InBounds(ms[i].position)
        && ms[i].flippedPositions == Flips(b, ms[i].position, player)
        && |ms[i].flippedPositions| > 0
  {
    forall i | 0 <= i < |ms|
      ensures InBounds(ms[i].position) && ms[i].flippedPositions == Flips(b, ms[i].position, player)
    {
      assert Entry(FlipTable(b, player), ms[i]);
    }
  }

  lemma ValidMovesComplete(b: Board, player: Player)
    ensures var ms := ValidMoves(b, player);
      forall r, c :: IsValidPosition(r, c) && |Flips(b, Position(r, c), player)| > 0 ==>
        exists i :: 0 <= i < |ms| && ms[i].position == Position(r, c)
  {
    ValidMovesTable(b, player);
    MovesSpec(FlipTable(b, player));
    TableCompleteOnBoard(b, player, MovesUpTo(FlipTable(b, player), BOARD_SIZE));
  }

  lemma TableCompleteOnBoard(b: Board, player: Player, ms: seq<Move>)
    requires forall r, c :: IsValidPosition(r, c) && |FlipTable(b, player)(Position(r, c))| > 0 ==>
               exists i :: 0 <= i < |ms| && ms[i].position == Position(r, c)
    ensures forall r, c :: IsValidPosition(r, c) && |Flips(b, Position(r, c), player)| > 0 ==>
               exists i :: 0 <= i < |ms| && ms[i].position == Position(r, c)
  {
    forall r, c | IsValidPosition(r, c) && |Flips(b, Position(r, c), player)| > 0
      ensures exists i :: 0 <= i < |ms| && ms[i].position == Position(r, c)
    {
      assert |FlipTable(b, player)(Position(r, c))| > 0;
    }
  }

  /** The move list over any flip table: its entries, their order, and every cell with a non-empty set. */
  lemma MovesSpec(flips: Position -> seq<Position>)
    ensures var ms := MovesUpTo(flips, BOARD_SIZE);
      && AllEntries(flips, ms)
      && RowMajor(ms)
      && (forall r, c :: IsValidPosition(r, c) && |flips(Position(r, c))| > 0 ==>
            exists i :: 0 <= i < |ms| && ms[i].position == Position(r, c))
  {
    MovesUpToEntries(flips, BOARD_SIZE);
    MovesUpToOrdered(flips, BOARD_SIZE);
    var ms := MovesUpTo(flips, BOARD_SIZE);
    forall r, c | IsValidPosition(r, c) && |flips(Position(r, c))| > 0
      ensures exists i :: 0 <= i < |ms| && ms[i].position == Position(r, c)
    {
      MovesUpToComplete(flips, BOARD_SIZE, Position(r, c));
    }
  }

  /** Looking a cell up in the move list finds its flip set exactly when it is a legal move. */
  lemma FindValidMove(b: Board, player: Player, pos: Position)
    requires InBounds(pos)
    ensures FindMove(ValidMoves(b, player), pos)
            == if IsValidMove(b, pos, player) then Some(Move(pos, Flips(b, pos, player))) else None
  {
    var flips := FlipTable(b, player);
    var ms := MovesUpTo(flips, BOARD_SIZE);
    ValidMovesTable(b, player);
    assert flips(pos) == Flips(b, pos, player);
    var found := FindMove(ms, pos);
    if found.Some? {
      MovesUpToEntries(flips, BOARD_SIZE);
      var i :| 0 <= i < |ms| && ms[i] == found.value;
      assert Entry(flips, ms[i]);
    } else if |flips(pos)| > 0 {
      MovesUpToComplete(flips, BOARD_SIZE, pos);
    }
  }

  lemma ValidMoveIsLegal(b: Board, player: Player, m: Move)
    requires m in ValidMoves(b, player)
    ensures InBounds(m.position) && m.flippedPositions == Flips(b, m.position, player)
    ensures |m.flippedPositions| > 0 && CellAt(b, m.position) == Empty
  {
    ValidMovesEntries(b, player);
    var ms := ValidMoves(b, player);
    var i :| 0 <= i < |ms| && ms[i] == m;
    FlipsOnlyOnEmpty(b, m.position, player);
  }

  /** No legal move for `player` iff no cell has a non-empty flip set for it. */
  lemma NoValidMovesIff(b: Board, player: Player)
    ensures |ValidMoves(b, player)| == 0
            <==> forall r, c :: IsValidPosition(r, c) ==> |Flips(b, Position(r, c), player)| == 0
  {
    ValidMovesSpec(b, player);
    var ms := ValidMoves(b, player);
    if |ms| > 0 {
      var p := ms[0].position;
      assert IsValidPosition(p.row, p.col) && |Flips(b, Position(p.row, p.col), player)| > 0;
    }
  }

  /** `isGameOver` holds iff neither colour has a cell with a non-empty flip set. */
  lemma GameOverIff(b: Board)
    ensures IsGameOver(b) <==>
            forall r, c :: IsValidPosition(r, c) ==>
              |Flips(b, Position(r, c), Black)| == 0 && |Flips(b, Position(r, c), White)| == 0
  {
    NoValidMovesIff(b, Black);
    NoValidMovesIff(b, White);
  }

  // ---------------------------------------------------------------------
  // makeMove, cell by cell

  lemma {:induction false} SetCellsAt(b: Board, ps: seq<Position>, v: Cell, q: Position)
    requires forall p :: p in ps ==> InBounds(p)
    requires InBounds(q)
    ensures CellAt(SetCells(b, ps, v), q) == if q in ps then v else CellAt(b, q)
    decreases |ps|
  {
    if ps != [] {
      SetCellsAt(SetCell(b, ps[0], v), ps[1..], v, q);
      SetCellAt(b, ps[0], v, q);
      assert q in ps <==> q == ps[0] || q in ps[1..];
    }
  }

  /**
   * `makeMove` sets the target and every listed flip to the player and
   * leaves every other cell as it was; the input board is a value and is
   * not changed.
   */
  lemma ApplyMoveAt(b: Board, move: Move, player: Player, q: Position)
    requires WellFormed(move) && InBounds(q)
    ensures CellAt(ApplyMove(b, move, player), q)
            == if q == move.position || q in move.flippedPositions then player else CellAt(b, q)
  {
    SetCellsAt(SetCell(b, move.position, player), move.flippedPositions, player, q);
    SetCellAt(b, move.position, player, q);
  }

  // ---------------------------------------------------------------------
  // Counting after a move

  function Delta(b: Board, p: Position, v: Cell, color: Cell): int
    requires InBounds(p)
  {
    (if v == color then 1 else 0) - (if CellAt(b, p) == color then 1 else 0)
  }

  lemma {:induction false} RowCountSetCell(b: Board, p: Position, v: Cell, color: Cell, row: int, col: nat)
    requires InBounds(p) && 0 <= row < BOARD_SIZE && col <= BOARD_SIZE
    ensures RowCount(SetCell(b, p, v), color, row, col)
            == RowCount(b, color, row, col) + (if p.row == row && p.col < col then Delta(b, p, v, color) else 0)
  {
    if col > 0 {
      RowCountSetCell(b, p, v, color, row, col - 1);
      SetCellAt(b, p, v, Position(row, col - 1));
    }
  }

  lemma {:induction false} CountUpToSetCell(b: Board, p: Position, v: Cell, color: Cell, rows: nat)
    requires InBounds(p) && rows <= BOARD_SIZE
    ensures CountUpTo(SetCell(b, p, v), color, rows)
            == CountUpTo(b, color, rows) + (if p.row < rows then Delta(b, p, v, color) else 0)
  {
    if rows > 0 {
      CountUpToSetCell(b, p, v, color, rows - 1);
      RowCountSetCell(b, p, v, color, rows - 1, BOARD_SIZE);
    }
  }

  /** Writing one cell changes each colour's count by at most the one stone written or removed. */
  lemma CountSetCell(b: Board, p: Position, v: Cell, color: Cell)
    requires InBounds(p)
    ensures Count(SetCell(b, p, v), color) == Count(b, color) + Delta(b, p, v, color)
  {
    CountUpToSetCell(b, p, v, color, BOARD_SIZE);
  }

  lemma {:induction false} CountSetCells(b: Board, ps: seq<Position>, player: Player)
    requires forall q :: q in ps ==> InBounds(q) && CellAt(b, q) == GetOpponentColor(player)
    requires Distinct(ps)
    ensures Count(SetCells(b, ps, player), player) == Count(b, player) + |ps|
    ensures Count(SetCells(b, ps, player), GetOpponentColor(player)) == Count(b, GetOpponentColor(player)) - |ps|
    decreases |ps|
  {
    if ps != [] {
      var b1 := SetCell(b, ps[0], player);
      CountSetCell(b, ps[0], player, player);
      CountSetCell(b, ps[0], player, GetOpponentColor(player));
      forall q | q in ps[1..] ensures InBounds(q) && CellAt(b1, q) == GetOpponentColor(player) {
        assert q != ps[0] by {
          var j :| 0 <= j < |ps[1..]| && ps[1..][j] == q;
          assert ps[j + 1] == q;
        }
        SetCellAt(b, ps[0], player, q);
      }
      assert Distinct(ps[1..]) by {
        forall i, j | 0 <= i < j < |ps[1..]| ensures ps[1..][i] != ps[1..][j] {
          assert ps[1..][i] == ps[i + 1] && ps[1..][j] == ps[j + 1];
        }
      }
      CountSetCells(b1, ps[1..], player);
    }
  }

  /**
   * A legal move adds the placed stone and every flipped stone to the
   * mover and takes the flipped stones from the opponent.
   */
  lemma MoveCounts(b: Board, move: Move, player: Player)
    requires move in ValidMoves(b, player)
    ensures var after := ApplyMove(b, move, player);
      && Count(after, player) == Count(b, player) + 1 + |move.flippedPositions|
      && Count(after, GetOpponentColor(player)) == Count(b, GetOpponentColor(player)) - |move.flippedPositions|
      && Count(after, Black) + Count(after, White) == Count(b, Black) + Count(b, White) + 1
  {
    ValidMoveIsLegal(b, player, move);
    FlipsDistinct(b, move.position, player);
    var opp := GetOpponentColor(player);
    var b1 := SetCell(b, move.position, player);
    CountSetCell(b, move.position, player, player);
    CountSetCell(b, move.position, player, opp);
    forall q | q in move.flippedPositions ensures InBounds(q) && CellAt(b1, q) == opp {
      SetCellAt(b, move.position, player, q);
    }
    CountSetCells(b1, move.flippedPositions, player);
    assert opp == Black || opp == White;
  }
}
