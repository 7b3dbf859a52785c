/**
 * The board rules of utils/gameLogic.ts: the start position, the
 * directional flip scan, legal-move generation, move application,
 * stone counting, game-over detection and the winner.
 *
 * The source's loops are methods proved equal to the specification
 * functions below them; the AI and the session reason with the functions.
 */
module GameLogic {
  import opened Wrappers
  import opened GameTypes

  /** The eight compass directions, in the order the scan visits them. */
  const DIRECTIONS: seq<(int, int)> :=
    [(-1, -1), (-1, 0), (-1, 1), (0, -1), (0, 1), (1, -1), (1, 0), (1, 1)]

  predicate IsDirection(dr: int, dc: int) {
    -1 <= dr <= 1 && -1 <= dc <= 1 && (dr != 0 || dc != 0)
  }

  predicate IsValidPosition(row: int, col: int) {
    0 <= row < BOARD_SIZE && 0 <= col < BOARD_SIZE
  }

  predicate InBounds(p: Position) {
    IsValidPosition(p.row, p.col)
  }

  function CellAt(b: Board, p: Position): Cell
    requires InBounds(p)
  {
    b[p.row][p.col]
  }

  function GetOpponentColor(player: Player): (r: Player)
    ensures r != player
  {
    if player == Black then White else Black
  }

  // ---------------------------------------------------------------------
  // Cells in row-major order

  /** Row-major rank of a cell: the order in which the nested row/column loops visit it. */
  function Index(p: Position): int {
    8 * p.row + p.col
  }

  // ---------------------------------------------------------------------
  // createInitialBoard

  function InitialCell(row: int, col: int): Cell {
    if (row == 3 && col == 3) || (row == 4 && col == 4) then White
    else if (row == 3 && col == 4) || (row == 4 && col == 3) then Black
    else Empty
  }

  predicate IsInitialBoard(b: Board) {
    forall r, c :: 0 <= r < BOARD_SIZE && 0 <= c < BOARD_SIZE ==> b[r][c] == InitialCell(r, c)
  }

  function SetCell(b: Board, p: Position, v: Cell): (r: Board)
    requires InBounds(p)
  {
    b[p.row := b[p.row][p.col := v]]
  }

  lemma SetCellAt(b: Board, p: Position, v: Cell, q: Position)
    requires InBounds(p) && InBounds(q)
    ensures CellAt(SetCell(b, p, v), q) == if q == p then v else CellAt(b, q)
  {
  }

  /** An empty grid with the four centre stones written into it. */
  method CreateInitialBoard() returns (board: Board)
    ensures IsInitialBoard(board)
    ensures forall r, c :: IsValidPosition(r, c) && !(3 <= r <= 4 && 3 <= c <= 4) ==> board[r][c] == Empty
  {
    board := seq(BOARD_SIZE, _ => seq(BOARD_SIZE, _ => Empty));
    board := SetCell(board, Position(3, 3), White);
    board := SetCell(board, Position(3, 4), Black);
    board := SetCell(board, Position(4, 3), Black);
    board := SetCell(board, Position(4, 4), White);
  }

  // ---------------------------------------------------------------------
  // getFlippedPositions

  /** How many more steps in direction d stay inside the rows (or columns). */
  function Reach(x: int, d: int): nat {
    if d > 0 then (if x < BOARD_SIZE then BOARD_SIZE - x else 0)
    else if d < 0 then (if x >= 0 then x + 1 else 0)
    else 0
  }

  /** The contiguous opponent stones met walking from (r, c) in direction (dr, dc). */
  function Run(b: Board, r: int, c: int, dr: int, dc: int, opp: Player): (run: seq<Position>)
    requires IsDirection(dr, dc)
    decreases Reach(r, dr) + Reach(c, dc)
  {
    if IsValidPosition(r, c) && b[r][c] == opp then [Position(r, c)] + Run(b, r + dr, c + dc, dr, dc, opp)
    else []
  }

  /** The first cell of that walk that is not an in-bounds opponent stone. */
  function RunEnd(b: Board, r: int, c: int, dr: int, dc: int, opp: Player): Position
    requires IsDirection(dr, dc)
    decreases Reach(r, dr) + Reach(c, dc)
  {
    if IsValidPosition(r, c) && b[r][c] == opp then RunEnd(b, r + dr, c + dc, dr, dc, opp)
    else Position(r, c)
  }

  lemma DirectionsAreDirections()
    ensures forall i :: 0 <= i < |DIRECTIONS| ==> IsDirection(DIRECTIONS[i].0, DIRECTIONS[i].1)
  {
  }

  /** What direction (dr, dc) contributes: its run, if non-empty and closed by one of the player's stones. */
  function DirectionalFlips(b: Board, pos: Position, player: Player, dr: int, dc: int): (flips: seq<Position>)
    requires IsDirection(dr, dc)
  {
    var opp := GetOpponentColor(player);
    var run := Run(b, pos.row + dr, pos.col + dc, dr, dc, opp);
    var end := RunEnd(b, pos.row + dr, pos.col + dc, dr, dc, opp);
    if InBounds(end) && CellAt(b, end) == player && |run| > 0 then run else []
  }

  /** The flips of the first k directions, concatenated in scan order. */
  function FlipsUpTo(b: Board, pos: Position, player: Player, k: nat): (flips: seq<Position>)
    requires k <= |DIRECTIONS|
  {
    DirectionsAreDirections();
    if k == 0 then []
    else FlipsUpTo(b, pos, player, k - 1) + DirectionalFlips(b, pos, player, DIRECTIONS[k - 1].0, DIRECTIONS[k - 1].1)
  }

  /** The stones `player` flips by playing at `pos`; empty if the cell is occupied. */
  function Flips(b: Board, pos: Position, player: Player): (flips: seq<Position>)
    requires InBounds(pos)
    ensures forall q :: q in flips ==> InBounds(q) && CellAt(b, q) == GetOpponentColor(player)
  {
    FlipsUpToSound(b, pos, player, |DIRECTIONS|);
    if CellAt(b, pos) != Empty then [] else FlipsUpTo(b, pos, player, |DIRECTIONS|)
  }

  /** The walk only collects in-bounds opponent stones. */
  lemma {:induction false} RunSound(b: Board, r: int, c: int, dr: int, dc: int, opp: Player)
    requires IsDirection(dr, dc)
    ensures forall q :: q in Run(b, r, c, dr, dc, opp) ==> InBounds(q) && CellAt(b, q) == opp
    decreases Reach(r, dr) + Reach(c, dc)
  {
    if IsValidPosition(r, c) && b[r][c] == opp {
      RunSound(b, r + dr, c + dc, dr, dc, opp);
    }
  }

  lemma {:induction false} FlipsUpToSound(b: Board, pos: Position, player: Player, k: nat)
    requires k <= |DIRECTIONS|
    ensures forall q :: q in FlipsUpTo(b, pos, player, k) ==> InBounds(q) && CellAt(b, q) == GetOpponentColor(player)
  {
    if k > 0 {
      DirectionsAreDirections();
      FlipsUpToSound(b, pos, player, k - 1);
      var (dr, dc) := DIRECTIONS[k - 1];
      DirectionalFlipsSound(b, pos, player, dr, dc);
      FlipsUpToStep(b, pos, player, k - 1);
    }
  }

  lemma DirectionalFlipsSound(b: Board, pos: Position, player: Player, dr: int, dc: int)
    requires IsDirection(dr, dc)
    ensures forall q :: q in DirectionalFlips(b, pos, player, dr, dc) ==> InBounds(q) && CellAt(b, q) == GetOpponentColor(player)
  {
    RunSound(b, pos.row + dr, pos.col + dc, dr, dc, GetOpponentColor(player));
  }

  /** The `while` walk of one direction: the run it collects and the cell where it stops. */
  method WalkRun(b: Board, r0: int, c0: int, dr: int, dc: int, opponent: Player)
    returns (directionalFlips: seq<Position>, r: int, c: int)
    requires IsDirection(dr, dc)
    ensures directionalFlips == Run(b, r0, c0, dr, dc, opponent)
    ensures Position(r, c) == RunEnd(b, r0, c0, dr, dc, opponent)
  {
    directionalFlips := [];
    r, c := r0, c0;
    while IsValidPosition(r, c) && b[r][c] == opponent
      invariant directionalFlips + Run(b, r, c, dr, dc, opponent) == Run(b, r0, c0, dr, dc, opponent)
      invariant RunEnd(b, r, c, dr, dc, opponent) == RunEnd(b, r0, c0, dr, dc, opponent)
      decreases Reach(r, dr) + Reach(c, dc)
    {
      WalkStep(b, r, c, dr, dc, opponent, directionalFlips);
      directionalFlips := directionalFlips + [Position(r, c)];
      r, c := r + dr, c + dc;
    }
    WalkStop(b, r, c, dr, dc, opponent, directionalFlips);
  }

  /** One step of the walk over an opponent stone. */
  lemma WalkStep(b: Board, r: int, c: int, dr: int, dc: int, opp: Player, walked: seq<Position>)
    requires IsDirection(dr, dc) && IsValidPosition(r, c) && b[r][c] == opp
    ensures (walked + [Position(r, c)]) + Run(b, r + dr, c + dc, dr, dc, opp) == walked + Run(b, r, c, dr, dc, opp)
    ensures RunEnd(b, r + dr, c + dc, dr, dc, opp) == RunEnd(b, r, c, dr, dc, opp)
    ensures Reach(r + dr, dr) + Reach(c + dc, dc) < Reach(r, dr) + Reach(c, dc)
  {
    var tail := Run(b, r + dr, c + dc, dr, dc, opp);
    assert Run(b, r, c, dr, dc, opp) == [Position(r, c)] + tail;
    assert (walked + [Position(r, c)]) + tail == walked + ([Position(r, c)] + tail);
  }

  /** The walk stops at the first cell that is not an in-bounds opponent stone. */
  lemma WalkStop(b: Board, r: int, c: int, dr: int, dc: int, opp: Player, walked: seq<Position>)
    requires IsDirection(dr, dc) && !(IsValidPosition(r, c) && b[r][c] == opp)
    ensures walked + Run(b, r, c, dr, dc, opp) == walked
    ensures RunEnd(b, r, c, dr, dc, opp) == Position(r, c)
  {
    assert Run(b, r, c, dr, dc, opp) == [];
    assert walked + [] == walked;
  }

  /** One pass of the direction loop: walk, then keep the run only if the player closes it. */
  method ScanDirection(b: Board, position: Position, player: Player, dr: int, dc: int)
    returns (contribution: seq<Position>)
    requires IsDirection(dr, dc)
    ensures contribution == DirectionalFlips(b, position, player, dr, dc)
  {
    var opponent := GetOpponentColor(player);
    var directionalFlips, r, c := WalkRun(b, position.row + dr, position.col + dc, dr, dc, opponent);
    if IsValidPosition(r, c) && b[r][c] == player && |directionalFlips| > 0 {
      contribution := directionalFlips;
    } else {
      contribution := [];
    }
  }

  method GetFlippedPositions(b: Board, position: Position, player: Player) returns (flipped: seq<Position>)
    requires InBounds(position)
    ensures flipped == Flips(b, position, player)
  {
    if CellAt(b, position) != Empty {
      return [];
    }
    DirectionsAreDirections();
    flipped := [];
    for i := 0 to |DIRECTIONS|
      invariant flipped == FlipsUpTo(b, position, player, i)
    {
      var directionalFlips := ScanDirection(b, position, player, DIRECTIONS[i].0, DIRECTIONS[i].1);
      FlipsUpToStep(b, position, player, i);
      flipped := flipped + directionalFlips;
    }
    FlipsOnEmpty(b, position, player);
  }

  lemma FlipsOnEmpty(b: Board, pos: Position, player: Player)
    requires InBounds(pos) && CellAt(b, pos) == Empty
    ensures Flips(b, pos, player) == FlipsUpTo(b, pos, player, |DIRECTIONS|)
  {
  }

  lemma FlipsUpToStep(b: Board, pos: Position, player: Player, i: nat)
    requires i < |DIRECTIONS| && IsDirection(DIRECTIONS[i].0, DIRECTIONS[i].1)
    ensures FlipsUpTo(b, pos, player, i + 1)
            == FlipsUpTo(b, pos, player, i) + DirectionalFlips(b, pos, player, DIRECTIONS[i].0, DIRECTIONS[i].1)
  {
  }

  predicate IsValidMove(b: Board, position: Position, player: Player)
    requires InBounds(position)
  {
    |Flips(b, position, player)| > 0
  }

  // ---------------------------------------------------------------------
  // getValidMoves

  predicate WellFormed(m: Move) {
    InBounds(m.position) && forall q :: q in m.flippedPositions ==> InBounds(q)
  }

  /**
   * The flip set `getValidMoves` asks for at each cell: `Flips` on the
   * board, nothing off it.  The move list is built over this table.
   */
  function FlipTable(b: Board, player: Player): Position -> seq<Position> {
    p => CellFlips(b, player, p)
  }

  function CellFlips(b: Board, player: Player, p: Position): seq<Position> {
    if InBounds(p) then Flips(b, p, player) else []
  }

  /** The entry for cell (`row`, `col`): present when its flip set is non-empty. */
  function CellEntry(flips: Position -> seq<Position>, row: int, col: int): seq<Move> {
    var p := Position(row, col);
    if |flips(p)| > 0 then [Move(p, flips(p))] else []
  }

  /** The entries of row `row` among its first `col` columns: the cells with a non-empty flip set. */
  function RowMoves(flips: Position -> seq<Position>, row: int, col: nat): seq<Move> {
    if col == 0 then [] else RowMoves(flips, row, col - 1) + CellEntry(flips, row, col - 1)
  }

  lemma RowMovesStep(flips: Position -> seq<Position>, row: int, col: nat)
    ensures RowMoves(flips, row, col + 1) == RowMoves(flips, row, col) + CellEntry(flips, row, col)
  {
  }

  /** The entries of the first `rows` rows, in row-major order. */
  function MovesUpTo(flips: Position -> seq<Position>, rows: nat): seq<Move> {
    if rows == 0 then [] else MovesUpTo(flips, rows - 1) + RowMoves(flips, rows - 1, BOARD_SIZE)
  }

  /** A move-list entry that pairs an in-bounds cell with its own non-empty flip set. */
  predicate Entry(flips: Position -> seq<Position>, m: Move) {
    InBounds(m.position) && m.flippedPositions == flips(m.position) && |m.flippedPositions| > 0
  }

  predicate AllEntries(flips: Position -> seq<Position>, ms: seq<Move>) {
    forall i :: 0 <= i < |ms| ==> Entry(flips, ms[i])
  }

  lemma AllEntriesConcat(flips: Position -> seq<Position>, a: seq<Move>, c: seq<Move>)
    requires AllEntries(flips, a) && AllEntries(flips, c)
    ensures AllEntries(flips, a + c)
  {
    forall i | 0 <= i < |a + c| ensures Entry(flips, (a + c)[i]) {
      if i < |a| {
        assert (a + c)[i] == a[i];
      } else {
        assert (a + c)[i] == c[i - |a|];
      }
    }
  }

  lemma {:induction false} RowMovesEntries(flips: Position -> seq<Position>, row: int, col: nat)
    requires 0 <= row < BOARD_SIZE && col <= BOARD_SIZE
    ensures AllEntries(flips, RowMoves(flips, row, col))
  {
    if col > 0 {
      RowMovesEntries(flips, row, col - 1);
      var prev, extra := RowMoves(flips, row, col - 1), CellEntry(flips, row, col - 1);
      AllEntriesConcat(flips, prev, extra);
    }
  }

  /** Every entry of the move list is a legal move with its flip set. */
  lemma {:induction false} MovesUpToEntries(flips: Position -> seq<Position>, rows: nat)
    requires rows <= BOARD_SIZE
    ensures AllEntries(flips, MovesUpTo(flips, rows))
  {
    if rows > 0 {
      MovesUpToEntries(flips, rows - 1);
      RowMovesEntries(flips, rows - 1, BOARD_SIZE);
      var prev, last := MovesUpTo(flips, rows - 1), RowMoves(flips, rows - 1, BOARD_SIZE);
      assert MovesUpTo(flips, rows) == prev + last;
      AllEntriesConcat(flips, prev, last);
    }
  }

  lemma EntriesWellFormed(b: Board, player: Player, ms: seq<Move>)
    requires AllEntries(FlipTable(b, player), ms)
    ensures forall m :: m in ms ==> WellFormed(m)
  {
    forall m | m in ms ensures WellFormed(m) {
      var i :| 0 <= i < |ms| && ms[i] == m;
      assert Entry(FlipTable(b, player), ms[i]);
      assert m.flippedPositions == Flips(b, m.position, player);
    }
  }

  /**
   * The move list of `ValidMoves`: `MovesUpTo` over the flip table, with the
   * rows spelled out so that the table itself is only reached row by row.
   */
  function BoardMoves(b: Board, player: Player, rows: nat): seq<Move> {
    if rows == 0 then [] else BoardMoves(b, player, rows - 1) + RowMoves(FlipTable(b, player), rows - 1, BOARD_SIZE)
  }

  lemma {:induction false} BoardMovesTable(b: Board, player: Player, rows: nat)
    ensures BoardMoves(b, player, rows) == MovesUpTo(FlipTable(b, player), rows)
  {
    if rows > 0 {
      BoardMovesTable(b, player, rows - 1);
    }
  }

  /** `ValidMoves` is the move list over the flip table. */
  lemma ValidMovesTable(b: Board, player: Player)
    ensures ValidMoves(b, player) == MovesUpTo(FlipTable(b, player), BOARD_SIZE)
  {
    BoardMovesTable(b, player, BOARD_SIZE);
  }

  function ValidMoves(b: Board, player: Player): (moves: seq<Move>)
    ensures forall m :: m in moves ==> WellFormed(m)
  {
    BoardMovesTable(b, player, BOARD_SIZE);
    MovesUpToEntries(FlipTable(b, player), BOARD_SIZE);
    EntriesWellFormed(b, player, MovesUpTo(FlipTable(b, player), BOARD_SIZE));
    BoardMoves(b, player, BOARD_SIZE)
  }

  /** One cell of the scan: its move, if its flip set is non-empty. */
  method ScanCell(b: Board, player: Player, position: Position) returns (entry: seq<Move>)
    requires InBounds(position)
    ensures entry == CellEntry(FlipTable(b, player), position.row, position.col)
  {
    var flippedPositions := GetFlippedPositions(b, position, player);
    if |flippedPositions| > 0 {
      entry := [Move(position, flippedPositions)];
    } else {
      entry := [];
    }
  }

  /** The inner `col` loop of `getValidMoves` for one row. */
  method ScanRow(b: Board, player: Player, row: int) returns (rowMoves: seq<Move>)
    requires 0 <= row < BOARD_SIZE
    ensures rowMoves == RowMoves(FlipTable(b, player), row, BOARD_SIZE)
  {
    ghost var flips := FlipTable(b, player);
    rowMoves := [];
    for col := 0 to BOARD_SIZE
      invariant rowMoves == RowMoves(flips, row, col)
    {
      var entry := ScanCell(b, player, Position(row, col));
      RowMovesStep(flips, row, col);
      rowMoves := rowMoves + entry;
    }
  }

  method GetValidMoves(b: Board, player: Player) returns (validMoves: seq<Move>)
    ensures validMoves == ValidMoves(b, player)
  {
    ghost var flips := FlipTable(b, player);
    validMoves := [];
    for row := 0 to BOARD_SIZE
      invariant validMoves == MovesUpTo(flips, row)
    {
      var rowMoves := ScanRow(b, player, row);
      validMoves := validMoves + rowMoves;
    }
    ValidMovesTable(b, player);
  }

  /** `validMoves.find(m => m.position matches)`. */
  function FindMove(moves: seq<Move>, pos: Position): (r: Option<Move>)
    ensures r.Some? ==> r.value in moves && r.value.position == pos
    ensures r.None? <==> forall i :: 0 <= i < |moves| ==> moves[i].position != pos
  {
    if moves == [] then None
    else if moves[0].position == pos then Some(moves[0])
    else FindMove(moves[1..], pos)
  }

  // ---------------------------------------------------------------------
  // makeMove

  function SetCells(b: Board, ps: seq<Position>, v: Cell): Board
    requires forall q :: q in ps ==> InBounds(q)
    decreases |ps|
  {
    if ps == [] then b else SetCells(SetCell(b, ps[0], v), ps[1..], v)
  }

  function ApplyMove(b: Board, move: Move, player: Player): Board
    requires WellFormed(move)
  {
    SetCells(SetCell(b, move.position, player), move.flippedPositions, player)
  }

  /** Writes the target and every flipped cell of a fresh copy. */
  method MakeMove(b: Board, move: Move, player: Player) returns (newBoard: Board)
    requires WellFormed(move)
    ensures newBoard == ApplyMove(b, move, player)
  {
    newBoard := b;
    newBoard := SetCell(newBoard, move.position, player);
    var flips := move.flippedPositions;
    for i := 0 to |flips|
      invariant SetCells(newBoard, flips[i..], player) == ApplyMove(b, move, player)
    {
      assert flips[i..][1..] == flips[i + 1..];
      newBoard := SetCell(newBoard, flips[i], player);
    }
  }

  // ---------------------------------------------------------------------
  // countStones

  /** Stones of `color` in row `row` among its first `col` columns. */
  function RowCount(b: Board, color: Cell, row: int, col: nat): nat
    requires 0 <= row < BOARD_SIZE && col <= BOARD_SIZE
  {
    if col == 0 then 0 else RowCount(b, color, row, col - 1) + (if b[row][col - 1] == color then 1 else 0)
  }

  /** Stones of `color` in the first `rows` rows. */
  function CountUpTo(b: Board, color: Cell, rows: nat): nat
    requires rows <= BOARD_SIZE
  {
    if rows == 0 then 0 else CountUpTo(b, color, rows - 1) + RowCount(b, color, rows - 1, BOARD_SIZE)
  }

  function Count(b: Board, color: Cell): nat {
    CountUpTo(b, color, BOARD_SIZE)
  }

  method CountStones(b: Board) returns (black: nat, white: nat)
    ensures black == Count(b, Black) && white == Count(b, White)
  {
    black, white := 0, 0;
    for row := 0 to BOARD_SIZE
      invariant black == CountUpTo(b, Black, row) && white == CountUpTo(b, White, row)
    {
      for col := 0 to BOARD_SIZE
        invariant black == CountUpTo(b, Black, row) + RowCount(b, Black, row, col)
        invariant white == CountUpTo(b, White, row) + RowCount(b, White, row, col)
      {
        var cell := b[row][col];
        if cell == Black {
          black := black + 1;
        } else if cell == White {
          white := white + 1;
        }
      }
    }
  }

  // ---------------------------------------------------------------------
  // isGameOver / getWinner

  predicate IsGameOver(b: Board) {
    |ValidMoves(b, Black)| == 0 && |ValidMoves(b, White)| == 0
  }

  datatype Winner = Win(player: Player) | Draw

  function GetWinner(b: Board): (w: Winner)
    ensures w == Win(Black) <==> Count(b, Black) > Count(b, White)
    ensures w == Win(White) <==> Count(b, White) > Count(b, Black)
    ensures w == Draw <==> Count(b, Black) == Count(b, White)
  {
    var black, white := Count(b, Black), Count(b, White);
    if black > white then Win(Black)
    else if white > black then Win(White)
    else Draw
  }
}
