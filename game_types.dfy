/**
 * The value types of the game (types/game.ts): cell states, players,
 * difficulties, positions, boards and legal moves.
 */
module GameTypes {
  const BOARD_SIZE: int := 8
  const CELL_COUNT: int := 64

  /** `CellState = Player | null`; `Empty` stands for `null`. */
  datatype Cell = Empty | Black | White

  /** `Player = 'black' | 'white'`. */
  type Player = c: Cell | c != Empty witness Black

  datatype Difficulty = Beginner | Intermediate | Advanced | Extreme

  /** Row and column are JavaScript numbers; scans step outside the board, so they are unbounded. */
  datatype Position = Position(row: int, col: int)

  predicate IsBoard(b: seq<seq<Cell>>) {
    |b| == BOARD_SIZE && forall i :: 0 <= i < |b| ==> |b[i]| == BOARD_SIZE
  }

  /** An 8x8 grid, always handled as an immutable snapshot. */
  type Board = b: seq<seq<Cell>> | IsBoard(b) witness seq(8, _ => seq(8, _ => Empty))

  /** A legal move as `getValidMoves` builds it: the target and the stones it flips. */
  datatype Move = Move(position: Position, flippedPositions: seq<Position>)
}
