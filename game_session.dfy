/**
 * The game session of hooks/useGameState.ts: the state the hook keeps
 * between renders and the handlers that move it along.  The human plays
 * black, the AI white.  Every `Math.random()` draw a handler consumes is a
 * parameter.
 */
module GameSession {
  import opened Wrappers
  import opened GameTypes
  import opened GameLogic
  import opened BoardProperties
  import opened Random
  import opened Ai
  import opened Cheating

  /** The `GameState` record the hook stores. */
  datatype GameState = GameState(
    board: Board,
    currentPlayer: Player,
    blackCount: nat,
    whiteCount: nat,
    lastMove: Option<Position>,
    isGameOver: bool,
    winner: Option<Winner>,
    difficulty: Difficulty,
    cheatingHistory: seq<CheatRecord>,
    doubtSuccess: nat,
    isPlayerTurn: bool)

  /** The record `startNewGame` writes (and the hook's first state, with beginner difficulty). */
  function NewGameState(difficulty: Difficulty, initialBoard: Board): GameState {
    GameState(initialBoard, Black, 2, 2, None, false, None, difficulty, [], 0, true)
  }

  /** `updateGameState`: the board, the side to move and the figures derived from the board. */
  function UpdatedState(prev: GameState, board: Board, nextPlayer: Player, lastMove: Option<Position>): (s: GameState)
    ensures s.board == board && s.currentPlayer == nextPlayer && s.lastMove == lastMove
    ensures s.blackCount == Count(board, Black) && s.whiteCount == Count(board, White)
    ensures s.isGameOver <==> IsGameOver(board)
    ensures s.winner.Some? <==> s.isGameOver
    ensures s.winner == Some(Win(Black)) <==> s.isGameOver && s.blackCount > s.whiteCount
    ensures s.winner == Some(Win(White)) <==> s.isGameOver && s.whiteCount > s.blackCount
    ensures s.isPlayerTurn <==> nextPlayer == Black
    ensures s.difficulty == prev.difficulty && s.cheatingHistory == prev.cheatingHistory
    ensures s.doubtSuccess == prev.doubtSuccess
  {
    var gameOver := IsGameOver(board);
    prev.(board := board,
          currentPlayer := nextPlayer,
          blackCount := Count(board, Black),
          whiteCount := Count(board, White),
          lastMove := lastMove,
          isGameOver := gameOver,
          winner := if gameOver then Some(GetWinner(board)) else None,
          isPlayerTurn := nextPlayer == Black)
  }

  /** Who moves after `mover` has played onto `board`: the opponent if it can, otherwise `mover` again. */
  function NextPlayer(board: Board, mover: Player): (p: Player)
    ensures p != mover <==> |ValidMoves(board, GetOpponentColor(mover))| > 0
  {
    if |ValidMoves(board, GetOpponentColor(mover))| > 0 then GetOpponentColor(mover) else mover
  }

  /** `handlePlayerMove` goes ahead only on the player's turn, before the end, onto a legal black cell. */
  predicate PlayerMoveAccepted(s: GameState, pos: Position) {
    s.isPlayerTurn && !s.isGameOver && FindMove(ValidMoves(s.board, Black), pos).Some?
  }

  /** The move lookup accepts exactly the cells where black flips something, and finds that cell's flips. */
  lemma PlayerMoveAcceptedIff(s: GameState, pos: Position)
    ensures PlayerMoveAccepted(s, pos) <==>
              s.isPlayerTurn && !s.isGameOver && InBounds(pos) && |Flips(s.board, pos, Black)| > 0
    ensures PlayerMoveAccepted(s, pos) ==>
              FindMove(ValidMoves(s.board, Black), pos).value == Move(pos, Flips(s.board, pos, Black))
  {
    if InBounds(pos) {
      FindValidMove(s.board, Black, pos);
    } else {
      var moves := ValidMoves(s.board, Black);
      ValidMovesSpec(s.board, Black);
      if FindMove(moves, pos).Some? {
        ValidMoveIsLegal(s.board, Black, FindMove(moves, pos).value);
      }
    }
  }

  // ---------------------------------------------------------------------
  // handleDoubt's board

  /** The cell `boardBeforeAI` contributes, else the starting cell, with white turned black. */
  function DoubtCell(boardBeforeAI: Board, r: int, c: int): Cell
    requires IsValidPosition(r, c)
  {
    Whiten(MergedCell(boardBeforeAI, r, c))
  }

  function MergedCell(boardBeforeAI: Board, r: int, c: int): Cell
    requires IsValidPosition(r, c)
  {
    if boardBeforeAI[r][c] != Empty then boardBeforeAI[r][c] else InitialCell(r, c)
  }

  function Whiten(v: Cell): Cell {
    if v == White then Black else v
  }

  /**
   * After a doubt no white stone is left, every stone of `boardBeforeAI`
   * is black, its empty cells are as on the starting board but with the
   * centre all black, so the four centre cells are always black.
   */
  function DoubtBoard(boardBeforeAI: Board): (b: Board)
    ensures forall r, c :: IsValidPosition(r, c) ==> b[r][c] == DoubtCell(boardBeforeAI, r, c)
    ensures forall r, c :: IsValidPosition(r, c) ==> b[r][c] != White
    ensures forall r, c :: IsValidPosition(r, c) && boardBeforeAI[r][c] != Empty ==> b[r][c] == Black
    ensures forall r, c :: IsValidPosition(r, c) && boardBeforeAI[r][c] == Empty ==> b[r][c] == Whiten(InitialCell(r, c))
    ensures forall r, c :: 3 <= r <= 4 && 3 <= c <= 4 ==> b[r][c] == Black
  {
    seq(BOARD_SIZE, r requires 0 <= r < BOARD_SIZE =>
      seq(BOARD_SIZE, c requires 0 <= c < BOARD_SIZE => DoubtCell(boardBeforeAI, r, c)))
  }

  /** A colour that appears on no cell is counted zero times. */
  lemma {:induction false} AbsentColourCount(b: Board, color: Cell, rows: nat)
    requires rows <= BOARD_SIZE
    requires forall r, c :: IsValidPosition(r, c) ==> b[r][c] != color
    ensures CountUpTo(b, color, rows) == 0
  {
    if rows > 0 {
      AbsentColourCount(b, color, rows - 1);
      AbsentColourRow(b, color, rows - 1, BOARD_SIZE);
    }
  }

  lemma {:induction false} AbsentColourRow(b: Board, color: Cell, row: int, col: nat)
    requires 0 <= row < BOARD_SIZE && col <= BOARD_SIZE
    requires forall c :: 0 <= c < BOARD_SIZE ==> b[row][c] != color
    ensures RowCount(b, color, row, col) == 0
  {
    if col > 0 {
      AbsentColourRow(b, color, row, col - 1);
    }
  }

  /**
   * The counts `handleDoubt` writes, 64 and 0, match the doubt board on
   * white, and on black exactly when no cell of it is empty.
   */
  lemma DoubtCounts(boardBeforeAI: Board)
    ensures Count(DoubtBoard(boardBeforeAI), White) == 0
    ensures Count(DoubtBoard(boardBeforeAI), Black) == CELL_COUNT <==> Count(DoubtBoard(boardBeforeAI), Empty) == 0
  {
    var b := DoubtBoard(boardBeforeAI);
    AbsentColourCount(b, White, BOARD_SIZE);
    CountTotal(b);
  }

  /** The starting board doubted gives four black stones, not the 64 the hook records. */
  lemma DoubtOnStartingBoard(initialBoard: Board)
    requires IsInitialBoard(initialBoard)
    ensures Count(DoubtBoard(initialBoard), Empty) > 0
  {
    var b := DoubtBoard(initialBoard);
    assert b[0][0] == Empty;
    EmptyCellCounted(b, Position(0, 0));
  }

  lemma EmptyCellCounted(b: Board, p: Position)
    requires InBounds(p) && CellAt(b, p) == Empty
    ensures Count(b, Empty) > 0
  {
    CountSetCell(b, p, White, Empty);
  }

  /** The two `forEach` passes of `handleDoubt`, writing into a fresh starting board. */
  method BuildDoubtBoard(boardBeforeAI: Board) returns (newBoard: Board)
    ensures newBoard == DoubtBoard(boardBeforeAI)
  {
    newBoard := CreateInitialBoard();
    for row := 0 to BOARD_SIZE
      invariant forall r, c :: IsValidPosition(r, c) ==>
                  newBoard[r][c] == if r < row then MergedCell(boardBeforeAI, r, c) else InitialCell(r, c)
    {
      for col := 0 to BOARD_SIZE
        invariant forall r, c :: IsValidPosition(r, c) ==>
                    newBoard[r][c] == if r < row || (r == row && c < col) then MergedCell(boardBeforeAI, r, c)
                                      else InitialCell(r, c)
      {
        if boardBeforeAI[row][col] != Empty {
          newBoard := SetCell(newBoard, Position(row, col), boardBeforeAI[row][col]);
        }
      }
    }
    for row := 0 to BOARD_SIZE
      invariant forall r, c :: IsValidPosition(r, c) ==>
                  newBoard[r][c] == if r < row then DoubtCell(boardBeforeAI, r, c) else MergedCell(boardBeforeAI, r, c)
    {
      for col := 0 to BOARD_SIZE
        invariant forall r, c :: IsValidPosition(r, c) ==>
                    newBoard[r][c] == if r < row || (r == row && c < col) then DoubtCell(boardBeforeAI, r, c)
                                      else MergedCell(boardBeforeAI, r, c)
      {
        if newBoard[row][col] == White {
          newBoard := SetCell(newBoard, Position(row, col), Black);
        }
      }
    }
    BoardsEqualIff(newBoard, DoubtBoard(boardBeforeAI));
  }

  // ---------------------------------------------------------------------
  // The cheat log

  /**
   * What the cheat rules keep true of `cheatingHistory`: within the
   * difficulty's cap, every cheat from turn 10 on and before the current
   * turn, and consecutive cheats at least 3 turns apart.
   */
  predicate CheatLog(history: seq<CheatRecord>, difficulty: Difficulty, turn: int) {
    && |history| <= MaxCheatsPerGame(difficulty)
    && (forall i :: 0 <= i < |history| ==> 10 <= history[i].turn < turn)
    && (forall i :: 0 < i < |history| ==> history[i - 1].turn + 3 <= history[i].turn)
  }

  /** A cheat `shouldCheat` allows, recorded at the current turn, keeps the log one turn later. */
  lemma CheatLogAppend(history: seq<CheatRecord>, difficulty: Difficulty, turn: int, draw: real, record: CheatRecord)
    requires CheatLog(history, difficulty, turn)
    requires ShouldCheat(difficulty, turn, history, draw)
    requires record.turn == turn
    ensures CheatLog(history + [record], difficulty, turn + 1)
  {
    var h := history + [record];
    forall i | 0 < i < |h| ensures h[i - 1].turn + 3 <= h[i].turn {
      if i < |history| {
        assert h[i - 1] == history[i - 1] && h[i] == history[i];
      } else {
        assert h[i - 1] == history[|history| - 1];
      }
    }
  }

  /** A log stays a log as the turn counter grows. */
  lemma CheatLogLater(history: seq<CheatRecord>, difficulty: Difficulty, turn: int, later: int)
    requires CheatLog(history, difficulty, turn) && turn <= later
    ensures CheatLog(history, difficulty, later)
  {
  }

  /**
   * The invariant of the hook's state: the winner is known exactly at
   * the end, it is the player's turn exactly when black is to move, the
   * counts are the board's (or the 64/0 a doubt writes), the cheat log
   * keeps the cheat rules, and the last cheat is the last logged one.
   */
  predicate SessionInvariant(gameState: GameState, turn: int, lastCheat: Option<CheatRecord>) {
    && turn >= 1
    && (gameState.isGameOver <==> gameState.winner.Some?)
    && (gameState.isPlayerTurn <==> gameState.currentPlayer == Black)
    && ((gameState.blackCount == Count(gameState.board, Black) && gameState.whiteCount == Count(gameState.board, White))
        || (gameState.isGameOver && gameState.blackCount == CELL_COUNT && gameState.whiteCount == 0))
    && CheatLog(gameState.cheatingHistory, gameState.difficulty, turn)
    && (lastCheat.Some? ==>
          |gameState.cheatingHistory| > 0 && lastCheat.value == gameState.cheatingHistory[|gameState.cheatingHistory| - 1])
  }

  /** A new game starts in a state that keeps the invariant, with two stones each. */
  lemma NewGameValid(difficulty: Difficulty, initialBoard: Board)
    requires IsInitialBoard(initialBoard)
    ensures SessionInvariant(NewGameState(difficulty, initialBoard), 1, None)
  {
    InitialBoardCounts(initialBoard);
  }

  // ---------------------------------------------------------------------
  // The hook

  class Session {
    var gameState: GameState
    var turn: int
    var lastCheat: Option<CheatRecord>
    var boardBeforeAI: Board

    /** What every handler keeps true of the hook's state. */
    predicate Valid()
      reads this
    {
      SessionInvariant(gameState, turn, lastCheat)
    }

    constructor()
      ensures Valid()
      ensures IsInitialBoard(boardBeforeAI)
      ensures gameState == NewGameState(Beginner, boardBeforeAI) && turn == 1 && lastCheat == None
    {
      var initialBoard := CreateInitialBoard();
      gameState := NewGameState(Beginner, initialBoard);
      turn := 1;
      lastCheat := None;
      boardBeforeAI := initialBoard;
      NewGameValid(Beginner, initialBoard);
    }

    /** `updateGameState`, computing the counts and the end of game from the board. */
    method UpdateGameState(board: Board, nextPlayer: Player, lastMove: Option<Position>)
      modifies this
      ensures gameState == UpdatedState(old(gameState), board, nextPlayer, lastMove)
      ensures turn == old(turn) && lastCheat == old(lastCheat) && boardBeforeAI == old(boardBeforeAI)
    {
      var black, white := CountStones(board);
      var blackMoves := GetValidMoves(board, Black);
      var whiteMoves := GetValidMoves(board, White);
      var gameOver := |blackMoves| == 0 && |whiteMoves| == 0;
      gameState := gameState.(board := board,
                              currentPlayer := nextPlayer,
                              blackCount := black,
                              whiteCount := white,
                              lastMove := lastMove,
                              isGameOver := gameOver,
                              winner := if gameOver then Some(GetWinner(board)) else None,
                              isPlayerTurn := nextPlayer == Black);
    }

    /** `handlePlayerMove(row, col)`: black plays onto the cell if that is legal now. */
    method HandlePlayerMove(row: int, col: int)
      requires Valid()
      modifies this
      ensures Valid()
      ensures !PlayerMoveAccepted(old(gameState), Position(row, col)) ==> unchanged(this)
      ensures PlayerMoveAccepted(old(gameState), Position(row, col)) ==>
                var move := FindMove(ValidMoves(old(gameState).board, Black), Position(row, col)).value;
                var newBoard := ApplyMove(old(gameState).board, move, Black);
                && boardBeforeAI == newBoard
                && gameState == UpdatedState(old(gameState), newBoard, NextPlayer(newBoard, Black), Some(Position(row, col)))
                && turn == old(turn) + 1
                && lastCheat == old(lastCheat)
    {
      if !gameState.isPlayerTurn || gameState.isGameOver {
        return;
      }
      var validMoves := GetValidMoves(gameState.board, Black);
      var found := FindMove(validMoves, Position(row, col));
      if found.None? {
        return;
      }
      var move := found.value;
      assert WellFormed(move);
      var newBoard := MakeMove(gameState.board, move, Black);
      boardBeforeAI := newBoard;
      var whiteMoves := GetValidMoves(newBoard, White);
      var nextPlayer := if |whiteMoves| > 0 then White else Black;
      UpdateGameState(newBoard, nextPlayer, Some(Position(row, col)));
      turn := turn + 1;
      CheatLogLater(gameState.cheatingHistory, gameState.difficulty, turn - 1, turn);
    }

    /** The end of `handleAIMove` once white has played or cheated onto `newBoard`. */
    method FinishAIMove(newBoard: Board, move: Move)
      modifies this
      ensures gameState == UpdatedState(old(gameState), newBoard, NextPlayer(newBoard, White), Some(move.position))
      ensures turn == old(turn) + 1 && lastCheat == old(lastCheat) && boardBeforeAI == old(boardBeforeAI)
    {
      var blackMoves := GetValidMoves(newBoard, Black);
      var nextPlayer := if |blackMoves| > 0 then Black else White;
      UpdateGameState(newBoard, nextPlayer, Some(move.position));
      turn := turn + 1;
    }

    /** The cheat branch: the record is logged and its board replaces white's move. */
    method CheatInstead(move: Move, record: CheatRecord, ghost cheatDraw: real)
      requires Valid()
      requires ShouldCheat(gameState.difficulty, turn, gameState.cheatingHistory, cheatDraw)
      requires record.turn == turn
      modifies this
      ensures Valid()
      ensures lastCheat == Some(record)
      ensures gameState == UpdatedState(old(gameState).(cheatingHistory := old(gameState).cheatingHistory + [record]),
                                        record.cheatedBoard, NextPlayer(record.cheatedBoard, White), Some(move.position))
      ensures turn == old(turn) + 1 && boardBeforeAI == old(boardBeforeAI)
    {
      CheatLogAppend(gameState.cheatingHistory, gameState.difficulty, turn, cheatDraw, record);
      lastCheat := Some(record);
      gameState := gameState.(cheatingHistory := gameState.cheatingHistory + [record]);
      FinishAIMove(record.cheatedBoard, move);
    }

    /** The honest branch: white's move is played and the last cheat forgotten. */
    method PlayHonestly(move: Move)
      requires Valid()
      requires WellFormed(move)
      modifies this
      ensures Valid()
      ensures lastCheat == None
      ensures gameState == UpdatedState(old(gameState), ApplyMove(old(gameState).board, move, White),
                                        NextPlayer(ApplyMove(old(gameState).board, move, White), White), Some(move.position))
      ensures turn == old(turn) + 1 && boardBeforeAI == old(boardBeforeAI)
    {
      var newBoard := MakeMove(gameState.board, move, White);
      lastCheat := None;
      CheatLogLater(gameState.cheatingHistory, gameState.difficulty, turn, turn + 1);
      FinishAIMove(newBoard, move);
    }

    /** White has no move: the board stays, and black moves next if it can. */
    method PassAIMove()
      requires Valid()
      modifies this
      ensures Valid()
      ensures gameState == UpdatedState(old(gameState), old(gameState).board, NextPlayer(old(gameState).board, White), None)
      ensures turn == old(turn) && lastCheat == old(lastCheat) && boardBeforeAI == old(boardBeforeAI)
    {
      var blackMoves := GetValidMoves(gameState.board, Black);
      var nextPlayer := if |blackMoves| > 0 then Black else White;
      UpdateGameState(gameState.board, nextPlayer, None);
    }

    /**
     * `handleAIMove`, the body of its timer callback: white plays, or
     * cheats instead, or passes.  A null `performCheat` result ends the
     * callback before it changes anything.
     */
    method HandleAIMove(draw: real, draw2: real, cheatDraw: real, cheatDraws: CheatDraws)
      requires Valid()
      requires IsDraw(draw) && IsDraw(draw2) && ValidDraws(cheatDraws)
      modifies this
      ensures Valid()
      ensures old(gameState).currentPlayer != White || old(gameState).isGameOver ==> unchanged(this)
      ensures old(gameState).currentPlayer == White && !old(gameState).isGameOver ==>
                var s := old(gameState);
                var aiMove := AIMove(s.board, White, s.difficulty, draw, draw2);
                var cheat := ShouldCheat(s.difficulty, old(turn), s.cheatingHistory, cheatDraw);
                var record := PerformCheatResult(s.board, s.difficulty, old(turn), cheatDraws);
                if aiMove.None? then
                  && gameState == UpdatedState(s, s.board, NextPlayer(s.board, White), None)
                  && turn == old(turn) && lastCheat == old(lastCheat) && boardBeforeAI == old(boardBeforeAI)
                else if cheat && record.None? then
                  unchanged(this)
                else if cheat then
                  && lastCheat == record
                  && gameState == UpdatedState(s.(cheatingHistory := s.cheatingHistory + [record.value]),
                                               record.value.cheatedBoard, NextPlayer(record.value.cheatedBoard, White),
                                               Some(aiMove.value.position))
                  && turn == old(turn) + 1 && boardBeforeAI == old(boardBeforeAI)
                else
                  var newBoard := ApplyMove(s.board, aiMove.value, White);
                  && lastCheat == None
                  && gameState == UpdatedState(s, newBoard, NextPlayer(newBoard, White), Some(aiMove.value.position))
                  && turn == old(turn) + 1 && boardBeforeAI == old(boardBeforeAI)
    {
      if gameState.currentPlayer != White || gameState.isGameOver {
        return;
      }
      var aiMove := GetAIMove(gameState.board, White, gameState.difficulty, draw, draw2);
      if aiMove.None? {
        PassAIMove();
        return;
      }
      AIMoveIsLegal(gameState.board, White, gameState.difficulty, draw, draw2);
      var move := aiMove.value;
      if ShouldCheat(gameState.difficulty, turn, gameState.cheatingHistory, cheatDraw) {
        var cheatResult := PerformCheat(gameState.board, gameState.difficulty, turn, cheatDraws);
        if cheatResult.None? {
          return;
        }
        PerformCheatSpec(gameState.board, gameState.difficulty, turn, cheatDraws);
        CheatInstead(move, cheatResult.value, cheatDraw);
      } else {
        PlayHonestly(move);
      }
    }

    /** `handleDoubt`: any doubt raised after a cheat, on black's turn, wins the game for black. */
    method HandleDoubt()
      requires Valid()
      modifies this
      ensures Valid()
      ensures old(lastCheat).None? || old(gameState).currentPlayer != Black ==> unchanged(this)
      ensures old(lastCheat).Some? && old(gameState).currentPlayer == Black ==>
                && gameState == old(gameState).(board := DoubtBoard(old(boardBeforeAI)),
                                                isGameOver := true,
                                                winner := Some(Win(Black)),
                                                doubtSuccess := old(gameState).doubtSuccess + 1,
                                                blackCount := CELL_COUNT,
                                                whiteCount := 0)
                && turn == old(turn) && lastCheat == old(lastCheat) && boardBeforeAI == old(boardBeforeAI)
    {
      if lastCheat.None? || gameState.currentPlayer != Black {
        return;
      }
      var newBoard := BuildDoubtBoard(boardBeforeAI);
      gameState := gameState.(board := newBoard,
                              isGameOver := true,
                              winner := Some(Win(Black)),
                              doubtSuccess := gameState.doubtSuccess + 1,
                              blackCount := CELL_COUNT,
                              whiteCount := 0);
    }

    /** `startNewGame(difficulty)`: a fresh board, black to move, turn 1, no cheats on record. */
    method StartNewGame(difficulty: Difficulty)
      modifies this
      ensures Valid()
      ensures IsInitialBoard(boardBeforeAI)
      ensures gameState == NewGameState(difficulty, boardBeforeAI) && turn == 1 && lastCheat == None
    {
      var initialBoard := CreateInitialBoard();
      gameState := NewGameState(difficulty, initialBoard);
      turn := 1;
      lastCheat := None;
      boardBeforeAI := initialBoard;
      NewGameValid(difficulty, initialBoard);
    }
  }
}
