/** The state `Game2048` keeps between button presses, the board and the
    score, and the rule each direction button and the restart button apply. */
module Session {
  import opened Grid
  import opened Moves
  import opened Placement
  import opened GameOver

  class Game {
    var board: Board
    var score: int

    /** What every turn keeps: a 4x4 board of cell values and a score that
        never went below zero. */
    ghost predicate Valid()
      reads this
    {
      WellFormed(board) && BoardTiles(board) && score >= 0
    }

    /** The initial state: a new board and a score of 0. */
    constructor (pick1: nat, value1: int, pick2: nat, value2: int)
      requires pick1 < Cells && pick2 < Cells - 1
      requires (value1 == 2 || value1 == 4) && (value2 == 2 || value2 == 4)
      ensures Valid() && score == 0
      ensures board == Seeded(pick1, value1, pick2, value2)
    {
      var initial := NewBoard(pick1, value1, pick2, value2);
      SeededShape(pick1, value1, pick2, value2);
      board := initial;
      score := 0;
    }

    /** One press of a direction button: apply the move; if the board it
        yields differs from the current one, spawn a tile into it, make it the
        current board and add the move's score; otherwise change nothing.
        `over` is whether the game-over notice is shown. */
    method Play(d: Direction, pick: nat, value: int) returns (over: bool)
      requires Valid()
      requires ValidPick(Shift(board, d), pick)
      requires value == 2 || value == 4
      modifies this
      ensures Valid()
      ensures Shift(old(board), d) == old(board) ==>
                board == old(board) && score == old(score) && !over
      ensures Shift(old(board), d) != old(board) ==>
                board == Spawn(Shift(old(board), d), pick, value) &&
                score == old(score) + ShiftGain(old(board), d) &&
                over == Terminal(board)
      ensures score >= old(score)
      ensures Terminal(old(board)) ==> board == old(board) && score == old(score) && !over
    {
      if Terminal(board) {
        TerminalIsStuck(board);
        assert Shift(board, d) == board;
      }
      var moved, gain := MoveIn(board, d);
      ShiftTiles(board, d);
      over := false;
      if moved != board {
        SpawnTiles(moved, pick, value);
        board := AddRandomTile(moved, pick, value);
        score := score + gain;
        over := IsGameOver(board);
      }
    }

    /** The restart button: a new board and a score of 0. */
    method Restart(pick1: nat, value1: int, pick2: nat, value2: int)
      requires pick1 < Cells && pick2 < Cells - 1
      requires (value1 == 2 || value1 == 4) && (value2 == 2 || value2 == 4)
      modifies this
      ensures Valid() && score == 0
      ensures board == Seeded(pick1, value1, pick2, value2)
    {
      var initial := NewBoard(pick1, value1, pick2, value2);
      SeededShape(pick1, value1, pick2, value2);
      board := initial;
      score := 0;
    }
  }
}
