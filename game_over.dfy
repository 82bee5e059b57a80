/** Detection of a finished game, `isGameOver`, and why it is right: a board
    is over exactly when it holds a tile and none of the four moves changes it. */
module GameOver {
  import opened Grid
  import opened Line
  import opened Moves

  /** Every cell holds a tile. */
  predicate NoEmptyCell(b: Board)
    requires WellFormed(b)
  {
    forall r, c :: 0 <= r < Size && 0 <= c < Size ==> b[r][c] != 0
  }

  /** No two horizontally or vertically adjacent cells are equal: no row and
      no column has two equal neighbours. */
  predicate NoEqualNeighbours(b: Board)
    requires WellFormed(b)
  {
    (forall r :: 0 <= r < Size ==> NoAdjacentEqual(b[r])) &&
    (forall c :: 0 <= c < Size ==> NoAdjacentEqual(Column(b, c)))
  }

  /** The terminal boards: full, and no merge possible in either axis. */
  predicate Terminal(b: Board)
    requires WellFormed(b)
  {
    NoEmptyCell(b) && NoEqualNeighbours(b)
  }

  /** Some cell holds a tile. */
  predicate HasTile(b: Board)
    requires WellFormed(b)
  {
    exists r, c :: 0 <= r < Size && 0 <= c < Size && b[r][c] != 0
  }

  /** `isGameOver`: any empty cell means the game goes on; then scan every
      row for an equal horizontal pair and every column for an equal
      vertical pair, returning as soon as one is found. */
  method IsGameOver(b: Board) returns (over: bool)
    requires WellFormed(b)
    ensures over == Terminal(b)
  {
    if exists r, c :: 0 <= r < Size && 0 <= c < Size && b[r][c] == 0 {
      return false;
    }
    for r := 0 to Size
      invariant forall r' :: 0 <= r' < r ==> NoAdjacentEqual(b[r'])
    {
      for c := 0 to Size - 1
        invariant forall c' :: 0 <= c' < c ==> b[r][c'] != b[r][c' + 1]
      {
        if b[r][c] == b[r][c + 1] {
          return false;
        }
      }
    }
    for c := 0 to Size
      invariant forall c' :: 0 <= c' < c ==> NoAdjacentEqual(Column(b, c'))
    {
      for r := 0 to Size - 1
        invariant forall r' :: 0 <= r' < r ==> Column(b, c)[r'] != Column(b, c)[r' + 1]
      {
        if b[r][c] == b[r + 1][c] {
          assert Column(b, c)[r] == Column(b, c)[r + 1];
          return false;
        }
      }
    }
    return true;
  }

  /** On a terminal board every line is full and has no equal neighbours. */
  lemma TerminalLine(b: Board, d: Direction, i: nat)
    requires WellFormed(b) && Terminal(b) && i < Size
    ensures Slide(LineOf(b, d, i)) == LineOf(b, d, i)
  {
    var line := LineOf(b, d, i);
    forall k | 0 <= k < Size
      ensures line[k] != 0
      ensures k < Size - 1 ==> line[k] != line[k + 1]
    {
      match d
      case Left =>
      case Right =>
        assert line[k] == b[i][Size - 1 - k];
        if k < Size - 1 {
          assert line[k + 1] == b[i][Size - 2 - k];
        }
      case Up =>
        assert line[k] == b[k][i];
      case Down =>
        assert line[k] == b[Size - 1 - k][i];
        if k < Size - 1 {
          assert line[k + 1] == b[Size - 2 - k][i];
        }
    }
    SlideFixed(line);
  }

  /** On a board no move changes, every line in every direction is packed
      and has no mergeable pair. */
  lemma StuckLine(b: Board, d: Direction, i: nat)
    requires WellFormed(b) && Stuck(b) && i < Size
    ensures Packed(LineOf(b, d, i)) && NoMergeablePair(LineOf(b, d, i))
  {
    ShiftFixed(b, d);
    SlideFixed(LineOf(b, d, i));
  }

  /** A line packed towards both ends that has one empty cell is empty. */
  lemma PackedBothWays(s: seq<int>, k: nat)
    requires Packed(s) && Packed(Reverse(s)) && k < |s| && s[k] == 0
    ensures forall j :: 0 <= j < |s| ==> s[j] == 0
  {
    forall j | 0 <= j < |s| ensures s[j] == 0 {
      if j < k {
        assert Reverse(s)[|s| - 1 - k] == 0;
        assert Reverse(s)[|s| - 1 - j] == s[j];
      }
    }
  }

  /** On a board no move changes, one empty cell empties its row, and then
      every column. */
  lemma ZeroSpreads(b: Board, r: nat, c: nat, r2: nat, c2: nat)
    requires WellFormed(b) && Stuck(b)
    requires r < Size && c < Size && r2 < Size && c2 < Size
    ensures b[r][c] == 0 ==> b[r2][c2] == 0
  {
    if b[r][c] == 0 {
      assert b[r][c2] == 0 by {
        StuckLine(b, Left, r);
        StuckLine(b, Right, r);
        PackedBothWays(b[r], c);
      }
      assert Column(b, c2)[r2] == 0 by {
        StuckLine(b, Up, c2);
        StuckLine(b, Down, c2);
        PackedBothWays(Column(b, c2), r);
      }
    }
  }

  /** A terminal board holds a tile and no move changes it. */
  lemma TerminalIsStuck(b: Board)
    requires WellFormed(b) && Terminal(b)
    ensures Stuck(b) && HasTile(b)
  {
    forall d: Direction, i | 0 <= i < Size
      ensures Slide(LineOf(b, d, i)) == LineOf(b, d, i)
    {
      TerminalLine(b, d, i);
    }
    ShiftFixed(b, Left);
    ShiftFixed(b, Right);
    ShiftFixed(b, Up);
    ShiftFixed(b, Down);
    assert b[0][0] != 0;
  }

  /** A board that holds a tile and that no move changes is full. */
  lemma StuckIsFull(b: Board)
    requires WellFormed(b) && Stuck(b) && HasTile(b)
    ensures NoEmptyCell(b)
  {
    var r2, c2 :| 0 <= r2 < Size && 0 <= c2 < Size && b[r2][c2] != 0;
    forall r, c | 0 <= r < Size && 0 <= c < Size
      ensures b[r][c] != 0
    {
      ZeroSpreads(b, r, c, r2, c2);
    }
  }

  /** A board that no move changes has no equal neighbours, once it is full. */
  lemma StuckHasNoEqualNeighbours(b: Board)
    requires WellFormed(b) && Stuck(b) && NoEmptyCell(b)
    ensures NoEqualNeighbours(b)
  {
    forall r | 0 <= r < Size
      ensures NoAdjacentEqual(b[r])
    {
      StuckLine(b, Left, r);
    }
    forall c | 0 <= c < Size
      ensures NoAdjacentEqual(Column(b, c))
    {
      StuckLine(b, Up, c);
    }
  }

  /** A board is over exactly when it holds a tile and no move changes it.
      The all-empty board is the one board no move changes that is not over. */
  lemma TerminalIffStuck(b: Board)
    requires WellFormed(b)
    ensures Terminal(b) <==> Stuck(b) && HasTile(b)
  {
    if Terminal(b) {
      TerminalIsStuck(b);
    }
    if Stuck(b) && HasTile(b) {
      StuckIsFull(b);
      StuckHasNoEqualNeighbours(b);
    }
  }

  /** The empty board: no move changes it, yet it is not over. */
  lemma EmptyBoardNotOver()
    ensures Stuck(EmptyBoard()) && !Terminal(EmptyBoard())
  {
    var e := EmptyBoard();
    forall d: Direction, i | 0 <= i < Size
      ensures Slide(LineOf(e, d, i)) == LineOf(e, d, i)
    {
      var line := LineOf(e, d, i);
      assert forall k :: 0 <= k < Size ==> line[k] == 0;
      SlideFixed(line);
    }
    ShiftFixed(e, Left);
    ShiftFixed(e, Right);
    ShiftFixed(e, Up);
    ShiftFixed(e, Down);
    assert e[0][0] == 0;
  }

  /** A full checkerboard of 2s and 4s is over. */
  lemma CheckerboardOver()
    ensures WellFormed([[2, 4, 2, 4], [4, 2, 4, 2], [2, 4, 2, 4], [4, 2, 4, 2]])
    ensures Terminal([[2, 4, 2, 4], [4, 2, 4, 2], [2, 4, 2, 4], [4, 2, 4, 2]])
  {
  }
}
