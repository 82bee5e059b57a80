/** Placing new tiles: `addRandomTile` and `newBoard`. The random choices
    are inputs here: `pick` is the index into the list of empty cells that
    `emptyCells.random()` returns, and `value` is the 2 or 4 that
    `Random.nextInt(100) < 90` selects. */
module Placement {
  import opened Grid

  /** Number of cells on the board. */
  const Cells: nat := Size * Size

  /** A value a cell can hold right after `newBoard`: empty, 2 or 4. */
  predicate StartValue(v: int) {
    v == 0 || v == 2 || v == 4
  }

  /** A cell position: (row, column). */
  type Position = (nat, nat)

  /** `p` comes before `q` in row-major order. */
  predicate Before(p: Position, q: Position) {
    p.0 < q.0 || (p.0 == q.0 && p.1 < q.1)
  }

  /** The empty cells among the first `c` cells of row `r`, left to right:
      what the inner loop of `addRandomTile` has listed after `c` steps. */
  function EmptyInRow(b: Board, r: nat, c: nat): (cells: seq<Position>)
    requires WellFormed(b) && r < Size && c <= Size
    ensures forall i :: 0 <= i < |cells| ==>
              cells[i].0 == r && cells[i].1 < c && b[r][cells[i].1] == 0
  {
    if c == 0 then []
    else if b[r][c - 1] == 0 then EmptyInRow(b, r, c - 1) + [(r, c - 1)]
    else EmptyInRow(b, r, c - 1)
  }

  /** The empty cells of the first `r` rows, row by row: what the outer loop
      of `addRandomTile` has listed after `r` steps. */
  function EmptyRows(b: Board, r: nat): (cells: seq<Position>)
    requires WellFormed(b) && r <= Size
    ensures forall i :: 0 <= i < |cells| ==>
              cells[i].0 < r && cells[i].1 < Size && b[cells[i].0][cells[i].1] == 0
  {
    if r == 0 then [] else EmptyRows(b, r - 1) + EmptyInRow(b, r - 1, Size)
  }

  /** Every empty cell of the board, each once, in row-major order. */
  function EmptyCells(b: Board): seq<Position>
    requires WellFormed(b)
  {
    EmptyRows(b, |b|)
  }

  /** `pick` names one of the empty cells, if there is any. */
  predicate ValidPick(b: Board, pick: nat)
    requires WellFormed(b)
  {
    EmptyCells(b) != [] ==> pick < |EmptyCells(b)|
  }

  /** The board after `addRandomTile` with the given choices. */
  function Spawn(b: Board, pick: nat, value: int): (r: Board)
    requires WellFormed(b) && ValidPick(b, pick)
    ensures WellFormed(r)
  {
    var cells := EmptyCells(b);
    if cells == [] then b
    else
      var p := cells[pick];
      b[p.0 := b[p.0][p.1 := value]]
  }

  /** The nested loops at the start of `addRandomTile`: every empty cell,
      row by row. */
  method ListEmptyCells(b: Board) returns (emptyCells: seq<Position>)
    requires WellFormed(b)
    ensures emptyCells == EmptyCells(b)
  {
    emptyCells := [];
    for r := 0 to Size
      invariant emptyCells == EmptyRows(b, r)
    {
      for c := 0 to Size
        invariant emptyCells == EmptyRows(b, r) + EmptyInRow(b, r, c)
      {
        if b[r][c] == 0 {
          AppendAssoc(EmptyRows(b, r), EmptyInRow(b, r, c), [(r, c)]);
          emptyCells := emptyCells + [(r, c)];
        }
      }
    }
  }

  /** `addRandomTile`: list the empty cells; with none, return the board as
      it is; otherwise write the value into the chosen one of a copy. */
  method AddRandomTile(b: Board, pick: nat, value: int) returns (next: Board)
    requires WellFormed(b) && ValidPick(b, pick)
    requires value == 2 || value == 4
    ensures next == Spawn(b, pick, value)
  {
    var emptyCells := ListEmptyCells(b);
    if emptyCells == [] {
      return b;
    }
    var (row, col) := emptyCells[pick];
    next := b[row := b[row][col := value]];
  }

  /** The pick and value of spawn `i` are in range: a board that already
      holds `i` spawned tiles has `Cells - i` empty cells to pick from. */
  predicate ValidChoices(choices: seq<(nat, int)>) {
    forall i :: 0 <= i < |choices| ==>
      choices[i].0 < Cells - i && (choices[i].1 == 2 || choices[i].1 == 4)
  }

  /** The board after the spawns `choices`, made in order into the empty
      board: each names an empty cell of the board at that moment, by its
      index, and the value placed there. */
  function Spawns(choices: seq<(nat, int)>): (r: Board)
    requires ValidChoices(choices)
    ensures WellFormed(r)
    decreases |choices|, 0
  {
    if choices == [] then EmptyBoard()
    else
      var init := choices[..|choices| - 1];
      SpawnsCount(init);
      var last := choices[|choices| - 1];
      Spawn(Spawns(init), last.0, last.1)
  }

  /** Each spawn fills one empty cell. */
  lemma {:induction false} SpawnsCount(choices: seq<(nat, int)>)
    requires ValidChoices(choices)
    ensures |EmptyCells(Spawns(choices))| == Cells - |choices|
    decreases |choices|, 1
  {
    if choices == [] {
      EmptyBoardCells();
    } else {
      var init := choices[..|choices| - 1];
      SpawnsCount(init);
      var last := choices[|choices| - 1];
      SpawnCount(Spawns(init), last.0, last.1);
    }
  }

  /** Spawns into the empty board leave only 0s, 2s and 4s. */
  lemma {:induction false} SpawnsValues(choices: seq<(nat, int)>)
    requires ValidChoices(choices)
    ensures forall r, c :: 0 <= r < Size && 0 <= c < Size ==> StartValue(Spawns(choices)[r][c])
    decreases |choices|
  {
    if choices != [] {
      var init := choices[..|choices| - 1];
      SpawnsValues(init);
      SpawnsCount(init);
      var last := choices[|choices| - 1];
      SpawnValues(Spawns(init), last.0, last.1);
    }
  }

  /** The board `newBoard` returns for the given choices: two spawns into
      the empty board (`FirstSpawn`, `SecondSpawn`), holding two tiles
      (`SeededShape`). */
  function Seeded(pick1: nat, value1: int, pick2: nat, value2: int): (b: Board)
    requires pick1 < Cells && pick2 < Cells - 1
    requires (value1 == 2 || value1 == 4) && (value2 == 2 || value2 == 4)
    ensures WellFormed(b)
  {
    Spawns([(pick1, value1), (pick2, value2)])
  }

  /** A new board holds exactly two tiles, every cell is 0, 2 or 4, and so
      it is a board of tiles. */
  lemma SeededShape(pick1: nat, value1: int, pick2: nat, value2: int)
    requires pick1 < Cells && pick2 < Cells - 1
    requires (value1 == 2 || value1 == 4) && (value2 == 2 || value2 == 4)
    ensures |EmptyCells(Seeded(pick1, value1, pick2, value2))| == Cells - 2
    ensures forall r, c :: 0 <= r < Size && 0 <= c < Size ==>
              StartValue(Seeded(pick1, value1, pick2, value2)[r][c])
    ensures BoardTiles(Seeded(pick1, value1, pick2, value2))
  {
    SpawnsCount([(pick1, value1), (pick2, value2)]);
    SpawnsValues([(pick1, value1), (pick2, value2)]);
    TilesFromValues(Seeded(pick1, value1, pick2, value2));
  }

  /** The second spawn of a new board goes into one of the 15 empty cells
      the first left: with `FirstSpawn`, a new board is
      `Spawn(Spawn(EmptyBoard(), pick1, value1), pick2, value2)`. */
  lemma SecondSpawn(pick1: nat, value1: int, pick2: nat, value2: int)
    requires pick1 < Cells && pick2 < Cells - 1
    requires (value1 == 2 || value1 == 4) && (value2 == 2 || value2 == 4)
    ensures ValidPick(Spawns([(pick1, value1)]), pick2)
    ensures Seeded(pick1, value1, pick2, value2) ==
              Spawn(Spawns([(pick1, value1)]), pick2, value2)
  {
    var choices: seq<(nat, int)> := [(pick1, value1), (pick2, value2)];
    assert choices[..1] == [(pick1, value1)];
    SpawnsCount(choices[..1]);
  }

  /** The first spawn into the empty board: into one of its 16 empty cells,
      leaving 15. */
  lemma FirstSpawn(pick: nat, value: int)
    requires pick < Cells && (value == 2 || value == 4)
    ensures ValidPick(EmptyBoard(), pick)
    ensures Spawns([(pick, value)]) == Spawn(EmptyBoard(), pick, value)
    ensures |EmptyCells(Spawns([(pick, value)]))| == Cells - 1
  {
    var choices: seq<(nat, int)> := [(pick, value)];
    SpawnsCount(choices);
    assert choices[..0] == [];
    EmptyBoardCells();
  }

  /** `newBoard`: two tiles placed on the empty board. */
  method NewBoard(pick1: nat, value1: int, pick2: nat, value2: int) returns (board: Board)
    requires pick1 < Cells && pick2 < Cells - 1
    requires (value1 == 2 || value1 == 4) && (value2 == 2 || value2 == 4)
    ensures board == Seeded(pick1, value1, pick2, value2)
  {
    FirstSpawn(pick1, value1);
    SecondSpawn(pick1, value1, pick2, value2);
    board := AddRandomTile(EmptyBoard(), pick1, value1);
    board := AddRandomTile(board, pick2, value2);
  }

  /** Cells that are all 0, 2 or 4 are cell values. */
  lemma TilesFromValues(b: Board)
    requires WellFormed(b)
    requires forall r, c :: 0 <= r < Size && 0 <= c < Size ==> StartValue(b[r][c])
    ensures BoardTiles(b)
  {
    assert IsPowerOfTwo(2) && IsPowerOfTwo(4);
  }

  // ---------------------------------------------------------------------------
  // Properties

  /** The row listing names the empty cells before column `c`, left to right. */
  lemma {:induction false} EmptyInRowExact(b: Board, r: nat, c: nat)
    requires WellFormed(b) && r < Size && c <= Size
    ensures forall c' :: 0 <= c' < Size ==>
              ((r, c') in EmptyInRow(b, r, c) <==> c' < c && b[r][c'] == 0)
    ensures forall i, j :: 0 <= i < j < |EmptyInRow(b, r, c)| ==>
              EmptyInRow(b, r, c)[i].1 < EmptyInRow(b, r, c)[j].1
  {
    if c > 0 {
      EmptyInRowExact(b, r, c - 1);
    }
  }

  /** The listing of the first `r` rows names exactly their empty cells. */
  lemma {:induction false} EmptyRowsMembers(b: Board, r: nat)
    requires WellFormed(b) && r <= Size
    ensures forall r', c' :: 0 <= r' < Size && 0 <= c' < Size ==>
              ((r', c') in EmptyRows(b, r) <==> r' < r && b[r'][c'] == 0)
  {
    if r > 0 {
      EmptyRowsMembers(b, r - 1);
      EmptyInRowExact(b, r - 1, Size);
    }
  }

  /** The listing of the first `r` rows is in row-major order. */
  lemma {:induction false} EmptyRowsOrder(b: Board, r: nat)
    requires WellFormed(b) && r <= Size
    ensures forall i, j :: 0 <= i < j < |EmptyRows(b, r)| ==>
              Before(EmptyRows(b, r)[i], EmptyRows(b, r)[j])
  {
    if r > 0 {
      EmptyRowsOrder(b, r - 1);
      EmptyInRowExact(b, r - 1, Size);
      var front, row := EmptyRows(b, r - 1), EmptyInRow(b, r - 1, Size);
      assert EmptyRows(b, r) == front + row;
      forall i, j | 0 <= i < j < |front + row|
        ensures Before((front + row)[i], (front + row)[j])
      {
        if j < |front| {
          assert (front + row)[i] == front[i] && (front + row)[j] == front[j];
        } else if i < |front| {
          assert (front + row)[i] == front[i] && (front + row)[j] == row[j - |front|];
        } else {
          assert (front + row)[i] == row[i - |front|] && (front + row)[j] == row[j - |front|];
        }
      }
    }
  }

  /** `EmptyCells` lists exactly the empty cells, each once, in row-major order. */
  lemma EmptyCellsExact(b: Board)
    requires WellFormed(b)
    ensures forall r, c :: 0 <= r < Size && 0 <= c < Size ==>
              ((r, c) in EmptyCells(b) <==> b[r][c] == 0)
    ensures forall i, j :: 0 <= i < j < |EmptyCells(b)| ==> Before(EmptyCells(b)[i], EmptyCells(b)[j])
    ensures forall i, j :: 0 <= i < j < |EmptyCells(b)| ==> EmptyCells(b)[i] != EmptyCells(b)[j]
  {
    EmptyRowsMembers(b, Size);
    EmptyRowsOrder(b, Size);
  }

  /** Setting one empty cell of row `r0` to a tile removes exactly that cell
      from the row listing, once the scan has passed it. */
  lemma {:induction false} EmptyInRowFill(b: Board, r: nat, c: nat, r0: nat, c0: nat, value: int)
    requires WellFormed(b) && r < Size && c <= Size && r0 < Size && c0 < Size
    requires b[r0][c0] == 0 && value != 0
    ensures |EmptyInRow(b[r0 := b[r0][c0 := value]], r, c)|
            == |EmptyInRow(b, r, c)| - (if r == r0 && c0 < c then 1 else 0)
  {
    if c > 0 {
      EmptyInRowFill(b, r, c - 1, r0, c0, value);
    }
  }

  /** Setting one empty cell to a tile removes exactly that cell from the
      listing, once the scan has passed its row. */
  lemma {:induction false} EmptyRowsFill(b: Board, r: nat, r0: nat, c0: nat, value: int)
    requires WellFormed(b) && r <= Size && r0 < Size && c0 < Size
    requires b[r0][c0] == 0 && value != 0
    ensures |EmptyRows(b[r0 := b[r0][c0 := value]], r)|
            == |EmptyRows(b, r)| - (if r0 < r then 1 else 0)
  {
    if r > 0 {
      EmptyRowsFill(b, r - 1, r0, c0, value);
      EmptyInRowFill(b, r - 1, Size, r0, c0, value);
    }
  }

  /** A spawn writes `value` into at most one cell and leaves the others. */
  lemma SpawnValues(b: Board, pick: nat, value: int)
    requires WellFormed(b) && ValidPick(b, pick)
    ensures forall r, c :: 0 <= r < Size && 0 <= c < Size ==>
              Spawn(b, pick, value)[r][c] == b[r][c] || Spawn(b, pick, value)[r][c] == value
  {
  }

  /** A spawn into a board with an empty cell leaves one empty cell fewer. */
  lemma SpawnCount(b: Board, pick: nat, value: int)
    requires WellFormed(b) && ValidPick(b, pick) && value != 0
    ensures EmptyCells(b) != [] ==> |EmptyCells(Spawn(b, pick, value))| == |EmptyCells(b)| - 1
  {
    if EmptyCells(b) != [] {
      var p := EmptyCells(b)[pick];
      EmptyRowsFill(b, Size, p.0, p.1, value);
    }
  }

  /** A spawn of a 2 or a 4 keeps every cell a possible cell value. */
  lemma SpawnTiles(b: Board, pick: nat, value: int)
    requires WellFormed(b) && ValidPick(b, pick)
    requires value == 2 || value == 4
    ensures BoardTiles(b) ==> BoardTiles(Spawn(b, pick, value))
  {
    assert IsTile(value) by {
      assert IsPowerOfTwo(value / 2);
    }
    SpawnValues(b, pick, value);
  }

  /** The spawn rule: with no empty cell the board comes back unchanged;
      otherwise one cell that was empty now holds `value`, every other cell
      is unchanged, and there is one empty cell fewer. */
  lemma SpawnEffect(b: Board, pick: nat, value: int)
    requires WellFormed(b) && ValidPick(b, pick)
    requires value == 2 || value == 4
    ensures EmptyCells(b) == [] ==> Spawn(b, pick, value) == b
    ensures EmptyCells(b) != [] ==>
              var p := EmptyCells(b)[pick];
              p.0 < Size && p.1 < Size && b[p.0][p.1] == 0 && Spawn(b, pick, value)[p.0][p.1] == value &&
              (forall r, c :: 0 <= r < Size && 0 <= c < Size && (r, c) != p ==>
                 Spawn(b, pick, value)[r][c] == b[r][c]) &&
              |EmptyCells(Spawn(b, pick, value))| == |EmptyCells(b)| - 1
    ensures BoardTiles(b) ==> BoardTiles(Spawn(b, pick, value))
  {
    SpawnCount(b, pick, value);
    SpawnTiles(b, pick, value);
  }

  /** All sixteen cells of the empty board are listed. */
  lemma EmptyBoardCells()
    ensures |EmptyCells(EmptyBoard())| == Cells
  {
    var e := EmptyBoard();
    forall r | 0 <= r < Size
      ensures |EmptyInRow(e, r, Size)| == Size
    {
      EmptyRowCount(e, r, Size);
    }
    assert EmptyRows(e, 1) == EmptyInRow(e, 0, Size);
  }

  lemma {:induction false} EmptyRowCount(b: Board, r: nat, c: nat)
    requires WellFormed(b) && r < Size && c <= Size
    requires forall c' :: 0 <= c' < Size ==> b[r][c'] == 0
    ensures |EmptyInRow(b, r, c)| == c
  {
    if c > 0 {
      EmptyRowCount(b, r, c - 1);
    }
  }
}
