/** The four moves. `MoveLeft` runs the compress-merge-pad scan on every row
    the way `moveLeft` does; the other three reuse it through row reversal
    and transposition, as `moveRight`, `moveUp` and `moveDown` do. All four
    are proved against one direction-independent description, `Shift`: every
    line, read from the wall the tiles move towards, is slid by `Line.Slide`. */
module Moves {
  import opened Grid
  import opened Line

  datatype Direction = Left | Right | Up | Down

  /** Line `i` of the board as a move in direction `d` sees it: a row or a
      column, read starting from the wall the tiles move towards. */
  function LineOf(b: Board, d: Direction, i: nat): (s: seq<int>)
    requires WellFormed(b) && i < Size
    ensures |s| == Size
  {
    match d
    case Left => b[i]
    case Right => Reverse(b[i])
    case Up => Column(b, i)
    case Down => Reverse(Column(b, i))
  }

  /** The four lines of the board for direction `d`. */
  function Lines(b: Board, d: Direction): seq<seq<int>>
    requires WellFormed(b)
  {
    seq(Size, i requires 0 <= i < Size => LineOf(b, d, i))
  }

  /** Total score of sliding every line of `ls`, summed line by line. */
  function LinesGain(ls: seq<seq<int>>): int {
    if ls == [] then 0 else LinesGain(ls[..|ls| - 1]) + Gain(ls[|ls| - 1])
  }

  /** Cell (row, col) after a move in direction `d`. */
  function MovedCell(b: Board, d: Direction, row: nat, col: nat): int
    requires WellFormed(b) && row < Size && col < Size
  {
    match d
    case Left => Slide(b[row])[col]
    case Right => Slide(Reverse(b[row]))[Size - 1 - col]
    case Up => Slide(Column(b, col))[row]
    case Down => Slide(Reverse(Column(b, col)))[Size - 1 - row]
  }

  /** The board after a move in direction `d`: every line, read from the
      wall, is replaced by its slid version. */
  function Shift(b: Board, d: Direction): (r: Board)
    requires WellFormed(b)
    ensures WellFormed(r)
    ensures forall i :: 0 <= i < Size ==> LineOf(r, d, i) == Slide(LineOf(b, d, i))
  {
    var r := seq(Size, row requires 0 <= row < Size =>
                   seq(Size, col requires 0 <= col < Size => MovedCell(b, d, row, col)));
    assert forall i :: 0 <= i < Size ==> LineOf(r, d, i) == Slide(LineOf(b, d, i)) by {
      forall i | 0 <= i < Size
        ensures LineOf(r, d, i) == Slide(LineOf(b, d, i))
      {
        MovedLine(b, d, i, r);
      }
    }
    r
  }

  /** A board whose every cell is the moved cell has the slid lines. */
  lemma MovedLine(b: Board, d: Direction, i: nat, r: Board)
    requires WellFormed(b) && WellFormed(r) && i < Size
    requires forall row, col :: 0 <= row < Size && 0 <= col < Size ==> r[row][col] == MovedCell(b, d, row, col)
    ensures LineOf(r, d, i) == Slide(LineOf(b, d, i))
  {
    var s := Slide(LineOf(b, d, i));
    forall k | 0 <= k < Size
      ensures LineOf(r, d, i)[k] == s[k]
    {
      match d
      case Left =>
        assert LineOf(r, d, i)[k] == r[i][k] == MovedCell(b, d, i, k);
      case Right =>
        assert LineOf(r, d, i)[k] == r[i][Size - 1 - k] == MovedCell(b, d, i, Size - 1 - k);
      case Up =>
        assert LineOf(r, d, i)[k] == r[k][i] == MovedCell(b, d, k, i);
      case Down =>
        assert LineOf(r, d, i)[k] == r[Size - 1 - k][i] == MovedCell(b, d, Size - 1 - k, i);
    }
  }

  /** Score of a move in direction `d`: the scores of its four lines. */
  function ShiftGain(b: Board, d: Direction): int
    requires WellFormed(b)
  {
    LinesGain(Lines(b, d))
  }

  /** No move changes the board. */
  predicate Stuck(b: Board)
    requires WellFormed(b)
  {
    Shift(b, Left) == b && Shift(b, Right) == b && Shift(b, Up) == b && Shift(b, Down) == b
  }

  // ---------------------------------------------------------------------------
  // The source's algorithm

  /** Where the merge scan still has to go on: after a consumed tile (the
      placeholder 0 the scan left at `i`), or at `i`. */
  ghost function Pending(tiles: seq<int>, filtered: seq<int>, i: nat): seq<int>
    requires |filtered| == |tiles| && i <= |tiles|
  {
    if i < |tiles| && filtered[i] == 0 then tiles[i + 1..] else tiles[i..]
  }

  /** Shape of the in-place merge scan over `tiles` once it has compared the
      pairs before position `i`: the cells from `i` on are still the tiles,
      except that the cell at `i` may be the placeholder of a merged partner. */
  ghost predicate ScanFrame(tiles: seq<int>, filtered: seq<int>, i: nat) {
    NoZero(tiles) && |filtered| == |tiles| && i <= |tiles| &&
    (forall j :: i < j < |tiles| ==> filtered[j] == tiles[j]) &&
    (i < |tiles| ==> filtered[i] == tiles[i] || filtered[i] == 0)
  }

  /** Progress of the scan: what it wrote before `i`, without the
      placeholders, followed by the merge of what is pending, is the merge of
      all tiles, and `gain` plus the pending score is the whole score. */
  ghost predicate ScanSoFar(tiles: seq<int>, filtered: seq<int>, i: nat, gain: int)
    requires |filtered| == |tiles| && i <= |tiles|
  {
    Compress(filtered[..i]) + Merge(Pending(tiles, filtered, i)) == Merge(tiles) &&
    gain + MergeGain(Pending(tiles, filtered, i)) == MergeGain(tiles)
  }

  /** Loop invariant of the merge scan. */
  ghost predicate Scanned(tiles: seq<int>, filtered: seq<int>, i: nat, gain: int) {
    ScanFrame(tiles, filtered, i) && ScanSoFar(tiles, filtered, i, gain)
  }

  /** One comparison of the scan that merges the pair at `i`. */
  lemma ScanMerge(tiles: seq<int>, filtered: seq<int>, i: nat, gain: int)
    requires Scanned(tiles, filtered, i, gain) && i < |tiles| - 1
    requires filtered[i] == filtered[i + 1]
    ensures Scanned(tiles, filtered[i := 2 * filtered[i]][i + 1 := 0], i + 1, gain + 2 * filtered[i])
  {
    var next := filtered[i := 2 * filtered[i]][i + 1 := 0];
    assert ScanFrame(tiles, next, i + 1);
    assert filtered[i] == tiles[i] != 0 && tiles[i + 1] == tiles[i] by {
      assert filtered[i + 1] == tiles[i + 1] != 0;
    }
    ScanMergeProgress(tiles, filtered, i, gain);
  }

  lemma ScanMergeProgress(tiles: seq<int>, filtered: seq<int>, i: nat, gain: int)
    requires |filtered| == |tiles| && i < |tiles| - 1
    requires ScanSoFar(tiles, filtered, i, gain)
    requires filtered[i] == tiles[i] != 0 && tiles[i + 1] == tiles[i]
    ensures ScanSoFar(tiles, filtered[i := 2 * filtered[i]][i + 1 := 0], i + 1, gain + 2 * filtered[i])
  {
    var next := filtered[i := 2 * filtered[i]][i + 1 := 0];
    var t := tiles[i];
    MergeAt(tiles, i);
    CompressSnoc(next, i);
    assert next[..i] == filtered[..i];
    AppendAssoc(Compress(filtered[..i]), [2 * t], Merge(tiles[i + 2..]));
  }

  /** One comparison of the scan at a placeholder: it merges nothing. */
  lemma ScanSkip(tiles: seq<int>, filtered: seq<int>, i: nat, gain: int)
    requires Scanned(tiles, filtered, i, gain) && i < |tiles| - 1
    requires filtered[i] == 0
    ensures Scanned(tiles, filtered, i + 1, gain)
  {
    assert ScanFrame(tiles, filtered, i + 1);
    assert filtered[i + 1] == tiles[i + 1] != 0;
    ScanSkipProgress(tiles, filtered, i, gain);
  }

  lemma ScanSkipProgress(tiles: seq<int>, filtered: seq<int>, i: nat, gain: int)
    requires |filtered| == |tiles| && i < |tiles| - 1
    requires ScanSoFar(tiles, filtered, i, gain)
    requires filtered[i] == 0 && filtered[i + 1] != 0
    ensures ScanSoFar(tiles, filtered, i + 1, gain)
  {
    CompressSnoc(filtered, i);
  }

  /** One comparison of the scan at a tile unequal to its neighbour. */
  lemma ScanKeep(tiles: seq<int>, filtered: seq<int>, i: nat, gain: int)
    requires Scanned(tiles, filtered, i, gain) && i < |tiles| - 1
    requires filtered[i] != 0 && filtered[i] != filtered[i + 1]
    ensures Scanned(tiles, filtered, i + 1, gain)
  {
    assert ScanFrame(tiles, filtered, i + 1);
    assert filtered[i] == tiles[i] != 0 && filtered[i + 1] == tiles[i + 1] != 0;
    ScanKeepProgress(tiles, filtered, i, gain);
  }

  lemma ScanKeepProgress(tiles: seq<int>, filtered: seq<int>, i: nat, gain: int)
    requires |filtered| == |tiles| && i < |tiles| - 1
    requires ScanSoFar(tiles, filtered, i, gain)
    requires filtered[i] == tiles[i] != 0 && filtered[i + 1] == tiles[i + 1] != 0
    requires tiles[i] != tiles[i + 1]
    ensures ScanSoFar(tiles, filtered, i + 1, gain)
  {
    var t := tiles[i];
    MergeAt(tiles, i);
    CompressSnoc(filtered, i);
    AppendAssoc(Compress(filtered[..i]), [t], Merge(tiles[i + 1..]));
  }

  /** One comparison of the scan that merges nothing. */
  lemma ScanNoMerge(tiles: seq<int>, filtered: seq<int>, i: nat, gain: int)
    requires Scanned(tiles, filtered, i, gain) && i < |tiles| - 1
    requires filtered[i] != filtered[i + 1]
    ensures Scanned(tiles, filtered, i + 1, gain)
  {
    if filtered[i] == 0 {
      ScanSkip(tiles, filtered, i, gain);
    } else {
      ScanKeep(tiles, filtered, i, gain);
    }
  }

  /** Once every pair is compared, dropping the placeholders gives the merge. */
  lemma ScanDone(tiles: seq<int>, filtered: seq<int>, i: nat, gain: int)
    requires Scanned(tiles, filtered, i, gain) && i + 1 >= |tiles|
    requires |tiles| > 0 ==> i < |tiles|
    ensures Compress(filtered) == Merge(tiles) && gain == MergeGain(tiles)
  {
    if |tiles| > 0 {
      assert filtered[..i + 1] == filtered;
      CompressSnoc(filtered, i);
      if filtered[i] == 0 {
        assert Pending(tiles, filtered, i) == [];
        assert Compress(filtered[..i]) + [] == Compress(filtered[..i]);
      } else {
        assert Pending(tiles, filtered, i) == [filtered[i]];
      }
    }
  }

  /** The body of the `board.map` in `moveLeft`: filter out the empty cells,
      merge in place from the left leaving a 0 where the right partner was,
      remove those placeholders and pad the row back to 4 cells. */
  method CollapseRow(row: seq<int>) returns (line: seq<int>, gain: int)
    ensures line == Slide(row) && gain == Gain(row)
  {
    var filtered := Compress(row);
    ghost var tiles := filtered;
    gain := 0;
    var i := 0;
    while i < |filtered| - 1
      invariant Scanned(tiles, filtered, i, gain)
      invariant |tiles| > 0 ==> i < |tiles|
    {
      if filtered[i] == filtered[i + 1] {
        ScanMerge(tiles, filtered, i, gain);
        filtered := filtered[i := 2 * filtered[i]];
        gain := gain + filtered[i];
        filtered := filtered[i + 1 := 0];
      } else {
        ScanNoMerge(tiles, filtered, i, gain);
      }
      i := i + 1;
    }
    ScanDone(tiles, filtered, i, gain);
    // removeAll { it == 0 }
    filtered := Compress(filtered);
    ghost var merged := filtered;
    while |filtered| < Size
      invariant |merged| <= |filtered|
      invariant |merged| < Size ==> |filtered| <= Size
      invariant filtered == merged + Zeros(|filtered| - |merged|)
      invariant |merged| >= Size ==> filtered == merged
    {
      ZerosSnoc(merged, |filtered| - |merged|);
      filtered := filtered + [0];
    }
    line := filtered;
  }

  /** `moveLeft`: every row collapsed on its own, the scores added up. */
  method MoveLeft(b: Board) returns (moved: Board, score: int)
    ensures |moved| == |b|
    ensures forall r :: 0 <= r < |b| ==> moved[r] == Slide(b[r])
    ensures score == LinesGain(b)
    ensures WellFormed(b) ==> moved == Shift(b, Left) && score == ShiftGain(b, Left)
  {
    moved := [];
    score := 0;
    var r := 0;
    while r < |b|
      invariant 0 <= r <= |b|
      invariant |moved| == r
      invariant forall k :: 0 <= k < r ==> moved[k] == Slide(b[k])
      invariant score == LinesGain(b[..r])
    {
      var line, gain := CollapseRow(b[r]);
      assert b[..r + 1][..r] == b[..r];
      moved := moved + [line];
      score := score + gain;
      r := r + 1;
    }
    assert b[..r] == b;
    if WellFormed(b) {
      assert Lines(b, Left) == b;
      LinesDetermineBoard(moved, Shift(b, Left), Left);
    }
  }

  /** `moveRight`: reverse every row, move left, reverse every row back. */
  method MoveRight(b: Board) returns (moved: Board, score: int)
    ensures |moved| == |b|
    ensures forall r :: 0 <= r < |b| ==> Reverse(moved[r]) == Slide(Reverse(b[r]))
    ensures score == LinesGain(ReverseRows(b))
    ensures WellFormed(b) ==> moved == Shift(b, Right) && score == ShiftGain(b, Right)
  {
    var reversed := ReverseRows(b);
    var m, s := MoveLeft(reversed);
    moved := ReverseRows(m);
    score := s;
    forall r | 0 <= r < |b|
      ensures Reverse(moved[r]) == Slide(Reverse(b[r]))
    {
      ReverseTwice(m[r]);
    }
    if WellFormed(b) {
      RightByReversal(b);
    }
  }

  /** `moveUp`: transpose, move left, transpose back. */
  method MoveUp(b: Board) returns (moved: Board, score: int)
    requires WellFormed(b)
    ensures moved == Shift(b, Up) && score == ShiftGain(b, Up)
  {
    var transposed := Transpose(b);
    var m, s := MoveLeft(transposed);
    moved := Transpose(m);
    score := s;
    UpByTransposition(b);
  }

  /** `moveDown`: transpose, move right, transpose back. */
  method MoveDown(b: Board) returns (moved: Board, score: int)
    requires WellFormed(b)
    ensures moved == Shift(b, Down) && score == ShiftGain(b, Down)
  {
    var transposed := Transpose(b);
    var m, s := MoveRight(transposed);
    moved := Transpose(m);
    score := s;
    DownByTransposition(b);
  }

  /** The move a direction button asks for: the one of the four above that
      matches `d`. */
  method MoveIn(b: Board, d: Direction) returns (moved: Board, score: int)
    requires WellFormed(b)
    ensures moved == Shift(b, d) && score == ShiftGain(b, d)
  {
    match d {
      case Left => moved, score := MoveLeft(b);
      case Right => moved, score := MoveRight(b);
      case Up => moved, score := MoveUp(b);
      case Down => moved, score := MoveDown(b);
    }
  }

  // ---------------------------------------------------------------------------
  // Reduction of the four directions to one

  /** A board is determined by its lines in any one direction. */
  lemma LinesDetermineBoard(x: Board, y: Board, d: Direction)
    requires WellFormed(x) && WellFormed(y)
    requires forall i :: 0 <= i < Size ==> LineOf(x, d, i) == LineOf(y, d, i)
    ensures x == y
  {
    forall r | 0 <= r < Size
      ensures x[r] == y[r]
    {
      forall c | 0 <= c < Size
        ensures x[r][c] == y[r][c]
      {
        match d
        case Left =>
          assert x[r][c] == LineOf(x, d, r)[c] == LineOf(y, d, r)[c] == y[r][c];
        case Right =>
          assert x[r][c] == LineOf(x, d, r)[Size - 1 - c] == LineOf(y, d, r)[Size - 1 - c] == y[r][c];
        case Up =>
          assert x[r][c] == LineOf(x, d, c)[r] == LineOf(y, d, c)[r] == y[r][c];
        case Down =>
          assert x[r][c] == LineOf(x, d, c)[Size - 1 - r] == LineOf(y, d, c)[Size - 1 - r] == y[r][c];
      }
    }
  }

  /** `moveRight` is `moveLeft` seen in a mirror, with the same score. */
  lemma RightByReversal(b: Board)
    requires WellFormed(b)
    ensures Shift(b, Right) == ReverseRows(Shift(ReverseRows(b), Left))
    ensures ShiftGain(b, Right) == ShiftGain(ReverseRows(b), Left)
  {
    var rb := ReverseRows(b);
    assert Lines(b, Right) == Lines(rb, Left);
    forall i | 0 <= i < Size
      ensures LineOf(ReverseRows(Shift(rb, Left)), Right, i) == LineOf(Shift(b, Right), Right, i)
    {
      ReverseTwice(Shift(rb, Left)[i]);
    }
    LinesDetermineBoard(ReverseRows(Shift(rb, Left)), Shift(b, Right), Right);
  }

  /** `moveUp` is `moveLeft` on the transposed board, with the same score. */
  lemma UpByTransposition(b: Board)
    requires WellFormed(b)
    ensures Shift(b, Up) == Transpose(Shift(Transpose(b), Left))
    ensures ShiftGain(b, Up) == ShiftGain(Transpose(b), Left)
  {
    var t := Transpose(b);
    assert Lines(b, Up) == Lines(t, Left);
    var x := Transpose(Shift(t, Left));
    forall i | 0 <= i < Size
      ensures LineOf(x, Up, i) == LineOf(Shift(b, Up), Up, i)
    {
      assert LineOf(x, Up, i) == Shift(t, Left)[i];
    }
    LinesDetermineBoard(x, Shift(b, Up), Up);
  }

  /** `moveDown` is `moveRight` on the transposed board, with the same score. */
  lemma DownByTransposition(b: Board)
    requires WellFormed(b)
    ensures Shift(b, Down) == Transpose(Shift(Transpose(b), Right))
    ensures ShiftGain(b, Down) == ShiftGain(Transpose(b), Right)
  {
    var t := Transpose(b);
    assert Lines(b, Down) == Lines(t, Right);
    var x := Transpose(Shift(t, Right));
    forall i | 0 <= i < Size
      ensures LineOf(x, Down, i) == LineOf(Shift(b, Down), Down, i)
    {
      assert Column(x, i) == Shift(t, Right)[i];
      ReverseTwice(Shift(t, Right)[i]);
    }
    LinesDetermineBoard(x, Shift(b, Down), Down);
  }

  // ---------------------------------------------------------------------------
  // Properties of a whole move

  /** The cells of a line are cells of the board. */
  lemma LineTiles(b: Board, d: Direction, i: nat)
    requires WellFormed(b) && BoardTiles(b) && i < Size
    ensures AllTiles(LineOf(b, d, i))
  {
    var line := LineOf(b, d, i);
    forall k | 0 <= k < Size ensures IsTile(line[k]) {
      match d
      case Left =>
      case Right =>
        assert line[k] == b[i][Size - 1 - k];
      case Up =>
        assert line[k] == b[k][i];
        assert AllTiles(b[k]);
      case Down =>
        assert line[k] == b[Size - 1 - k][i];
        assert AllTiles(b[Size - 1 - k]);
    }
  }

  lemma {:induction false} LinesGainNonNegative(ls: seq<seq<int>>)
    requires forall i :: 0 <= i < |ls| ==> NonNegative(ls[i])
    ensures LinesGain(ls) >= 0
  {
    if ls != [] {
      LinesGainNonNegative(ls[..|ls| - 1]);
      GainBounds(ls[|ls| - 1]);
    }
  }

  /** A board of cell values stays a board of cell values, and a move never
      lowers the score. */
  lemma ShiftTiles(b: Board, d: Direction)
    requires WellFormed(b) && BoardTiles(b)
    ensures BoardTiles(Shift(b, d))
    ensures ShiftGain(b, d) >= 0
  {
    var r := Shift(b, d);
    forall i | 0 <= i < Size
      ensures AllTiles(LineOf(r, d, i))
    {
      LineTiles(b, d, i);
      SlideTiles(LineOf(b, d, i));
    }
    TilesByLines(r, d);
    forall i | 0 <= i < |Lines(b, d)|
      ensures NonNegative(Lines(b, d)[i])
    {
      LineTiles(b, d, i);
    }
    LinesGainNonNegative(Lines(b, d));
  }

  /** A board whose lines in some direction all hold cell values holds cell values. */
  lemma TilesByLines(b: Board, d: Direction)
    requires WellFormed(b)
    requires forall i :: 0 <= i < Size ==> AllTiles(LineOf(b, d, i))
    ensures BoardTiles(b)
  {
    forall row | 0 <= row < Size
      ensures AllTiles(b[row])
    {
      forall col | 0 <= col < Size ensures IsTile(b[row][col]) {
        match d
        case Left =>
          assert b[row][col] == LineOf(b, d, row)[col];
        case Right =>
          assert b[row][col] == LineOf(b, d, row)[Size - 1 - col];
        case Up =>
          assert b[row][col] == LineOf(b, d, col)[row];
        case Down =>
          assert b[row][col] == LineOf(b, d, col)[Size - 1 - row];
      }
    }
  }

  lemma SumOfFour(s: seq<int>)
    requires |s| == Size
    ensures Sum(s) == s[0] + s[1] + s[2] + s[3]
  {
    assert s[1..][1..] == s[2..] && s[2..][1..] == s[3..] && s[3..][1..] == [];
    assert Sum(s[3..]) == s[3];
    assert Sum(s[2..]) == s[2] + s[3];
    assert Sum(s[1..]) == s[1] + s[2] + s[3];
  }

  /** Sum of the four lines of the board for direction `d`. */
  function LinesSum(b: Board, d: Direction): int
    requires WellFormed(b)
  {
    Sum(LineOf(b, d, 0)) + Sum(LineOf(b, d, 1)) + Sum(LineOf(b, d, 2)) + Sum(LineOf(b, d, 3))
  }

  /** The board's sum is the sum of its lines, whichever way they are read. */
  lemma BoardSumByLines(b: Board, d: Direction)
    requires WellFormed(b)
    ensures BoardSum(b) == LinesSum(b, d)
  {
    assert b[1..][1..] == b[2..] && b[2..][1..] == b[3..] && b[3..][1..] == [];
    assert BoardSum(b[3..]) == Sum(b[3]);
    assert BoardSum(b[2..]) == Sum(b[2]) + Sum(b[3]);
    assert BoardSum(b[1..]) == Sum(b[1]) + Sum(b[2]) + Sum(b[3]);
    forall r | 0 <= r < Size ensures Sum(b[r]) == b[r][0] + b[r][1] + b[r][2] + b[r][3] {
      SumOfFour(b[r]);
    }
    forall i | 0 <= i < Size
      ensures Sum(LineOf(b, d, i)) == Sum(LineOf(b, Left, i)) || d.Up? || d.Down?
      ensures d.Up? || d.Down? ==> Sum(LineOf(b, d, i)) == b[0][i] + b[1][i] + b[2][i] + b[3][i]
    {
      if d.Right? {
        SumReverse(b[i]);
      } else if d.Up? || d.Down? {
        SumReverse(Column(b, i));
        SumOfFour(Column(b, i));
      }
    }
  }

  /** A move keeps the board's sum: the score is not a change of the sum,
      it is the sum of the merged tiles. */
  lemma ShiftConservesSum(b: Board, d: Direction)
    requires WellFormed(b)
    ensures BoardSum(Shift(b, d)) == BoardSum(b)
  {
    var r := Shift(b, d);
    BoardSumByLines(b, d);
    BoardSumByLines(r, d);
    forall i | 0 <= i < Size ensures Sum(LineOf(r, d, i)) == Sum(LineOf(b, d, i)) {
      SlideConservesSum(LineOf(b, d, i));
    }
  }

  /** A move leaves the board as it is exactly when it leaves every line as
      it is. */
  lemma ShiftFixed(b: Board, d: Direction)
    requires WellFormed(b)
    ensures Shift(b, d) == b <==>
              forall i :: 0 <= i < Size ==> Slide(LineOf(b, d, i)) == LineOf(b, d, i)
  {
    if forall i :: 0 <= i < Size ==> Slide(LineOf(b, d, i)) == LineOf(b, d, i) {
      LinesDetermineBoard(Shift(b, d), b, d);
    }
  }
}
