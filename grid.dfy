/** The 4x4 board of the 2048 engine, its cell values and the geometric
    transforms (row reversal, columns, transposition) the moves are built from. */
module Grid {

  /** Side length of the board: the engine always works on 4 rows of 4 cells. */
  const Size: nat := 4

  /** A board as the engine passes it around: a list of rows, 0 for an empty cell. */
  type Board = seq<seq<int>>

  /** The only shape the engine builds: exactly 4 rows of exactly 4 cells. */
  predicate WellFormed(b: Board) {
    |b| == Size && forall r :: 0 <= r < |b| ==> |b[r]| == Size
  }

  /** The all-empty board `newBoard` starts from. */
  function EmptyBoard(): (b: Board)
    ensures WellFormed(b)
    ensures forall r, c :: 0 <= r < Size && 0 <= c < Size ==> b[r][c] == 0
  {
    [[0, 0, 0, 0], [0, 0, 0, 0], [0, 0, 0, 0], [0, 0, 0, 0]]
  }

  /** `v` is 2^k for some k >= 0. */
  predicate IsPowerOfTwo(v: int)
    decreases if v < 0 then 0 else v
  {
    v == 1 || (v >= 2 && v % 2 == 0 && IsPowerOfTwo(v / 2))
  }

  /** A cell value the game can produce: empty, or a power of two that is at least 2. */
  predicate IsTile(v: int) {
    v == 0 || (v >= 2 && IsPowerOfTwo(v))
  }

  /** Every cell of the line is a possible cell value. */
  predicate AllTiles(s: seq<int>) {
    forall i :: 0 <= i < |s| ==> IsTile(s[i])
  }

  /** Every cell of the board is a possible cell value. */
  predicate BoardTiles(b: Board) {
    forall r :: 0 <= r < |b| ==> AllTiles(b[r])
  }

  /** Concatenation is associative; stated once so that callers need not
      prove it by extensionality. */
  lemma AppendAssoc<T>(a: seq<T>, b: seq<T>, c: seq<T>)
    ensures (a + b) + c == a + (b + c)
  {
  }

  /** Doubling a tile yields a tile: merges never leave the set of cell values. */
  lemma DoubleTile(v: int)
    requires IsTile(v) && v != 0
    ensures IsTile(2 * v) && 2 * v != 0
  {
    assert (2 * v) / 2 == v;
  }

  /** Sum of the cells of a line. */
  function Sum(s: seq<int>): int {
    if s == [] then 0 else s[0] + Sum(s[1..])
  }

  /** Sum of every cell of a board. */
  function BoardSum(b: Board): int {
    if b == [] then 0 else Sum(b[0]) + BoardSum(b[1..])
  }

  /** Summation distributes over concatenation. */
  lemma {:induction false} SumAppend(a: seq<int>, b: seq<int>)
    ensures Sum(a + b) == Sum(a) + Sum(b)
  {
    if a == [] {
      assert a + b == b;
    } else {
      assert (a + b)[1..] == a[1..] + b;
      SumAppend(a[1..], b);
    }
  }

  /** `it.reversed()` on one row. */
  function Reverse(s: seq<int>): seq<int> {
    seq(|s|, k requires 0 <= k < |s| => s[|s| - 1 - k])
  }

  /** Reversing twice gives the row back. */
  lemma ReverseTwice(s: seq<int>)
    ensures Reverse(Reverse(s)) == s
  {
  }

  /** Reversal keeps the sum of a row. */
  lemma {:induction false} SumReverse(s: seq<int>)
    ensures Sum(Reverse(s)) == Sum(s)
  {
    if s != [] {
      var n := |s|;
      assert Reverse(s) == Reverse(s[1..]) + [s[0]];
      SumReverse(s[1..]);
      SumAppend(Reverse(s[1..]), [s[0]]);
      assert Sum([s[0]]) == s[0] + Sum([]);
    }
  }

  /** `board.map { it.reversed() }`: every row reversed, row order kept. */
  function ReverseRows(b: Board): (r: Board)
    ensures WellFormed(b) ==> WellFormed(r)
  {
    seq(|b|, i requires 0 <= i < |b| => Reverse(b[i]))
  }

  /** Reversing every row twice gives the board back. */
  lemma ReverseRowsTwice(b: Board)
    ensures ReverseRows(ReverseRows(b)) == b
  {
    forall i | 0 <= i < |b|
      ensures ReverseRows(ReverseRows(b))[i] == b[i]
    {
      ReverseTwice(b[i]);
    }
  }

  /** Column `c` of the board, read from the top row down. */
  function Column(b: Board, c: nat): seq<int>
    requires WellFormed(b) && c < Size
  {
    seq(Size, r requires 0 <= r < Size => b[r][c])
  }

  /** `(0..3).map { col -> (0..3).map { row -> board[row][col] } }`:
      row `i` of the result is column `i` of the board. */
  function Transpose(b: Board): (t: Board)
    requires WellFormed(b)
    ensures WellFormed(t)
    ensures forall i, j :: 0 <= i < Size && 0 <= j < Size ==> t[i][j] == b[j][i]
  {
    seq(Size, c requires 0 <= c < Size => Column(b, c))
  }

  /** Transposition is an involution, so the moves that transpose, move and
      transpose back leave the board in its own orientation. */
  lemma TransposeTwice(b: Board)
    requires WellFormed(b)
    ensures Transpose(Transpose(b)) == b
  {
    var t := Transpose(Transpose(b));
    forall i | 0 <= i < Size
      ensures t[i] == b[i]
    {
    }
  }
}
