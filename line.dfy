/** What a move does to one line, stated as functions: drop the empty cells,
    merge equal neighbours greedily from the left, pad with empty cells.
    The imperative version that `moveLeft` runs is `Moves.CollapseRow`. */
module Line {
  import opened Grid

  /** No cell of the line is empty. */
  predicate NoZero(s: seq<int>) {
    forall i :: 0 <= i < |s| ==> s[i] != 0
  }

  /** No two neighbours of the line are equal. */
  predicate NoAdjacentEqual(s: seq<int>) {
    forall i :: 0 <= i < |s| - 1 ==> s[i] != s[i + 1]
  }

  /** No tile has an equal tile right next to it. */
  predicate NoMergeablePair(s: seq<int>) {
    forall i :: 0 <= i < |s| - 1 ==> s[i] == 0 || s[i] != s[i + 1]
  }

  /** Every tile comes before every empty cell. */
  predicate Packed(s: seq<int>) {
    forall i, j :: 0 <= i < j < |s| && s[i] == 0 ==> s[j] == 0
  }

  /** Every cell is non-negative. */
  predicate NonNegative(s: seq<int>) {
    forall i :: 0 <= i < |s| ==> s[i] >= 0
  }

  /** `row.filter { it != 0 }`: the tiles of the line, in order. */
  function Compress(s: seq<int>): (r: seq<int>)
    ensures |r| <= |s|
    ensures NoZero(r)
  {
    if s == [] then [] else (if s[0] == 0 then [] else [s[0]]) + Compress(s[1..])
  }

  /** The merge scan: the first two tiles merge into their double when equal,
      and the scan goes on after the pair, so a tile merges at most once. */
  function Merge(s: seq<int>): (r: seq<int>)
    ensures |r| <= |s|
  {
    if |s| < 2 then s
    else if s[0] == s[1] then [2 * s[0]] + Merge(s[2..])
    else [s[0]] + Merge(s[1..])
  }

  /** Score of the merge scan: the sum of the doubled values it creates. */
  function MergeGain(s: seq<int>): int {
    if |s| < 2 then 0
    else if s[0] == s[1] then 2 * s[0] + MergeGain(s[2..])
    else MergeGain(s[1..])
  }

  /** `k` empty cells. */
  function Zeros(k: nat): seq<int> {
    seq(k, _ => 0)
  }

  /** `while (filtered.size < n) filtered.add(0)`. */
  function Pad(s: seq<int>, n: nat): seq<int> {
    if |s| < n then s + Zeros(n - |s|) else s
  }

  /** Appending one more empty cell to a padded line. */
  lemma ZerosSnoc(s: seq<int>, k: nat)
    ensures (s + Zeros(k)) + [0] == s + Zeros(k + 1)
  {
    assert Zeros(k) + [0] == Zeros(k + 1);
  }

  /** One row after a move to the left. */
  function Slide(row: seq<int>): (r: seq<int>)
    ensures |row| <= Size ==> |r| == Size
  {
    Pad(Merge(Compress(row)), Size)
  }

  /** Score that one row contributes to a move to the left. */
  function Gain(row: seq<int>): int {
    MergeGain(Compress(row))
  }

  // ---------------------------------------------------------------------------
  // Compress

  lemma {:induction false} CompressAppend(a: seq<int>, b: seq<int>)
    ensures Compress(a + b) == Compress(a) + Compress(b)
  {
    if a == [] {
      assert a + b == b;
    } else {
      assert (a + b)[1..] == a[1..] + b;
      CompressAppend(a[1..], b);
    }
  }

  lemma {:induction false} CompressNoZero(s: seq<int>)
    requires NoZero(s)
    ensures Compress(s) == s
  {
    if s != [] {
      CompressNoZero(s[1..]);
    }
  }

  lemma {:induction false} CompressZeros(k: nat)
    ensures Compress(Zeros(k)) == []
  {
    if k > 0 {
      assert Zeros(k)[1..] == Zeros(k - 1);
      CompressZeros(k - 1);
    }
  }

  /** The tiles of a padded line are the line's tiles. */
  lemma CompressPad(s: seq<int>, n: nat)
    requires NoZero(s)
    ensures Compress(Pad(s, n)) == s
  {
    CompressNoZero(s);
    if |s| < n {
      CompressAppend(s, Zeros(n - |s|));
      CompressZeros(n - |s|);
    }
  }

  /** A packed line is its tiles followed by empty cells. */
  lemma {:induction false} PackedSplit(s: seq<int>)
    requires Packed(s)
    ensures s == Compress(s) + Zeros(|s| - |Compress(s)|)
  {
    if s != [] {
      if s[0] == 0 {
        assert forall j :: 0 <= j < |s| ==> s[j] == 0;
        CompressZeros(|s|);
        assert s == Zeros(|s|);
      } else {
        PackedSplit(s[1..]);
      }
    }
  }

  lemma {:induction false} SumCompress(s: seq<int>)
    ensures Sum(Compress(s)) == Sum(s)
  {
    if s != [] {
      SumCompress(s[1..]);
      SumAppend(if s[0] == 0 then [] else [s[0]], Compress(s[1..]));
    }
  }

  /** The tiles of a prefix grow by the next cell unless it is empty. */
  lemma CompressSnoc(s: seq<int>, k: nat)
    requires k < |s|
    ensures s[k] == 0 ==> Compress(s[..k + 1]) == Compress(s[..k])
    ensures s[k] != 0 ==> Compress(s[..k + 1]) == Compress(s[..k]) + [s[k]]
  {
    assert s[..k + 1] == s[..k] + [s[k]];
    CompressAppend(s[..k], [s[k]]);
    if s[k] == 0 {
      assert Compress([s[k]]) == [];
      assert Compress(s[..k]) + [] == Compress(s[..k]);
    } else {
      assert Compress([s[k]]) == [s[k]];
    }
  }

  // ---------------------------------------------------------------------------
  // Merge

  /** The merge scan of a suffix, one step at its start. */
  lemma MergeAt(s: seq<int>, k: nat)
    requires k + 1 < |s|
    ensures s[k] == s[k + 1] ==> Merge(s[k..]) == [2 * s[k]] + Merge(s[k + 2..]) &&
                                 MergeGain(s[k..]) == 2 * s[k] + MergeGain(s[k + 2..])
    ensures s[k] != s[k + 1] ==> Merge(s[k..]) == [s[k]] + Merge(s[k + 1..]) &&
                                 MergeGain(s[k..]) == MergeGain(s[k + 1..])
  {
    var rest := s[k..];
    assert rest[0] == s[k] && rest[1] == s[k + 1];
    assert rest[1..] == s[k + 1..] && rest[2..] == s[k + 2..];
  }

  lemma {:induction false} MergeNoZero(s: seq<int>)
    requires NoZero(s)
    ensures NoZero(Merge(s))
  {
    if |s| >= 2 {
      if s[0] == s[1] {
        MergeNoZero(s[2..]);
      } else {
        MergeNoZero(s[1..]);
      }
    }
  }

  lemma {:induction false} SumMerge(s: seq<int>)
    ensures Sum(Merge(s)) == Sum(s)
  {
    if |s| >= 2 {
      assert Sum(s) == s[0] + Sum(s[1..]);
      if s[0] == s[1] {
        assert Sum(s[1..]) == s[1] + Sum(s[2..]);
        SumMerge(s[2..]);
        SumAppend([2 * s[0]], Merge(s[2..]));
      } else {
        SumMerge(s[1..]);
        SumAppend([s[0]], Merge(s[1..]));
      }
    }
  }

  lemma {:induction false} MergeGainBounds(s: seq<int>)
    requires NonNegative(s)
    ensures 0 <= MergeGain(s) <= Sum(s)
  {
    if |s| >= 2 {
      assert Sum(s) == s[0] + Sum(s[1..]);
      assert Sum(s[1..]) == s[1] + Sum(s[2..]);
      if s[0] == s[1] {
        MergeGainBounds(s[2..]);
      } else {
        MergeGainBounds(s[1..]);
      }
    } else if |s| == 1 {
      assert Sum(s) == s[0] + Sum([]);
    }
  }

  /** With positive tiles the scan scores iff it merges something. */
  lemma {:induction false} MergeGainZero(s: seq<int>)
    requires forall i :: 0 <= i < |s| ==> s[i] > 0
    ensures MergeGain(s) == 0 <==> |Merge(s)| == |s|
  {
    if |s| >= 2 {
      if s[0] == s[1] {
        MergeGainBounds(s[2..]);
      } else {
        MergeGainZero(s[1..]);
      }
    }
  }

  /** The scan changes a line exactly when two neighbours are equal. */
  lemma {:induction false} MergeFixed(s: seq<int>)
    ensures |Merge(s)| == |s| <==> NoAdjacentEqual(s)
    ensures NoAdjacentEqual(s) ==> Merge(s) == s && MergeGain(s) == 0
  {
    if |s| >= 2 {
      if s[0] == s[1] {
        assert !NoAdjacentEqual(s);
      } else {
        MergeFixed(s[1..]);
        assert NoAdjacentEqual(s) <==> NoAdjacentEqual(s[1..]) by {
          if NoAdjacentEqual(s[1..]) {
            forall i | 0 <= i < |s| - 1 ensures s[i] != s[i + 1] {
              if i > 0 { assert s[i] == s[1..][i - 1]; }
            }
          }
        }
      }
    }
  }

  lemma {:induction false} MergeTiles(s: seq<int>)
    requires AllTiles(s) && NoZero(s)
    ensures AllTiles(Merge(s))
  {
    if |s| >= 2 {
      if s[0] == s[1] {
        DoubleTile(s[0]);
        MergeTiles(s[2..]);
      } else {
        MergeTiles(s[1..]);
      }
    }
  }

  /** The merges one scan is allowed to make: every output tile is one input
      tile, or the double of two equal neighbouring input tiles, the input is
      consumed left to right, so no tile takes part in two merges, and `gain`
      is the sum of the doubled tiles. */
  ghost predicate Pairing(tiles: seq<int>, out: seq<int>, gain: int)
    decreases |tiles|
  {
    if tiles == [] then out == [] && gain == 0
    else
      out != [] &&
      ((out[0] == tiles[0] && Pairing(tiles[1..], out[1..], gain))
       || (|tiles| >= 2 && tiles[0] == tiles[1] && out[0] == 2 * tiles[0]
           && Pairing(tiles[2..], out[1..], gain - out[0])))
  }

  lemma {:induction false} MergeIsPairing(s: seq<int>)
    ensures Pairing(s, Merge(s), MergeGain(s))
  {
    if |s| == 1 {
      assert Merge(s)[1..] == [] && s[1..] == [];
    } else if |s| >= 2 {
      if s[0] == s[1] {
        MergeIsPairing(s[2..]);
        assert Merge(s)[1..] == Merge(s[2..]);
      } else {
        MergeIsPairing(s[1..]);
        assert Merge(s)[1..] == Merge(s[1..]);
      }
    }
  }

  // ---------------------------------------------------------------------------
  // Properties of one row after a move

  /** The row comes back with its tiles, in order and merged, packed to the
      front, and every empty cell after them. */
  lemma SlidePacked(row: seq<int>)
    ensures Packed(Slide(row))
    ensures Compress(Slide(row)) == Merge(Compress(row))
    ensures forall i :: 0 <= i < |Slide(row)| ==>
              (Slide(row)[i] != 0 <==> i < |Merge(Compress(row))|)
  {
    var m := Merge(Compress(row));
    MergeNoZero(Compress(row));
    CompressPad(m, Size);
  }

  /** A move keeps the sum of a row: two tiles worth v become one worth 2v. */
  lemma SlideConservesSum(row: seq<int>)
    ensures Sum(Slide(row)) == Sum(row)
  {
    var m := Merge(Compress(row));
    SumCompress(row);
    SumMerge(Compress(row));
    if |m| < Size {
      SumAppend(m, Zeros(Size - |m|));
      SumZeros(Size - |m|);
    }
  }

  lemma {:induction false} SumZeros(k: nat)
    ensures Sum(Zeros(k)) == 0
  {
    if k > 0 {
      assert Zeros(k)[1..] == Zeros(k - 1);
      SumZeros(k - 1);
    }
  }

  /** The score of a row is at least 0 and at most the row's sum, and it is 0
      exactly when no two tiles merged. */
  lemma GainBounds(row: seq<int>)
    requires NonNegative(row)
    ensures 0 <= Gain(row) <= Sum(row)
    ensures Gain(row) == 0 <==> |Compress(Slide(row))| == |Compress(row)|
  {
    var c := Compress(row);
    CompressMembers(row);
    assert NonNegative(c) by {
      forall i | 0 <= i < |c| ensures c[i] >= 0 {
        assert c[i] in row;
      }
    }
    MergeGainBounds(c);
    SumCompress(row);
    SlidePacked(row);
    MergeGainZero(c);
  }

  /** Every tile that survives `filter` is a cell of the row. */
  lemma {:induction false} CompressMembers(s: seq<int>)
    ensures forall x :: x in Compress(s) ==> x in s
  {
    if s != [] {
      CompressMembers(s[1..]);
    }
  }

  /** A row of cell values stays a row of cell values. */
  lemma SlideTiles(row: seq<int>)
    requires AllTiles(row)
    ensures AllTiles(Slide(row))
  {
    var c := Compress(row);
    CompressMembers(row);
    assert AllTiles(c) by {
      forall i | 0 <= i < |c| ensures IsTile(c[i]) {
        assert c[i] in row;
      }
    }
    MergeTiles(c);
  }

  /** No tile merges twice: the row's tiles go to the moved row's tiles by
      single tiles and pairs of equal neighbours, and the score is the sum
      of the doubled values. `Pairing` also admits non-greedy pairings (and
      no merge at all), so this lemma does not state that the leftmost equal
      pair merges first; that rule is `Merge`'s own definition, which
      `Moves.CollapseRow` ties to the in-place scan, and the `Example`
      lemmas below show it on concrete rows. */
  lemma SlidePairs(row: seq<int>)
    ensures Pairing(Compress(row), Compress(Slide(row)), Gain(row))
  {
    SlidePacked(row);
    MergeIsPairing(Compress(row));
  }

  /** A full row moves to the left unchanged exactly when it is packed and no
      tile has an equal neighbour; an unchanged row scores nothing. */
  lemma SlideFixed(row: seq<int>)
    requires |row| == Size
    ensures Slide(row) == row <==> Packed(row) && NoMergeablePair(row)
    ensures Slide(row) == row ==> Gain(row) == 0
  {
    var c := Compress(row);
    var m := Merge(c);
    SlidePacked(row);
    if Slide(row) == row {
      assert c == m;
      MergeFixed(c);
      PackedSplit(row);
      forall i | 0 <= i < |row| - 1 && row[i] != 0
        ensures row[i] != row[i + 1]
      {
      }
    }
    if Packed(row) && NoMergeablePair(row) {
      PackedSplit(row);
      assert NoAdjacentEqual(c) by {
        forall i | 0 <= i < |c| - 1 ensures c[i] != c[i + 1] {
          assert row[i] == c[i] && row[i + 1] == c[i + 1];
        }
      }
      MergeFixed(c);
    }
  }

  /** A pair merges once. */
  lemma ExamplePair()
    ensures Slide([2, 2, 0, 0]) == [4, 0, 0, 0] && Gain([2, 2, 0, 0]) == 4
  {
    assert Compress([2, 2, 0, 0]) == [2, 2];
    assert Merge([2, 2]) == [4];
    assert Zeros(3) == [0, 0, 0];
  }

  /** Of three equal tiles, the two nearest the wall merge. */
  lemma ExampleTriple()
    ensures Slide([2, 2, 2, 0]) == [4, 2, 0, 0] && Gain([2, 2, 2, 0]) == 4
  {
    assert Compress([2, 2, 2, 0]) == [2, 2, 2];
    assert Merge([2, 2, 2]) == [4, 2];
  }

  /** Four equal tiles make two pairs, and a merged tile does not merge again. */
  lemma ExampleQuad()
    ensures Slide([2, 2, 2, 2]) == [4, 4, 0, 0] && Gain([2, 2, 2, 2]) == 8
  {
    assert Compress([2, 2, 2, 2]) == [2, 2, 2, 2];
    assert Merge([2, 2]) == [4];
    assert Merge([2, 2, 2, 2]) == [4, 4];
  }

  /** Tiles merge across an empty cell. */
  lemma ExampleGap()
    ensures Slide([2, 0, 2, 4]) == [4, 4, 0, 0] && Gain([2, 0, 2, 4]) == 4
  {
    assert Compress([2, 0, 2, 4]) == [2, 2, 4];
    assert Merge([2, 2, 4]) == [4, 4];
  }

  /** Alternating tiles do not move. */
  lemma ExampleAlternating()
    ensures Slide([2, 4, 2, 4]) == [2, 4, 2, 4] && Gain([2, 4, 2, 4]) == 0
  {
    assert Compress([2, 4, 2, 4]) == [2, 4, 2, 4];
    assert Merge([2, 4]) == [2, 4];
    assert Merge([4, 2, 4]) == [4, 2, 4];
    assert Merge([2, 4, 2, 4]) == [2, 4, 2, 4];
  }
}
