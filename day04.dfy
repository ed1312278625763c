/** Day 4: counting XMAS in the rows, columns and diagonals of a letter grid. */
module Day04 {

  type Grid = seq<seq<char>>

  /** A non-empty rectangular grid, as the parser's `Array2::from_shape_fn` builds it. */
  predicate IsGrid(g: Grid)
  {
    |g| >= 1 && |g[0]| >= 1 && forall r :: 0 <= r < |g| ==> |g[r]| == |g[0]|
  }

  function Min(a: int, b: int): int
  {
    if a < b then a else b
  }

  /** The column `c`, top to bottom. */
  function Column(g: Grid, c: nat): (s: string)
    requires IsGrid(g) && c < |g[0]|
    ensures |s| == |g| && forall i :: 0 <= i < |g| ==> s[i] == g[i][c]
  {
    seq(|g|, i requires 0 <= i < |g| => g[i][c])
  }

  /** ndarray's `diag()`: the entries `h[i][i]` for as long as both axes last. */
  function MainDiag(h: Grid): (s: string)
    requires IsGrid(h)
  {
    seq(Min(|h|, |h[0]|), i requires 0 <= i < Min(|h|, |h[0]|) => h[i][i])
  }

  /** `slice(s![k.., ..])`: drop the first `k` rows. */
  function DropRows(g: Grid, k: nat): (h: Grid)
    requires IsGrid(g) && k < |g|
    ensures IsGrid(h)
  {
    g[k..]
  }

  /** `slice(s![.., k..])`: drop the first `k` columns. */
  function DropColumns(g: Grid, k: nat): (h: Grid)
    requires IsGrid(g) && k < |g[0]|
    ensures IsGrid(h) && |h| == |g| && |h[0]| == |g[0]| - k
    ensures forall r, c :: 0 <= r < |h| && 0 <= c < |h[0]| ==> h[r][c] == g[r][k + c]
  {
    seq(|g|, r requires 0 <= r < |g| => g[r][k..])
  }

  /** `diag_with_offset`: the main diagonal of the grid with rows (offset > 0) or columns (offset < 0) dropped. */
  function DiagWithOffset(g: Grid, offset: int): string
    requires IsGrid(g) && -|g[0]| < offset < |g|
  {
    if offset == 0 then MainDiag(g)
    else if offset > 0 then MainDiag(DropRows(g, offset))
    else MainDiag(DropColumns(g, -offset))
  }

  /** The diagonal at offset k reads `g[k+i][i]` for k >= 0 and `g[i][i-k]` for k < 0, until an edge. */
  lemma DiagWithOffsetElements(g: Grid, offset: int)
    requires IsGrid(g) && -|g[0]| < offset < |g|
    ensures offset >= 0 ==> |DiagWithOffset(g, offset)| == Min(|g| - offset, |g[0]|)
    ensures offset < 0 ==> |DiagWithOffset(g, offset)| == Min(|g|, |g[0]| + offset)
    ensures forall i :: 0 <= i < |DiagWithOffset(g, offset)| ==>
      DiagWithOffset(g, offset)[i] == if offset >= 0 then g[offset + i][i] else g[i][i - offset]
  {
  }

  /** `swap_axes(0, 1)`: the transpose. */
  function SwapAxes(g: Grid): (h: Grid)
    requires IsGrid(g)
    ensures IsGrid(h) && |h| == |g[0]| && |h[0]| == |g|
  {
    seq(|g[0]|, c requires 0 <= c < |g[0]| => Column(g, c))
  }

  /** `invert_axis(Axis(0))`: the rows in reverse order. */
  function InvertRows(g: Grid): (h: Grid)
    requires IsGrid(g)
    ensures IsGrid(h) && |h| == |g| && |h[0]| == |g[0]|
  {
    seq(|g|, r requires 0 <= r < |g| => g[|g| - 1 - r])
  }

  /** The grid turned a quarter counter-clockwise. */
  function Rotate(g: Grid): (h: Grid)
    requires IsGrid(g)
    ensures IsGrid(h) && |h| == |g[0]| && |h[0]| == |g|
  {
    InvertRows(SwapAxes(g))
  }

  /** Transpose then row reversal: `rotated[i][j] == g[j][ncols - 1 - i]`. */
  lemma RotateElements(g: Grid)
    requires IsGrid(g)
    ensures forall i, j :: 0 <= i < |g[0]| && 0 <= j < |g| ==> Rotate(g)[i][j] == g[j][|g[0]| - 1 - i]
  {
  }

  /** The diagonals of the rotated grid are the anti-diagonals of the grid. */
  lemma RotatedDiagonalsAreAntiDiagonals(g: Grid, offset: int)
    requires IsGrid(g) && -|g| < offset < |g[0]|
    ensures forall i :: 0 <= i < |DiagWithOffset(Rotate(g), offset)| ==>
      DiagWithOffset(Rotate(g), offset)[i] ==
        if offset >= 0 then g[i][|g[0]| - 1 - offset - i] else g[i - offset][|g[0]| - 1 - i]
  {
    DiagWithOffsetElements(Rotate(g), offset);
    RotateElements(g);
  }

  /** All the columns, left to right. */
  function Columns(g: Grid): (cs: seq<string>)
    requires IsGrid(g)
    ensures |cs| == |g[0]|
  {
    seq(|g[0]|, c requires 0 <= c < |g[0]| => Column(g, c))
  }

  /** For row offsets 1 .. hi-1 in turn: the grid's diagonal and the rotated grid's diagonal at the opposite offset. */
  function RowOffsetPairs(g: Grid, hi: nat): (ss: seq<string>)
    requires IsGrid(g) && hi <= |g|
  {
    if hi <= 1 then []
    else RowOffsetPairs(g, hi - 1) + [DiagWithOffset(g, hi - 1), DiagWithOffset(Rotate(g), -(hi - 1))]
  }

  /** For column offsets 1 .. hi-1 in turn: the grid's diagonal and the rotated grid's diagonal at the opposite offset. */
  function ColumnOffsetPairs(g: Grid, hi: nat): (ss: seq<string>)
    requires IsGrid(g) && hi <= |g[0]|
  {
    if hi <= 1 then []
    else ColumnOffsetPairs(g, hi - 1) + [DiagWithOffset(g, -(hi - 1)), DiagWithOffset(Rotate(g), hi - 1)]
  }

  /** Every string part 1 scans, in the order `extract_strings` pushes them. */
  function AllStrings(g: Grid): seq<string>
    requires IsGrid(g)
  {
    g + Columns(g) + [DiagWithOffset(g, 0), DiagWithOffset(Rotate(g), 0)]
      + RowOffsetPairs(g, |g|) + ColumnOffsetPairs(g, |g[0]|)
  }

  /** `extract_strings`: every row, every column and every diagonal of the grid and of its rotation. */
  method ExtractStrings(g: Grid) returns (strings: seq<string>)
    requires IsGrid(g)
    ensures strings == AllStrings(g)
  {
    var nr, nc := |g|, |g[0]|;
    strings := [];
    for r := 0 to nr
      invariant strings == g[..r]
    {
      assert g[..r + 1] == g[..r] + [g[r]];
      strings := strings + [g[r]];
    }
    for c := 0 to nc
      invariant strings == g + Columns(g)[..c]
    {
      assert Columns(g)[..c + 1] == Columns(g)[..c] + [Column(g, c)];
      strings := strings + [Column(g, c)];
    }
    assert Columns(g)[..nc] == Columns(g);
    strings := strings + [DiagWithOffset(g, 0), DiagWithOffset(Rotate(g), 0)];
    strings := PushRowOffsetPairs(g, strings);
    strings := PushColumnOffsetPairs(g, strings);
  }

  /** The `for offset in 1..nb_rows` loop of `extract_strings`. */
  method PushRowOffsetPairs(g: Grid, prefix: seq<string>) returns (strings: seq<string>)
    requires IsGrid(g)
    ensures strings == prefix + RowOffsetPairs(g, |g|)
  {
    var rotated := Rotate(g);
    strings := prefix;
    for offset: int := 1 to |g|
      invariant strings == prefix + RowOffsetPairs(g, offset)
    {
      strings := strings + [DiagWithOffset(g, offset), DiagWithOffset(rotated, -offset)];
    }
  }

  /** The `for offset in 1..nb_cols` loop of `extract_strings`. */
  method PushColumnOffsetPairs(g: Grid, prefix: seq<string>) returns (strings: seq<string>)
    requires IsGrid(g)
    ensures strings == prefix + ColumnOffsetPairs(g, |g[0]|)
  {
    var rotated := Rotate(g);
    strings := prefix;
    for offset: int := 1 to |g[0]|
      invariant strings == prefix + ColumnOffsetPairs(g, offset)
    {
      strings := strings + [DiagWithOffset(g, -offset), DiagWithOffset(rotated, offset)];
    }
  }

  lemma {:induction false} RowOffsetPairsLength(g: Grid, hi: nat)
    requires IsGrid(g) && 1 <= hi <= |g|
    ensures |RowOffsetPairs(g, hi)| == 2 * (hi - 1)
  {
    if hi > 1 {
      RowOffsetPairsLength(g, hi - 1);
    }
  }

  lemma {:induction false} ColumnOffsetPairsLength(g: Grid, hi: nat)
    requires IsGrid(g) && 1 <= hi <= |g[0]|
    ensures |ColumnOffsetPairs(g, hi)| == 2 * (hi - 1)
  {
    if hi > 1 {
      ColumnOffsetPairsLength(g, hi - 1);
    }
  }

  /** There are exactly `3 * (nrows + ncols) - 2` strings, the capacity `extract_strings` reserves. */
  lemma AllStringsCount(g: Grid)
    requires IsGrid(g)
    ensures |AllStrings(g)| == 3 * (|g| + |g[0]|) - 2
  {
    RowOffsetPairsLength(g, |g|);
    ColumnOffsetPairsLength(g, |g[0]|);
  }

  /** `str::matches(pattern).count()`: non-overlapping occurrences, scanning left to right. */
  function MatchCount(s: string, pattern: string): nat
    requires |pattern| > 0
  {
    if |s| < |pattern| then 0
    else if s[..|pattern|] == pattern then 1 + MatchCount(s[|pattern|..], pattern)
    else MatchCount(s[1..], pattern)
  }

  /** Matches do not overlap, so they fit in the string. */
  lemma {:induction false} MatchCountBound(s: string, pattern: string)
    requires |pattern| > 0
    ensures MatchCount(s, pattern) * |pattern| <= |s|
  {
    if |s| >= |pattern| {
      if s[..|pattern|] == pattern {
        MatchCountBound(s[|pattern|..], pattern);
      } else {
        MatchCountBound(s[1..], pattern);
      }
    }
  }

  /** A string without a character of the pattern holds no match. */
  lemma {:induction false} MatchCountMissingChar(s: string, pattern: string, x: char)
    requires |pattern| > 0 && x in pattern && x !in s
    ensures MatchCount(s, pattern) == 0
  {
    if |s| >= |pattern| {
      if s[..|pattern|] != pattern {
        MatchCountMissingChar(s[1..], pattern, x);
      }
    }
  }

  /** What one string adds to part 1. */
  function StringScore(s: string): nat
  {
    MatchCount(s, "XMAS") + MatchCount(s, "SAMX")
  }

  /** The `map(...).sum()` over the extracted strings. */
  function TotalScore(strings: seq<string>): nat
  {
    if strings == [] then 0 else StringScore(strings[0]) + TotalScore(strings[1..])
  }

  /** Part 1, given the parsed grid. */
  method Part1(g: Grid) returns (n: nat)
    requires IsGrid(g)
    ensures n == TotalScore(AllStrings(g))
  {
    var strings := ExtractStrings(g);
    n := TotalScore(strings);
  }

  predicate InGrid(g: Grid, x: char)
  {
    exists r, c :: 0 <= r < |g| && 0 <= c < |g[r]| && g[r][c] == x
  }

  lemma DiagCharsFromGrid(g: Grid, offset: int, x: char)
    requires IsGrid(g) && -|g[0]| < offset < |g| && x in DiagWithOffset(g, offset)
    ensures InGrid(g, x)
  {
    DiagWithOffsetElements(g, offset);
    var i :| 0 <= i < |DiagWithOffset(g, offset)| && DiagWithOffset(g, offset)[i] == x;
    if offset >= 0 {
      assert g[offset + i][i] == x;
    } else {
      assert g[i][i - offset] == x;
    }
  }

  lemma RotatedCharsFromGrid(g: Grid, x: char)
    requires IsGrid(g) && InGrid(Rotate(g), x)
    ensures InGrid(g, x)
  {
    RotateElements(g);
    var i, j :| 0 <= i < |Rotate(g)| && 0 <= j < |Rotate(g)[i]| && Rotate(g)[i][j] == x;
    assert g[j][|g[0]| - 1 - i] == x;
  }

  /** The two strings pushed for one row offset hold only characters of the grid. */
  lemma RowPairFromGrid(g: Grid, offset: int, x: char)
    requires IsGrid(g) && 1 <= offset < |g|
    requires x in DiagWithOffset(g, offset) || x in DiagWithOffset(Rotate(g), -offset)
    ensures InGrid(g, x)
  {
    if x in DiagWithOffset(g, offset) {
      DiagCharsFromGrid(g, offset, x);
    } else {
      DiagCharsFromGrid(Rotate(g), -offset, x);
      RotatedCharsFromGrid(g, x);
    }
  }

  /** The two strings pushed for one column offset hold only characters of the grid. */
  lemma ColumnPairFromGrid(g: Grid, offset: int, x: char)
    requires IsGrid(g) && 1 <= offset < |g[0]|
    requires x in DiagWithOffset(g, -offset) || x in DiagWithOffset(Rotate(g), offset)
    ensures InGrid(g, x)
  {
    if x in DiagWithOffset(g, -offset) {
      DiagCharsFromGrid(g, -offset, x);
    } else {
      DiagCharsFromGrid(Rotate(g), offset, x);
      RotatedCharsFromGrid(g, x);
    }
  }

  lemma {:induction false} RowOffsetPairsFromGrid(g: Grid, hi: nat, k: nat, x: char)
    requires IsGrid(g) && hi <= |g| && k < |RowOffsetPairs(g, hi)| && x in RowOffsetPairs(g, hi)[k]
    ensures InGrid(g, x)
  {
    assert hi > 1;
    var ss := RowOffsetPairs(g, hi - 1);
    if k < |ss| {
      assert RowOffsetPairs(g, hi)[k] == ss[k];
      RowOffsetPairsFromGrid(g, hi - 1, k, x);
    } else {
      RowPairFromGrid(g, hi - 1, x);
    }
  }

  lemma {:induction false} ColumnOffsetPairsFromGrid(g: Grid, hi: nat, k: nat, x: char)
    requires IsGrid(g) && hi <= |g[0]| && k < |ColumnOffsetPairs(g, hi)| && x in ColumnOffsetPairs(g, hi)[k]
    ensures InGrid(g, x)
  {
    assert hi > 1;
    var ss := ColumnOffsetPairs(g, hi - 1);
    if k < |ss| {
      assert ColumnOffsetPairs(g, hi)[k] == ss[k];
      ColumnOffsetPairsFromGrid(g, hi - 1, k, x);
    } else {
      ColumnPairFromGrid(g, hi - 1, x);
    }
  }

  /** Every character of an extracted string is a character of the grid. */
  lemma StringCharsFromGrid(g: Grid, k: nat, x: char)
    requires IsGrid(g) && k < |AllStrings(g)| && x in AllStrings(g)[k]
    ensures InGrid(g, x)
  {
    var nr, nc := |g|, |g[0]|;
    var rows := RowOffsetPairs(g, nr);
    if k < nr {
      var i :| 0 <= i < |g[k]| && g[k][i] == x;
    } else if k < nr + nc {
      var i :| 0 <= i < nr && Column(g, k - nr)[i] == x;
      assert g[i][k - nr] == x;
    } else if k == nr + nc {
      DiagCharsFromGrid(g, 0, x);
    } else if k == nr + nc + 1 {
      DiagCharsFromGrid(Rotate(g), 0, x);
      RotatedCharsFromGrid(g, x);
    } else if k < nr + nc + 2 + |rows| {
      RowOffsetPairsFromGrid(g, nr, k - (nr + nc + 2), x);
    } else {
      ColumnOffsetPairsFromGrid(g, nc, k - (nr + nc + 2 + |rows|), x);
    }
  }

  lemma {:induction false} TotalScoreZero(strings: seq<string>)
    requires forall k :: 0 <= k < |strings| ==> 'X' !in strings[k]
    ensures TotalScore(strings) == 0
  {
    if strings != [] {
      MatchCountMissingChar(strings[0], "XMAS", 'X');
      MatchCountMissingChar(strings[0], "SAMX", 'X');
      TotalScoreZero(strings[1..]);
    }
  }

  /** A grid without the letter X scores 0. */
  lemma NoXScoresZero(g: Grid)
    requires IsGrid(g) && !InGrid(g, 'X')
    ensures TotalScore(AllStrings(g)) == 0
  {
    forall k | 0 <= k < |AllStrings(g)|
      ensures 'X' !in AllStrings(g)[k]
    {
      if 'X' in AllStrings(g)[k] {
        StringCharsFromGrid(g, k, 'X');
      }
    }
    TotalScoreZero(AllStrings(g));
  }

  lemma ExampleDigitsOnly()
    ensures TotalScore(AllStrings(["01", "23", "45", "67"])) == 0
  {
    NoXScoresZero(["01", "23", "45", "67"]);
  }

  lemma ExampleDigitsWide()
    ensures TotalScore(AllStrings(["0123", "4567"])) == 0
  {
    NoXScoresZero(["0123", "4567"]);
  }

  lemma ExampleDigitsSquare()
    ensures TotalScore(AllStrings(["012", "345", "678"])) == 0
  {
    NoXScoresZero(["012", "345", "678"]);
  }

  lemma ExampleHexSquare()
    ensures TotalScore(AllStrings(["0123", "4567", "89AB", "CDEF"])) == 0
  {
    NoXScoresZero(["0123", "4567", "89AB", "CDEF"]);
  }
}
