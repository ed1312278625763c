/**
 * Day 20: a race track through a maze. The track is followed once from `S` to `E`, labelling every
 * cell on it with its distance from the start; part 1 then counts the cheats, places where a single
 * wall cell separates two labelled cells in a row or a column and the labels differ by more than a
 * threshold. Part 2 is a placeholder.
 */
module Day20 {
  import opened Common

  datatype Cell = Empty | Wall | Start | Exit

  type Pos = (int, int)
  type Grid = seq<seq<Cell>>
  /** The `Array2<Option<usize>>` of path lengths, read as rows. */
  type Lengths = seq<seq<Option<nat>>>

  function Cols(g: Grid): nat
  {
    if g == [] then 0 else |g[0]|
  }

  predicate Rect(g: Grid)
  {
    forall r :: 0 <= r < |g| ==> |g[r]| == Cols(g)
  }

  predicate InGrid(g: Grid, p: Pos)
  {
    0 <= p.0 < |g| && 0 <= p.1 < Cols(g)
  }

  function At(g: Grid, p: Pos): Cell
    requires Rect(g) && InGrid(g, p)
  {
    g[p.0][p.1]
  }

  // ---------------------------------------------------------------------------------------------
  // find_start_and_exit

  /** Row-major order, the order of `indexed_iter`. */
  predicate Before(a: Pos, b: Pos)
  {
    a.0 < b.0 || (a.0 == b.0 && a.1 < b.1)
  }

  /** `found` is the last cell before `limit` in row-major order holding `x`, if there is one. */
  ghost predicate LastBefore(g: Grid, x: Cell, found: Option<Pos>, limit: Pos)
    requires Rect(g)
  {
    && (found.Some? ==> InGrid(g, found.value) && At(g, found.value) == x && Before(found.value, limit))
    && forall p :: InGrid(g, p) && Before(p, limit) && At(g, p) == x ==> found.Some? && !Before(found.value, p)
  }

  /** The last cell of the whole map holding `x`. */
  ghost predicate IsLast(g: Grid, x: Cell, p: Pos)
    requires Rect(g)
  {
    InGrid(g, p) && At(g, p) == x && forall p' :: InGrid(g, p') && Before(p, p') ==> At(g, p') != x
  }

  lemma {:induction false} LastBeforeStep(g: Grid, x: Cell, found: Option<Pos>, r: nat, c: nat)
    requires Rect(g) && r < |g| && c < Cols(g) && LastBefore(g, x, found, (r, c))
    ensures LastBefore(g, x, if g[r][c] == x then Some((r, c)) else found, (r, c + 1))
  {
  }

  lemma {:induction false} LastBeforeRowEnd(g: Grid, x: Cell, found: Option<Pos>, r: nat)
    requires Rect(g) && r < |g| && LastBefore(g, x, found, (r, Cols(g)))
    ensures LastBefore(g, x, found, (r + 1, 0))
  {
  }

  /** One cell of the scan of `find_start_and_exit`. */
  method ScanCell(g: Grid, r: nat, c: nat, start: Option<Pos>, exit: Option<Pos>) returns (start': Option<Pos>, exit': Option<Pos>)
    requires Rect(g) && r < |g| && c < Cols(g)
    requires LastBefore(g, Start, start, (r, c)) && LastBefore(g, Exit, exit, (r, c))
    ensures LastBefore(g, Start, start', (r, c + 1)) && LastBefore(g, Exit, exit', (r, c + 1))
  {
    LastBeforeStep(g, Start, start, r, c);
    LastBeforeStep(g, Exit, exit, r, c);
    start', exit' := start, exit;
    if g[r][c] == Start {
      start' := Some((r, c));
    } else if g[r][c] == Exit {
      exit' := Some((r, c));
    }
  }

  /** One row of the scan. */
  method ScanRow(g: Grid, r: nat, start: Option<Pos>, exit: Option<Pos>) returns (start': Option<Pos>, exit': Option<Pos>)
    requires Rect(g) && r < |g|
    requires LastBefore(g, Start, start, (r, 0)) && LastBefore(g, Exit, exit, (r, 0))
    ensures LastBefore(g, Start, start', (r + 1, 0)) && LastBefore(g, Exit, exit', (r + 1, 0))
  {
    start', exit' := start, exit;
    for c := 0 to Cols(g)
      invariant LastBefore(g, Start, start', (r, c)) && LastBefore(g, Exit, exit', (r, c))
    {
      start', exit' := ScanCell(g, r, c, start', exit');
    }
    LastBeforeRowEnd(g, Start, start', r);
    LastBeforeRowEnd(g, Exit, exit', r);
  }

  /**
   * `find_start_and_exit`: the scan keeps overwriting, so it returns the last `S` and the last `E`
   * in row-major order; a map without one of them panics.
   */
  method FindStartAndExit(g: Grid) returns (start: Pos, exit: Pos)
    requires Rect(g)
    requires exists p :: InGrid(g, p) && At(g, p) == Start
    requires exists p :: InGrid(g, p) && At(g, p) == Exit
    ensures IsLast(g, Start, start) && IsLast(g, Exit, exit)
  {
    var foundStart: Option<Pos> := None;
    var foundExit: Option<Pos> := None;
    for r := 0 to |g|
      invariant LastBefore(g, Start, foundStart, (r, 0)) && LastBefore(g, Exit, foundExit, (r, 0))
    {
      foundStart, foundExit := ScanRow(g, r, foundStart, foundExit);
    }
    start, exit := foundStart.value, foundExit.value;
  }

  // ---------------------------------------------------------------------------------------------
  // compute_path_lengths: following the track

  /** The four neighbours in the order the source tries them: up, down, left, right. */
  const Deltas: seq<(int, int)> := [(-1, 0), (1, 0), (0, -1), (0, 1)]

  function Shift(p: Pos, i: nat): Pos
    requires i < 4
  {
    (p.0 + Deltas[i].0, p.1 + Deltas[i].1)
  }

  /** The neighbour `i` is taken: it lies in the map, is not a wall and is not where we came from. */
  predicate Takes(g: Grid, p: Pos, previous: Pos, i: nat)
    requires Rect(g) && i < 4
  {
    InGrid(g, Shift(p, i)) && At(g, Shift(p, i)) != Wall && Shift(p, i) != previous
  }

  /** The first neighbour from index `i` on that the walk may take. */
  function FirstFrom(g: Grid, p: Pos, previous: Pos, i: nat): Option<Pos>
    requires Rect(g) && i <= 4
    decreases 4 - i
  {
    if i == 4 then None
    else if Takes(g, p, previous, i) then Some(Shift(p, i))
    else FirstFrom(g, p, previous, i + 1)
  }

  /** A neighbour found from index `i` on lies in the map, is no wall, is not `previous`, and is one step away. */
  lemma {:induction false} FirstFromStep(g: Grid, p: Pos, previous: Pos, i: nat)
    requires Rect(g) && i <= 4 && FirstFrom(g, p, previous, i).Some?
    ensures var q := FirstFrom(g, p, previous, i).value;
      InGrid(g, q) && At(g, q) != Wall && q != previous && Abs(q.0 - p.0) + Abs(q.1 - p.1) == 1
    decreases 4 - i
  {
    if !Takes(g, p, previous, i) {
      FirstFromStep(g, p, previous, i + 1);
    }
  }

  /** Where one pass of the inner `for` loop moves the walk, if anywhere. */
  function Next(g: Grid, p: Pos, previous: Pos): Option<Pos>
    requires Rect(g)
  {
    FirstFrom(g, p, previous, 0)
  }

  /** The next cell lies in the map, is not a wall, and is one step away. */
  lemma {:induction false} NextIsStep(g: Grid, p: Pos, previous: Pos)
    requires Rect(g) && Next(g, p, previous).Some?
    ensures var q := Next(g, p, previous).value;
      InGrid(g, q) && At(g, q) != Wall && q != previous && Abs(q.0 - p.0) + Abs(q.1 - p.1) == 1
  {
    FirstFromStep(g, p, previous, 0);
  }

  /** The cell before position `k` of a walk; the walk starts with `previous == start`. */
  function Prev(track: seq<Pos>, k: nat): Pos
    requires 0 <= k < |track|
  {
    if k == 0 then track[0] else track[k - 1]
  }

  /**
   * The walk the source's `while` loop follows from `start` until it first meets `end`: every cell
   * but the last differs from `end`, and each next cell is the one the inner loop picks.
   */
  ghost predicate IsTrack(g: Grid, start: Pos, end: Pos, track: seq<Pos>)
    requires Rect(g)
  {
    && |track| >= 1 && track[0] == start && track[|track| - 1] == end
    && forall k :: 0 <= k < |track| - 1 ==> Moves(g, end, track, k)
  }

  /** Position `k` of the walk is not yet `end`, and the inner loop moves on to position `k + 1`. */
  ghost predicate Moves(g: Grid, end: Pos, track: seq<Pos>, k: nat)
    requires Rect(g) && k < |track| - 1
  {
    track[k] != end && Next(g, track[k], Prev(track, k)) == Some(track[k + 1])
  }

  /** Two cells one step apart. */
  predicate Adjacent(p: Pos, q: Pos)
  {
    Abs(q.0 - p.0) + Abs(q.1 - p.1) == 1
  }

  /** A sequence of cells each one step from the one before. */
  ghost predicate IsPath(track: seq<Pos>)
  {
    forall k :: 0 <= k < |track| - 1 ==> Adjacent(track[k], track[k + 1])
  }

  /** Every cell of a track but the last is not `end`, and the walk moves on to the next one. */
  lemma {:induction false} TrackStep(g: Grid, start: Pos, end: Pos, track: seq<Pos>, k: nat)
    requires Rect(g) && IsTrack(g, start, end, track) && k < |track| - 1
    ensures track[k] != end && Next(g, track[k], Prev(track, k)) == Some(track[k + 1])
    ensures InGrid(g, track[k + 1]) && Adjacent(track[k], track[k + 1])
  {
    assert Moves(g, end, track, k);
    NextIsStep(g, track[k], Prev(track, k));
  }

  /** A track meets `end` only at its last position. */
  lemma {:induction false} EndOnlyLast(g: Grid, start: Pos, end: Pos, track: seq<Pos>, k: nat)
    requires Rect(g) && IsTrack(g, start, end, track) && k < |track|
    ensures track[k] == end <==> k == |track| - 1
  {
    if k < |track| - 1 {
      assert Moves(g, end, track, k);
    }
  }

  /** A track is a path. */
  lemma {:induction false} TrackIsPath(g: Grid, start: Pos, end: Pos, track: seq<Pos>)
    requires Rect(g) && IsTrack(g, start, end, track)
    ensures IsPath(track)
  {
    forall k | 0 <= k < |track| - 1
      ensures Adjacent(track[k], track[k + 1])
    {
      TrackStep(g, start, end, track, k);
    }
  }

  /** The walk is deterministic, so there is at most one track. */
  lemma {:induction false} TrackUnique(g: Grid, start: Pos, end: Pos, t: seq<Pos>, t': seq<Pos>)
    requires Rect(g) && IsTrack(g, start, end, t) && IsTrack(g, start, end, t')
    ensures t == t'
  {
    var n := 0;
    while n + 1 < |t| && n + 1 < |t'|
      invariant 0 <= n < |t| && n < |t'| && t[..n + 1] == t'[..n + 1]
      decreases |t| - n
    {
      assert Moves(g, end, t, n) && Moves(g, end, t', n);
      assert t[n] == t'[n] && Prev(t, n) == Prev(t', n) by {
        assert t[n] == t[..n + 1][n] && t'[n] == t'[..n + 1][n];
        if n > 0 {
          assert t[n - 1] == t[..n + 1][n - 1] && t'[n - 1] == t'[..n + 1][n - 1];
        }
      }
      assert t[..n + 2] == t[..n + 1] + [t[n + 1]] && t'[..n + 2] == t'[..n + 1] + [t'[n + 1]];
      n := n + 1;
    }
    assert t[n] == t'[n] by {
      assert t[n] == t[..n + 1][n] && t'[n] == t'[..n + 1][n];
    }
    EndOnlyLast(g, start, end, t, n);
    EndOnlyLast(g, start, end, t', n);
    assert t == t[..n + 1] && t' == t'[..n + 1];
  }

  /** The labels the walk writes, the last write of a cell winning. */
  ghost function LengthsOf(track: seq<Pos>): map<Pos, nat>
  {
    if track == [] then map[] else LengthsOf(track[..|track| - 1])[track[|track| - 1] := |track| - 1]
  }

  /** A labelled cell lies on the track and carries its position there, the last one it holds. */
  lemma {:induction false} LengthsOfMeaning(track: seq<Pos>, p: Pos)
    ensures p in LengthsOf(track) <==> p in track
    ensures p in LengthsOf(track) ==> var i := LengthsOf(track)[p];
      i < |track| && track[i] == p && forall j :: i < j < |track| ==> track[j] != p
    decreases |track|
  {
    if track != [] {
      var init := track[..|track| - 1];
      LengthsOfMeaning(init, p);
      assert track == init + [track[|track| - 1]];
      if p in LengthsOf(init) && p != track[|track| - 1] {
        var i := LengthsOf(init)[p];
        assert track[i] == init[i];
      }
    }
  }

  /** A track that visits no cell twice labels every cell with its distance from the start. */
  lemma {:induction false} DistinctTrackLabels(track: seq<Pos>, i: nat)
    requires i < |track| && forall j, j' :: 0 <= j < j' < |track| ==> track[j] != track[j']
    ensures track[i] in LengthsOf(track) && LengthsOf(track)[track[i]] == i
  {
    LengthsOfMeaning(track, track[i]);
  }

  /** The grid of labels an array of the map's shape holds once the walk has written `track`. */
  ghost function Labels(g: Grid, track: seq<Pos>): (l: Lengths)
    ensures |l| == |g| && forall r :: 0 <= r < |l| ==> |l[r]| == Cols(g)
  {
    seq(|g|, r => seq(Cols(g), c => if (r, c) in LengthsOf(track) then Some(LengthsOf(track)[(r, c)]) else None))
  }

  /** The array holds exactly the labels of `m`. */
  ghost predicate Mirrors(a: array2<Option<nat>>, m: map<Pos, nat>)
    reads a
  {
    forall r, c :: 0 <= r < a.Length0 && 0 <= c < a.Length1 ==>
      a[r, c] == if (r, c) in m then Some(m[(r, c)]) else None
  }

  /** The array read as rows. */
  function Rows(a: array2<Option<nat>>): Lengths
    reads a
  {
    seq(a.Length0, r requires 0 <= r < a.Length0 reads a => seq(a.Length1, c requires 0 <= c < a.Length1 reads a => a[r, c]))
  }

  /** The inner `for` loop: try the four neighbours in order and move to the first one taken. */
  method Advance(g: Grid, current: Pos, previous: Pos) returns (current': Pos, previous': Pos)
    requires Rect(g)
    ensures Next(g, current, previous).Some? ==> current' == Next(g, current, previous).value && previous' == current
    ensures Next(g, current, previous).None? ==> current' == current && previous' == previous
  {
    current', previous' := current, previous;
    var i := 0;
    while i < 4
      invariant 0 <= i <= 4
      invariant Next(g, current, previous) == FirstFrom(g, current, previous, i)
    {
      var row, col := current.0 + Deltas[i].0, current.1 + Deltas[i].1;
      if row < 0 || row >= |g| || col < 0 || col >= Cols(g) {
        i := i + 1;
        continue;
      }
      if g[row][col] != Wall && (row, col) != previous {
        previous' := current;
        current' := (row, col);
        return;
      }
      i := i + 1;
    }
  }

  /** Labelling one more cell of the track extends the labels by that cell. */
  lemma {:induction false} LengthsOfSnoc(track: seq<Pos>, k: nat)
    requires k < |track|
    ensures LengthsOf(track[..k + 1]) == LengthsOf(track[..k])[track[k] := k]
  {
    assert track[..k + 1][..k] == track[..k];
  }

  /** `path_lengths[current] = Some(current_length)`. */
  method Label(lengths: array2<Option<nat>>, p: Pos, length: nat, ghost m: map<Pos, nat>)
    requires 0 <= p.0 < lengths.Length0 && 0 <= p.1 < lengths.Length1 && Mirrors(lengths, m)
    modifies lengths
    ensures Mirrors(lengths, m[p := length])
  {
    lengths[p.0, p.1] := Some(length);
  }

  /** An array holding the labels of the whole track, read as rows, is the grid of labels. */
  lemma {:induction false} MirrorsLabels(g: Grid, lengths: array2<Option<nat>>, track: seq<Pos>)
    requires lengths.Length0 == |g| && lengths.Length1 == Cols(g) && Mirrors(lengths, LengthsOf(track))
    ensures Rows(lengths) == Labels(g, track)
  {
    SameLengths(Rows(lengths), Labels(g, track));
  }

  /**
   * `compute_path_lengths`: follow the track from `start` and label each cell with its distance,
   * then label `end`. The source's loop ends only when the walk meets `end`; the requirement that
   * the walk does so is what makes it terminate.
   */
  method ComputePathLengths(g: Grid, start: Pos, end: Pos) returns (lengths: array2<Option<nat>>)
    requires Rect(g) && InGrid(g, start)
    requires exists track :: IsTrack(g, start, end, track)
    ensures fresh(lengths) && lengths.Length0 == |g| && lengths.Length1 == Cols(g)
    ensures forall track :: IsTrack(g, start, end, track) ==> Rows(lengths) == Labels(g, track)
  {
    ghost var track :| IsTrack(g, start, end, track);
    lengths := new Option<nat>[|g|, Cols(g)]((_, _) => None);
    var current, previous, length := start, start, 0;
    ghost var k := 0;
    while current != end
      invariant 0 <= k < |track| && current == track[k] && previous == Prev(track, k) && length == k
      invariant InGrid(g, current) && lengths.Length0 == |g| && lengths.Length1 == Cols(g)
      invariant Mirrors(lengths, LengthsOf(track[..k]))
      decreases |track| - k
    {
      assert k < |track| - 1;
      Label(lengths, current, length, LengthsOf(track[..k]));
      LengthsOfSnoc(track, k);
      length := length + 1;
      TrackStep(g, start, end, track, k);
      current, previous := Advance(g, current, previous);
      k := k + 1;
    }
    EndOnlyLast(g, start, end, track, k);
    Label(lengths, end, length, LengthsOf(track[..k]));
    LengthsOfSnoc(track, k);
    assert track[..k + 1] == track;
    MirrorsLabels(g, lengths, track);
    forall track' | IsTrack(g, start, end, track')
      ensures Rows(lengths) == Labels(g, track')
    {
      TrackUnique(g, start, end, track, track');
    }
  }

  /** Two label grids of the same shape that agree cell by cell are equal. */
  lemma {:induction false} SameLengths(a: Lengths, b: Lengths)
    requires |a| == |b| && forall r :: 0 <= r < |a| ==> |a[r]| == |b[r]|
    requires forall r, c :: 0 <= r < |a| && 0 <= c < |a[r]| ==> a[r][c] == b[r][c]
    ensures a == b
  {
    forall r | 0 <= r < |a|
      ensures a[r] == b[r]
    {
    }
  }

  // ---------------------------------------------------------------------------------------------
  // compute_part_1: counting cheats

  /** A window the filter keeps: labels at both ends, none in the middle, a gap above `threshold`. */
  predicate Cheat(a: Option<nat>, b: Option<nat>, c: Option<nat>, threshold: nat)
  {
    a.Some? && b.None? && c.Some? && Abs(a.value - c.value) > threshold
  }

  /** The `(1, 3)` windows of one row that the filter keeps. */
  function RowCount(row: seq<Option<nat>>, threshold: nat): nat
    decreases |row|
  {
    if |row| < 3 then 0
    else (if Cheat(row[0], row[1], row[2], threshold) then 1 else 0) + RowCount(row[1..], threshold)
  }

  /** The `(3, 1)` windows whose cells are the columns of three consecutive rows. */
  function ColCount(a: seq<Option<nat>>, b: seq<Option<nat>>, c: seq<Option<nat>>, threshold: nat): nat
    decreases |a|
  {
    if a == [] || b == [] || c == [] then 0
    else (if Cheat(a[0], b[0], c[0], threshold) then 1 else 0) + ColCount(a[1..], b[1..], c[1..], threshold)
  }

  /** All `(1, 3)` windows of the grid. */
  function HorizontalCount(l: Lengths, threshold: nat): nat
    decreases |l|
  {
    if l == [] then 0 else RowCount(l[0], threshold) + HorizontalCount(l[1..], threshold)
  }

  /** All `(3, 1)` windows of the grid. */
  function VerticalCount(l: Lengths, threshold: nat): nat
    decreases |l|
  {
    if |l| < 3 then 0 else ColCount(l[0], l[1], l[2], threshold) + VerticalCount(l[1..], threshold)
  }

  /** The number `compute_part_1` returns for a grid of labels. */
  function CheatCount(l: Lengths, threshold: nat): nat
  {
    HorizontalCount(l, threshold) + VerticalCount(l, threshold)
  }

  /** Every window kept at threshold `t'` is kept at threshold `t`, row by row. */
  ghost predicate RowKeeps(row: seq<Option<nat>>, t: nat, t': nat)
  {
    forall i :: 0 <= i < |row| - 2 ==> Cheat(row[i], row[i + 1], row[i + 2], t') ==> Cheat(row[i], row[i + 1], row[i + 2], t)
  }

  ghost predicate ColKeeps(a: seq<Option<nat>>, b: seq<Option<nat>>, c: seq<Option<nat>>, t: nat, t': nat)
  {
    forall i :: 0 <= i < |a| && i < |b| && i < |c| ==> Cheat(a[i], b[i], c[i], t') ==> Cheat(a[i], b[i], c[i], t)
  }

  /** Every window of the grid kept at `t'` is kept at `t`. */
  ghost predicate Keeps(l: Lengths, t: nat, t': nat)
  {
    && (forall r :: 0 <= r < |l| ==> RowKeeps(l[r], t, t'))
    && (forall r :: 0 <= r < |l| - 2 ==> ColKeeps(l[r], l[r + 1], l[r + 2], t, t'))
  }

  lemma {:induction false} RowCountLe(row: seq<Option<nat>>, t: nat, t': nat)
    requires RowKeeps(row, t, t')
    ensures RowCount(row, t') <= RowCount(row, t)
    decreases |row|
  {
    if |row| >= 3 {
      assert RowKeeps(row[1..], t, t') by {
        forall i | 0 <= i < |row[1..]| - 2
          ensures Cheat(row[1..][i], row[1..][i + 1], row[1..][i + 2], t') ==> Cheat(row[1..][i], row[1..][i + 1], row[1..][i + 2], t)
        {
          assert row[1..][i] == row[i + 1] && row[1..][i + 1] == row[i + 2] && row[1..][i + 2] == row[i + 3];
        }
      }
      RowCountLe(row[1..], t, t');
    }
  }

  lemma {:induction false} ColCountLe(a: seq<Option<nat>>, b: seq<Option<nat>>, c: seq<Option<nat>>, t: nat, t': nat)
    requires ColKeeps(a, b, c, t, t')
    ensures ColCount(a, b, c, t') <= ColCount(a, b, c, t)
    decreases |a|
  {
    if a != [] && b != [] && c != [] {
      assert ColKeeps(a[1..], b[1..], c[1..], t, t') by {
        forall i | 0 <= i < |a[1..]| && i < |b[1..]| && i < |c[1..]|
          ensures Cheat(a[1..][i], b[1..][i], c[1..][i], t') ==> Cheat(a[1..][i], b[1..][i], c[1..][i], t)
        {
          assert a[1..][i] == a[i + 1] && b[1..][i] == b[i + 1] && c[1..][i] == c[i + 1];
        }
      }
      ColCountLe(a[1..], b[1..], c[1..], t, t');
    }
  }

  /** The count at `t'` is at most the count at `t` when every window kept at `t'` is kept at `t`. */
  lemma {:induction false} CheatCountLe(l: Lengths, t: nat, t': nat)
    requires Keeps(l, t, t')
    ensures HorizontalCount(l, t') <= HorizontalCount(l, t)
    ensures VerticalCount(l, t') <= VerticalCount(l, t)
    ensures CheatCount(l, t') <= CheatCount(l, t)
    decreases |l|
  {
    if l != [] {
      assert Keeps(l[1..], t, t') by {
        forall r | 0 <= r < |l[1..]|
          ensures RowKeeps(l[1..][r], t, t')
        {
          assert l[1..][r] == l[r + 1];
        }
        forall r | 0 <= r < |l[1..]| - 2
          ensures ColKeeps(l[1..][r], l[1..][r + 1], l[1..][r + 2], t, t')
        {
          assert l[1..][r] == l[r + 1] && l[1..][r + 1] == l[r + 2] && l[1..][r + 2] == l[r + 3];
        }
      }
      CheatCountLe(l[1..], t, t');
      RowCountLe(l[0], t, t');
      if |l| >= 3 {
        ColCountLe(l[0], l[1], l[2], t, t');
      }
    }
  }

  /** Raising the threshold never adds a cheat. */
  lemma {:induction false} CheatCountAntitone(l: Lengths, t: nat, t': nat)
    requires t <= t'
    ensures CheatCount(l, t') <= CheatCount(l, t)
  {
    CheatCountLe(l, t, t');
  }

  /** Every label has the colour of its cell on the chequerboard, shifted by `s`. */
  ghost predicate Chequered(l: Lengths, s: int)
  {
    forall r, c :: 0 <= r < |l| && 0 <= c < |l[r]| && l[r][c].Some? ==> (r + c + l[r][c].value) % 2 == s
  }

  /** One cell of the grid of labels. */
  lemma {:induction false} LabelAt(g: Grid, track: seq<Pos>, r: nat, c: nat)
    requires r < |g| && c < Cols(g)
    ensures Labels(g, track)[r][c] == if (r, c) in LengthsOf(track) then Some(LengthsOf(track)[(r, c)]) else None
  {
  }

  /** A step of one cell changes the colour of the cell. */
  lemma {:induction false} ParityStep(x: int, d: int)
    requires d == 0 || d == 2
    ensures (x + d) % 2 == x % 2
  {
  }

  /** Position `i` of a path has the colour of its first cell shifted by `i`. */
  lemma {:induction false} PathParity(track: seq<Pos>, i: nat)
    requires IsPath(track) && i < |track|
    ensures (track[i].0 + track[i].1 + i) % 2 == (track[0].0 + track[0].1) % 2
  {
    if i > 0 {
      PathParity(track, i - 1);
      assert Adjacent(track[i - 1], track[i]);
      var x := track[i - 1].0 + track[i - 1].1 + (i - 1);
      ParityStep(x, track[i].0 + track[i].1 + i - x);
    }
  }

  /**
   * The labels of a path alternate with the chequerboard: each step moves one cell, so the
   * distance from the start and the colour of the cell change parity together.
   */
  lemma {:induction false} PathChequered(g: Grid, track: seq<Pos>)
    requires IsPath(track) && |track| >= 1
    ensures Chequered(Labels(g, track), (track[0].0 + track[0].1) % 2)
  {
    var l: Lengths := Labels(g, track);
    forall r: int, c: int | 0 <= r < |l| && 0 <= c < |l[r]| && l[r][c].Some?
      ensures (r + c + l[r][c].value) % 2 == (track[0].0 + track[0].1) % 2
    {
      LabelAt(g, track, r, c);
      LengthsOfMeaning(track, (r, c));
      PathParity(track, LengthsOf(track)[(r, c)]);
    }
  }

  /** Two cells of one colour two apart in a row or a column: their labels never differ by an odd number. */
  lemma {:induction false} GapEven(a: nat, b: nat, x: int, s: int, t: nat)
    requires (x + a) % 2 == s && (x + 2 + b) % 2 == s && t % 2 == 0
    ensures Abs(a - b) != t + 1
  {
  }

  /** On a chequered grid both ends of a window have the same colour, so their labels differ by an even number. */
  lemma {:induction false} ChequeredKeeps(l: Lengths, s: int, t: nat)
    requires Chequered(l, s) && t % 2 == 0
    requires forall r :: 0 <= r < |l| ==> |l[r]| == |l[0]|
    ensures Keeps(l, t + 1, t) && Keeps(l, t, t + 1)
  {
    forall r | 0 <= r < |l|
      ensures RowKeeps(l[r], t + 1, t) && RowKeeps(l[r], t, t + 1)
    {
      forall i | 0 <= i < |l[r]| - 2
        ensures Cheat(l[r][i], l[r][i + 1], l[r][i + 2], t) <==> Cheat(l[r][i], l[r][i + 1], l[r][i + 2], t + 1)
      {
        if l[r][i].Some? && l[r][i + 2].Some? {
          GapEven(l[r][i].value, l[r][i + 2].value, r + i, s, t);
        }
      }
    }
    forall r | 0 <= r < |l| - 2
      ensures ColKeeps(l[r], l[r + 1], l[r + 2], t + 1, t) && ColKeeps(l[r], l[r + 1], l[r + 2], t, t + 1)
    {
      forall i | 0 <= i < |l[r]| && i < |l[r + 1]| && i < |l[r + 2]|
        ensures Cheat(l[r][i], l[r + 1][i], l[r + 2][i], t) <==> Cheat(l[r][i], l[r + 1][i], l[r + 2][i], t + 1)
      {
        if l[r][i].Some? && l[r + 2][i].Some? {
          GapEven(l[r][i].value, l[r + 2][i].value, r + i, s, t);
        }
      }
    }
  }

  /**
   * A cheat through one wall cell saves the label gap less the two steps it takes. On a track the
   * gap is even, so for an even threshold `t` the source's test `gap > t` is the puzzle's
   * `saving >= t`, which is `gap > t + 1`: both thresholds count the same cheats.
   */
  lemma {:induction false} TrackCountsSavings(g: Grid, start: Pos, end: Pos, track: seq<Pos>, t: nat)
    requires Rect(g) && IsTrack(g, start, end, track) && t % 2 == 0
    ensures CheatCount(Labels(g, track), t) == CheatCount(Labels(g, track), t + 1)
  {
    var l := Labels(g, track);
    assert Chequered(l, (start.0 + start.1) % 2) by {
      TrackIsPath(g, start, end, track);
      PathChequered(g, track);
    }
    assert Keeps(l, t + 1, t) && Keeps(l, t, t + 1) by {
      ChequeredKeeps(l, (start.0 + start.1) % 2, t);
    }
    CheatCountLe(l, t, t + 1);
    CheatCountLe(l, t + 1, t);
  }

  /** The track from the last `S` reaches the last `E`, so the source's walk terminates. */
  ghost predicate HasTrack(g: Grid)
    requires Rect(g)
  {
    forall start, exit :: IsLast(g, Start, start) && IsLast(g, Exit, exit) ==> exists track :: IsTrack(g, start, exit, track)
  }

  /** `count` is the number of cheats above `threshold` on the track from the last `S` to the last `E`. */
  ghost predicate CountsCheats(g: Grid, threshold: nat, count: nat)
    requires Rect(g)
  {
    forall start, exit, track :: IsLast(g, Start, start) && IsLast(g, Exit, exit) && IsTrack(g, start, exit, track) ==>
      count == CheatCount(Labels(g, track), threshold)
  }

  lemma {:induction false} IsLastUnique(g: Grid, x: Cell, p: Pos, p': Pos)
    requires Rect(g) && IsLast(g, x, p) && IsLast(g, x, p')
    ensures p == p'
  {
    assert !Before(p, p') && !Before(p', p);
  }

  /**
   * `compute_part_1` on a parsed map: the cheats of the track from the last `S` to the last `E`
   * whose label gap exceeds `threshold`.
   */
  method ComputePart1(g: Grid, threshold: nat) returns (count: nat)
    requires Rect(g)
    requires exists p :: InGrid(g, p) && At(g, p) == Start
    requires exists p :: InGrid(g, p) && At(g, p) == Exit
    requires HasTrack(g)
    ensures CountsCheats(g, threshold, count)
  {
    var start, exit := FindStartAndExit(g);
    var lengths := ComputePathLengths(g, start, exit);
    count := CheatCount(Rows(lengths), threshold);
    forall start', exit', track | IsLast(g, Start, start') && IsLast(g, Exit, exit') && IsTrack(g, start', exit', track)
      ensures count == CheatCount(Labels(g, track), threshold)
    {
      IsLastUnique(g, Start, start, start');
      IsLastUnique(g, Exit, exit, exit');
    }
  }

  /** For an even threshold the source's count is also the count of cheats saving at least that much. */
  lemma {:induction false} CountsSavings(g: Grid, t: nat, count: nat)
    requires Rect(g) && t % 2 == 0 && CountsCheats(g, t, count)
    ensures CountsCheats(g, t + 1, count)
  {
    forall start, exit, track | IsLast(g, Start, start) && IsLast(g, Exit, exit) && IsTrack(g, start, exit, track)
      ensures count == CheatCount(Labels(g, track), t + 1)
    {
      TrackCountsSavings(g, start, exit, track, t);
    }
  }

  /**
   * `day_20_part_1`: the threshold is 100; since gaps are even, this counts the cheats saving at
   * least 100 steps, which is the answer the puzzle asks for.
   */
  method Part1(g: Grid) returns (count: nat)
    requires Rect(g)
    requires exists p :: InGrid(g, p) && At(g, p) == Start
    requires exists p :: InGrid(g, p) && At(g, p) == Exit
    requires HasTrack(g)
    ensures CountsCheats(g, Threshold, count) && CountsCheats(g, Threshold + 1, count)
  {
    count := ComputePart1(g, Threshold);
    CountsSavings(g, Threshold, count);
  }

  /** The threshold of `day_20_part_1`. */
  const Threshold: nat := 100

  /** `day_20_part_2` is a placeholder. */
  function Part2(g: Grid): int
  {
    42
  }
}
