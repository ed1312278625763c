/** Day 6: the guard's walk, turning right at every obstruction until it leaves the map. */
module Day06 {
  import opened Common

  datatype Space = Empty | Obstructed | Start | Visited

  datatype Direction = Up | Right | Down | Left

  /** `Direction::rotate`: a quarter turn clockwise. */
  function Rotate(d: Direction): (r: Direction)
    ensures r != d
  {
    match d
    case Up => Right
    case Right => Down
    case Down => Left
    case Left => Up
  }

  /** Four quarter turns give back the original direction, and no fewer do. */
  lemma RotateFourTimes(d: Direction)
    ensures Rotate(Rotate(Rotate(Rotate(d)))) == d
    ensures Rotate(Rotate(d)) != d && Rotate(Rotate(Rotate(d))) != d
  {
  }

  /** The step a direction stands for, as a (row, column) offset. */
  function Delta(d: Direction): (int, int)
  {
    match d
    case Up => (-1, 0)
    case Right => (0, 1)
    case Down => (1, 0)
    case Left => (0, -1)
  }

  /** `Direction::facing_position`: the neighbouring cell in that direction, if it is on the map. */
  function FacingPosition(d: Direction, row: nat, col: nat, nbRows: nat, nbCols: nat): (r: Option<(nat, nat)>)
    requires row < nbRows && col < nbCols
    ensures r.None? <==> !(0 <= row + Delta(d).0 < nbRows && 0 <= col + Delta(d).1 < nbCols)
    ensures r.Some? ==> r.value == (row + Delta(d).0, col + Delta(d).1)
  {
    match d
    case Up => if row == 0 then None else Some((row - 1, col))
    case Right => if col == nbCols - 1 then None else Some((row, col + 1))
    case Down => if row == nbRows - 1 then None else Some((row + 1, col))
    case Left => if col == 0 then None else Some((row, col - 1))
  }

  type Cells = seq<seq<Space>>

  predicate IsMap(g: Cells)
  {
    |g| >= 1 && |g[0]| >= 1 && forall r :: 0 <= r < |g| ==> |g[r]| == |g[0]|
  }

  /** Where the guard stands and which way it faces. */
  datatype Guard = Guard(row: nat, col: nat, dir: Direction)

  predicate OnMap(g: Cells, s: Guard)
    requires IsMap(g)
  {
    s.row < |g| && s.col < |g[0]|
  }

  /**
   * One iteration of the walk loop: none when the guard faces the edge; a quarter turn in place
   * when it faces an obstruction; otherwise one step forward.
   */
  function Move(g: Cells, s: Guard): (r: Option<Guard>)
    requires IsMap(g) && OnMap(g, s)
    ensures r.Some? ==> OnMap(g, r.value)
  {
    match FacingPosition(s.dir, s.row, s.col, |g|, |g[0]|)
    case None => None
    case Some((r, c)) =>
      if g[r][c] == Obstructed then Some(Guard(s.row, s.col, Rotate(s.dir)))
      else Some(Guard(r, c, s.dir))
  }

  /** Turning never moves the guard, and a step never lands on an obstruction. */
  lemma MoveMeaning(g: Cells, s: Guard)
    requires IsMap(g) && OnMap(g, s) && Move(g, s).Some?
    ensures var t := Move(g, s).value;
      || (t.row == s.row && t.col == s.col && t.dir == Rotate(s.dir)
          && g[s.row + Delta(s.dir).0][s.col + Delta(s.dir).1] == Obstructed)
      || (t == Guard(s.row + Delta(s.dir).0, s.col + Delta(s.dir).1, s.dir) && g[t.row][t.col] != Obstructed)
  {
  }

  /** The guard after `n` iterations, or none if it has left the map by then. */
  function Walk(g: Cells, s: Guard, n: nat): (r: Option<Guard>)
    requires IsMap(g) && OnMap(g, s)
    ensures r.Some? ==> OnMap(g, r.value)
  {
    if n == 0 then Some(s)
    else match Walk(g, s, n - 1)
      case None => None
      case Some(t) => Move(g, t)
  }

  /** The cells the guard has stood on during the first `n` iterations. */
  function Trail(g: Cells, s: Guard, n: nat): (cells: set<(nat, nat)>)
    requires IsMap(g) && OnMap(g, s) && Walk(g, s, n).Some?
    ensures (s.row, s.col) in cells
    ensures (Walk(g, s, n).value.row, Walk(g, s, n).value.col) in cells
  {
    if n == 0 then {(s.row, s.col)}
    else
      var t := Walk(g, s, n).value;
      Trail(g, s, n - 1) + {(t.row, t.col)}
  }

  /** Every cell of `trail` is on the map and not obstructed. */
  ghost predicate AvoidsObstructions(g: Cells, trail: set<(nat, nat)>)
    requires IsMap(g)
  {
    forall cell :: cell in trail ==> cell.0 < |g| && cell.1 < |g[0]| && g[cell.0][cell.1] != Obstructed
  }

  /** The guard only ever stands on cells that are not obstructed, given that it starts on one. */
  lemma {:induction false} TrailAvoidsObstructions(g: Cells, s: Guard, n: nat)
    requires IsMap(g) && OnMap(g, s) && Walk(g, s, n).Some?
    requires g[s.row][s.col] != Obstructed
    ensures AvoidsObstructions(g, Trail(g, s, n))
  {
    if n > 0 {
      TrailAvoidsObstructions(g, s, n - 1);
      MoveMeaning(g, Walk(g, s, n - 1).value);
    }
  }

  /** One more iteration extends the walk by one move and the trail by the cell moved to. */
  lemma WalkStep(g: Cells, s: Guard, n: nat)
    requires IsMap(g) && OnMap(g, s) && Walk(g, s, n).Some? && Move(g, Walk(g, s, n).value).Some?
    ensures Walk(g, s, n + 1) == Move(g, Walk(g, s, n).value)
    ensures var t := Walk(g, s, n + 1).value; Trail(g, s, n + 1) == Trail(g, s, n) + {(t.row, t.col)}
  {
  }

  /** The contents of the map, row by row. */
  ghost function Contents(m: array2<Space>): (g: Cells)
    reads m
    ensures |g| == m.Length0 && forall r :: 0 <= r < |g| ==> |g[r]| == m.Length1
  {
    seq(m.Length0, r requires 0 <= r < m.Length0 reads m => seq(m.Length1, c requires 0 <= c < m.Length1 reads m => m[r, c]))
  }

  /** The number of Visited cells in rows `0..r` of the map. */
  function VisitedCount(g: Cells, r: nat): nat
    requires r <= |g|
  {
    if r == 0 then 0 else VisitedCount(g, r - 1) + Count(g[r - 1], Visited)
  }

  /** Each row contributes at most its width. */
  lemma {:induction false} VisitedCountAtMost(g: Cells, r: nat, width: nat)
    requires r <= |g| && forall i :: 0 <= i < |g| ==> |g[i]| == width
    ensures VisitedCount(g, r) <= r * width
  {
    if r > 0 {
      VisitedCountAtMost(g, r - 1, width);
    }
  }

  /** One Visited cell in the rows counted makes the count positive. */
  lemma {:induction false} VisitedCountPositive(g: Cells, r: nat, row: nat, col: nat)
    requires row < r <= |g| && col < |g[row]| && g[row][col] == Visited
    ensures VisitedCount(g, r) >= 1
  {
    if row < r - 1 {
      VisitedCountPositive(g, r - 1, row, col);
    } else {
      CountIsMultiplicity(g[row], Visited);
    }
  }

  /** The final `filter(..).count()` over the map. */
  method CountVisited(m: array2<Space>) returns (n: nat)
    ensures n == VisitedCount(Contents(m), m.Length0)
  {
    n := 0;
    for r := 0 to m.Length0
      invariant n == VisitedCount(Contents(m), r)
    {
      var inRow := 0;
      for c := 0 to m.Length1
        invariant inRow == Count(Contents(m)[r][..c], Visited)
      {
        assert Contents(m)[r][..c + 1] == Contents(m)[r][..c] + [m[r, c]];
        CountAppend(Contents(m)[r][..c], [m[r, c]], Visited);
        if m[r, c] == Visited {
          inRow := inRow + 1;
        }
      }
      assert Contents(m)[r][..m.Length1] == Contents(m)[r];
      n := n + inRow;
    }
  }

  /** `indexed_iter().find(...)`: the first Start cell in row-major order. */
  method FindStart(m: array2<Space>) returns (row: nat, col: nat)
    requires exists r, c :: 0 <= r < m.Length0 && 0 <= c < m.Length1 && m[r, c] == Start
    ensures row < m.Length0 && col < m.Length1 && m[row, col] == Start
    ensures forall r, c :: 0 <= r < m.Length0 && 0 <= c < m.Length1 && (r < row || (r == row && c < col)) ==> m[r, c] != Start
  {
    for r := 0 to m.Length0
      invariant forall r', c :: 0 <= r' < r && 0 <= c < m.Length1 ==> m[r', c] != Start
    {
      for c := 0 to m.Length1
        invariant forall c' :: 0 <= c' < c ==> m[r, c'] != Start
      {
        if m[r, c] == Start {
          return r, c;
        }
      }
    }
    assert false;
  }

  /** The parsed map: no cell is marked Visited yet. */
  predicate Unvisited(g: Cells)
  {
    forall r, c :: 0 <= r < |g| && 0 <= c < |g[r]| ==> g[r][c] != Visited
  }

  /**
   * Part 1's walk, with a bound of `fuel` loop iterations standing in for a walk that may never
   * end. When the guard leaves the map within the bound, the Visited cells are exactly the cells
   * of its trail, every other cell is as parsed, and the result counts the Visited cells.
   */
  method GuardWalk(m: array2<Space>, fuel: nat, ghost g: Cells)
    returns (outcome: Option<nat>, start: Guard, steps: nat, guard: Guard,
             ghost trail: set<(nat, nat)>)
    modifies m
    requires Fits(m, g) && Parsed(m, g)
    ensures start.dir == Up && Tracks(m, g, start, steps, guard, trail)
    ensures outcome.Some? ==> Move(g, guard).None?
    ensures outcome.Some? ==> outcome.value == VisitedCount(Contents(m), m.Length0)
    ensures outcome.None? ==> steps == fuel
    ensures outcome.Some? ==> 1 <= outcome.value <= m.Length0 * m.Length1
    ensures forall r, c :: 0 <= r < m.Length0 && 0 <= c < m.Length1 && g[r][c] == Obstructed ==> m[r, c] == Obstructed
  {
    var row, col := Begin(m, g);
    start := Guard(row, col, Up);
    steps := 0;
    guard := start;
    trail := {(row, col)};
    outcome := None;
    while steps < fuel
      invariant steps <= fuel
      invariant Tracks(m, g, start, steps, guard, trail)
    {
      var moved, next := Iterate(m, guard, g, start, steps, trail);
      if !moved {
        var count := CountVisited(m);
        outcome := Some(count);
        Settled(m, g, start, steps, guard, trail);
        return;
      }
      steps := steps + 1;
      trail := trail + {(next.row, next.col)};
      guard := next;
    }
    Settled(m, g, start, steps, guard, trail);
  }

  /** Obstructions are never marked, and the start cell is, so between one and all cells are Visited. */
  lemma Settled(m: array2<Space>, g: Cells, start: Guard, steps: nat, guard: Guard, trail: set<(nat, nat)>)
    requires Fits(m, g) && Tracks(m, g, start, steps, guard, trail)
    ensures forall r, c :: 0 <= r < m.Length0 && 0 <= c < m.Length1 && g[r][c] == Obstructed ==> m[r, c] == Obstructed
    ensures 1 <= VisitedCount(Contents(m), m.Length0) <= m.Length0 * m.Length1
  {
    TrailAvoidsObstructions(g, start, steps);
    VisitedCountAtMost(Contents(m), m.Length0, m.Length1);
    VisitedCountPositive(Contents(m), m.Length0, start.row, start.col);
  }

  /**
   * The loop's invariant: after `steps` iterations from `start` the guard is at `guard`, and the
   * map marks exactly `trail`, the cells it has stood on.
   */
  ghost predicate Tracks(m: array2<Space>, g: Cells, start: Guard, steps: nat, guard: Guard,
                         trail: set<(nat, nat)>)
    reads m
    requires Fits(m, g)
  {
    && OnMap(g, start) && g[start.row][start.col] == Start
    && Walk(g, start, steps) == Some(guard)
    && trail == Trail(g, start, steps)
    && MarksTrail(m, g, trail)
  }

  /**
   * One iteration of the walk loop: `moved` is false, and nothing changes, when the guard faces
   * the edge of the map; otherwise the guard turns or steps and the walk goes one iteration on.
   */
  method Iterate(m: array2<Space>, guard: Guard,
                 ghost g: Cells, ghost start: Guard, ghost steps: nat, ghost trail: set<(nat, nat)>)
    returns (moved: bool, next: Guard)
    modifies m
    requires Fits(m, g)
    requires Tracks(m, g, start, steps, guard, trail)
    ensures !moved <==> Move(g, guard).None?
    ensures !moved ==> unchanged(m)
    ensures moved ==> Tracks(m, g, start, steps + 1, next, trail + {(next.row, next.col)})
  {
    var facing := FacingPosition(guard.dir, guard.row, guard.col, m.Length0, m.Length1);
    if facing.None? {
      moved, next := false, guard;
    } else {
      TrailAvoidsObstructions(g, start, steps);
      var row, col, direction := Advance(m, guard.row, guard.col, guard.dir, g, trail);
      WalkStep(g, start, steps);
      moved, next := true, Guard(row, col, direction);
    }
  }

  /** `g` has the dimensions of the map `m`. */
  predicate Fits(m: array2<Space>, g: Cells)
  {
    IsMap(g) && |g| == m.Length0 && |g[0]| == m.Length1
  }

  /** The map as parsed: it shows `g`, no cell is Visited yet, and some cell is the start. */
  ghost predicate Parsed(m: array2<Space>, g: Cells)
    reads m
    requires Fits(m, g)
  {
    && Unvisited(g)
    && (forall r, c :: 0 <= r < m.Length0 && 0 <= c < m.Length1 ==> m[r, c] == g[r][c])
    && exists r, c :: 0 <= r < m.Length0 && 0 <= c < m.Length1 && m[r, c] == Start
  }

  /** Find the start cell and mark it: the state of the walk before its first iteration. */
  method Begin(m: array2<Space>, ghost g: Cells) returns (row: nat, col: nat)
    modifies m
    requires Fits(m, g) && Parsed(m, g)
    ensures var start := Guard(row, col, Up); Tracks(m, g, start, 0, start, {(row, col)})
  {
    row, col := FindStart(m);
    MarkStart(m, g, row, col);
  }

  /** `map[start] = Visited`: the trail of zero iterations is the start cell alone. */
  method MarkStart(m: array2<Space>, ghost g: Cells, row: nat, col: nat)
    modifies m
    requires Fits(m, g)
    requires row < m.Length0 && col < m.Length1 && Unvisited(g)
    requires forall r, c :: 0 <= r < m.Length0 && 0 <= c < m.Length1 ==> m[r, c] == g[r][c]
    ensures MarksTrail(m, g, {(row, col)})
  {
    m[row, col] := Visited;
  }

  /** The map agrees with the parsed map except that the cells of `trail` are marked Visited. */
  ghost predicate MarksTrail(m: array2<Space>, g: Cells, trail: set<(nat, nat)>)
    reads m
    requires Fits(m, g)
  {
    forall r, c :: 0 <= r < m.Length0 && 0 <= c < m.Length1 ==>
      (m[r, c] == Visited <==> (r, c) in trail) && (m[r, c] != Visited ==> m[r, c] == g[r][c])
  }

  /** The body of the walk loop when the guard faces a cell of the map: turn, or step and mark. */
  method Advance(m: array2<Space>, row: nat, col: nat, direction: Direction,
                 ghost g: Cells, ghost trail: set<(nat, nat)>)
    returns (row': nat, col': nat, direction': Direction)
    modifies m
    requires Fits(m, g)
    requires OnMap(g, Guard(row, col, direction)) && Move(g, Guard(row, col, direction)).Some?
    requires MarksTrail(m, g, trail) && AvoidsObstructions(g, trail) && (row, col) in trail
    ensures Move(g, Guard(row, col, direction)) == Some(Guard(row', col', direction'))
    ensures MarksTrail(m, g, trail + {(row', col')})
  {
    var next := FacingPosition(direction, row, col, m.Length0, m.Length1);
    var (nextRow, nextCol) := next.value;
    if m[nextRow, nextCol] == Obstructed {
      row', col', direction' := row, col, Rotate(direction);
    } else {
      row', col', direction' := nextRow, nextCol, direction;
      m[row', col'] := Visited;
    }
  }

}
