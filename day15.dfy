/**
 * Day 15: a robot walks in a warehouse and pushes lines of boxes. The map is a grid updated in
 * place: a push swaps cells, recursively along the line of boxes, and fails on a wall or the
 * edge. The answer is the sum of `100 * row + col` over the boxes at the end.
 */
module Day15 {
  import opened Common

  datatype Direction = Up | Down | Left | Right
  datatype Cell = Empty | Box | Wall | Robot

  type Pos = (int, int)
  /** A snapshot of the map, row by row. */
  type Grid = seq<seq<Cell>>

  function Cols(g: Grid): nat
  {
    if g == [] then 0 else |g[0]|
  }

  predicate Rect(g: Grid)
  {
    forall r :: 0 <= r < |g| ==> |g[r]| == Cols(g)
  }

  predicate InGrid(g: Grid, p: Pos)
  {
    0 <= p.0 < |g| && 0 <= p.1 < Cols(g)
  }

  function At(g: Grid, p: Pos): Cell
    requires Rect(g) && InGrid(g, p)
  {
    g[p.0][p.1]
  }

  /** The grid with cell `p` replaced by `x`. */
  function Set(g: Grid, p: Pos, x: Cell): (h: Grid)
    requires Rect(g) && InGrid(g, p)
    ensures Rect(h) && |h| == |g| && Cols(h) == Cols(g)
    ensures forall q :: InGrid(g, q) ==> At(h, q) == if q == p then x else At(g, q)
  {
    g[p.0 := g[p.0][p.1 := x]]
  }

  /** Two grids of the same shape with the same cells are equal. */
  lemma GridEq(g: Grid, h: Grid)
    requires Rect(g) && Rect(h) && |g| == |h| && Cols(g) == Cols(h)
    requires forall q :: InGrid(g, q) ==> At(g, q) == At(h, q)
    ensures g == h
  {
    forall r | 0 <= r < |g|
      ensures g[r] == h[r]
    {
      forall c | 0 <= c < |g[r]|
        ensures g[r][c] == h[r][c]
      {
        assert At(g, (r, c)) == At(h, (r, c));
      }
    }
  }

  /** The neighbour in direction `d`, or nothing at the edge of the map. */
  function Next(g: Grid, p: Pos, d: Direction): (q: Option<Pos>)
    requires InGrid(g, p)
    ensures q.Some? ==> InGrid(g, q.value) && Room(g, q.value, d) + 1 == Room(g, p, d)
    ensures q.None? <==> Room(g, p, d) == 0
  {
    match d
    case Up => if p.0 == 0 then None else Some((p.0 - 1, p.1))
    case Down => if p.0 == |g| - 1 then None else Some((p.0 + 1, p.1))
    case Left => if p.1 == 0 then None else Some((p.0, p.1 - 1))
    case Right => if p.1 == Cols(g) - 1 then None else Some((p.0, p.1 + 1))
  }

  /** How many cells lie beyond `p` in direction `d`. */
  function Room(g: Grid, p: Pos, d: Direction): int
  {
    match d
    case Up => p.0
    case Down => |g| - 1 - p.0
    case Left => p.1
    case Right => Cols(g) - 1 - p.1
  }

  /** The first cell beyond `p` in direction `d` that does not hold a box, if the map has one. */
  function ChainEnd(g: Grid, p: Pos, d: Direction): (e: Option<Pos>)
    requires Rect(g) && InGrid(g, p)
    ensures e.Some? ==> InGrid(g, e.value) && At(g, e.value) != Box && Room(g, e.value, d) < Room(g, p, d)
    decreases Room(g, p, d)
  {
    match Next(g, p, d)
    case None => None
    case Some(q) => if At(g, q) == Box then ChainEnd(g, q, d) else Some(q)
  }

  /** The push does not end on a robot cell, where `attempt_push` panics. */
  predicate NoRobotAhead(g: Grid, p: Pos, d: Direction)
    requires Rect(g) && InGrid(g, p)
  {
    ChainEnd(g, p, d).Some? ==> At(g, ChainEnd(g, p, d).value) != Robot
  }

  /**
   * What pushing from `p` towards `d` does, stated on the whole line at once: it fails on a wall
   * or at the edge and changes nothing; otherwise the line ends on an empty cell, the first box of
   * the line moves to that end, `p`'s content moves one cell on and `p` becomes empty.
   */
  function Push(g: Grid, p: Pos, d: Direction): (r: (bool, Pos, Grid))
    requires Rect(g) && InGrid(g, p) && NoRobotAhead(g, p, d)
    ensures Rect(r.2) && |r.2| == |g| && Cols(r.2) == Cols(g)
  {
    match ChainEnd(g, p, d)
    case None => (false, p, g)
    case Some(e) =>
      if At(g, e) == Wall then (false, p, g)
      else
        var q := Next(g, p, d).value;
        (true, q, Set(Set(Set(g, e, Box), q, At(g, p)), p, Empty))
  }

  /** `map.swap(a, b)` on a snapshot. */
  function Swap(g: Grid, a: Pos, b: Pos): (h: Grid)
    requires Rect(g) && InGrid(g, a) && InGrid(g, b)
    ensures Rect(h) && |h| == |g| && Cols(h) == Cols(g)
  {
    Set(Set(g, a, At(g, b)), b, At(g, a))
  }

  /** A push that does not move changes nothing; a push that moves goes one cell towards `d`. */
  lemma PushResult(g: Grid, p: Pos, d: Direction)
    requires Rect(g) && InGrid(g, p) && NoRobotAhead(g, p, d)
    ensures !Push(g, p, d).0 ==> Push(g, p, d).1 == p && Push(g, p, d).2 == g
    ensures Push(g, p, d).0 <==> ChainEnd(g, p, d).Some? && At(g, ChainEnd(g, p, d).value) == Empty
    ensures Push(g, p, d).0 ==>
      && Next(g, p, d) == Some(Push(g, p, d).1)
      && At(Push(g, p, d).2, p) == Empty && At(Push(g, p, d).2, Push(g, p, d).1) == At(g, p)
  {
    if ChainEnd(g, p, d).Some? {
      var e := ChainEnd(g, p, d).value;
      assert At(g, e) != Box && At(g, e) != Robot;
    }
  }

  /** Walls stay where they are. */
  lemma PushKeepsWalls(g: Grid, p: Pos, d: Direction)
    requires Rect(g) && InGrid(g, p) && NoRobotAhead(g, p, d) && At(g, p) != Wall
    ensures forall q :: InGrid(g, q) ==> (At(Push(g, p, d).2, q) == Wall <==> At(g, q) == Wall)
  {
    if Push(g, p, d).0 {
      var e := ChainEnd(g, p, d).value;
      var q := Next(g, p, d).value;
      assert At(g, q) == Box || q == e by {
        if At(g, q) != Box {
          assert ChainEnd(g, p, d) == Some(q);
        }
      }
    }
  }

  function Boxes(g: Grid): set<Pos>
  {
    set r, c | 0 <= r < |g| && 0 <= c < |g[r]| && g[r][c] == Box :: (r, c)
  }

  lemma BoxesMeaning(g: Grid, q: Pos)
    requires Rect(g)
    ensures q in Boxes(g) <==> InGrid(g, q) && At(g, q) == Box
  {
  }

  /** One box leaving cell `x` for cell `y` keeps the number of boxes. */
  lemma BoxesMoveOne(g: Grid, h: Grid, x: Pos, y: Pos)
    requires Rect(g) && Rect(h) && |g| == |h| && Cols(g) == Cols(h) && InGrid(g, x) && InGrid(g, y)
    requires At(g, x) == Box && At(g, y) != Box && At(h, x) != Box && At(h, y) == Box
    requires forall q :: InGrid(g, q) && q != x && q != y ==> (At(h, q) == Box <==> At(g, q) == Box)
    ensures |Boxes(h)| == |Boxes(g)|
  {
    forall q
      ensures q in Boxes(h) <==> q in Boxes(g) - {x} + {y}
    {
      BoxesMeaning(g, q);
      BoxesMeaning(h, q);
    }
    assert Boxes(h) == Boxes(g) - {x} + {y};
    BoxesMeaning(g, x);
    BoxesMeaning(g, y);
  }

  lemma BoxesSame(g: Grid, h: Grid)
    requires Rect(g) && Rect(h) && |g| == |h| && Cols(g) == Cols(h)
    requires forall q :: InGrid(g, q) ==> (At(h, q) == Box <==> At(g, q) == Box)
    ensures Boxes(h) == Boxes(g)
  {
    forall q
      ensures q in Boxes(h) <==> q in Boxes(g)
    {
      BoxesMeaning(g, q);
      BoxesMeaning(h, q);
    }
  }

  /** A push from an empty cell or a box keeps the number of boxes. */
  lemma PushKeepsBoxes(g: Grid, p: Pos, d: Direction)
    requires Rect(g) && InGrid(g, p) && NoRobotAhead(g, p, d) && (At(g, p) == Empty || At(g, p) == Box)
    ensures |Boxes(Push(g, p, d).2)| == |Boxes(g)|
  {
    var h := Push(g, p, d).2;
    if Push(g, p, d).0 {
      var e := ChainEnd(g, p, d).value;
      var q := Next(g, p, d).value;
      assert q != p && e != p;
      if At(g, q) != Box {
        assert ChainEnd(g, p, d) == Some(q);
        if At(g, p) == Box {
          BoxesMoveOne(g, h, p, q);
        } else {
          BoxesSame(g, h);
        }
      } else {
        assert e != q;
        if At(g, p) == Box {
          BoxesMoveOne(g, h, p, e);
        } else {
          BoxesMoveOne(g, h, q, e);
        }
      }
    }
  }

  ghost predicate NoRobot(g: Grid)
    requires Rect(g)
  {
    forall q :: InGrid(g, q) ==> At(g, q) != Robot
  }

  /** A push never creates a robot cell. */
  lemma PushKeepsNoRobot(g: Grid, p: Pos, d: Direction)
    requires Rect(g) && InGrid(g, p) && NoRobot(g)
    ensures NoRobotAhead(g, p, d) && NoRobot(Push(g, p, d).2)
  {
  }

  /** Cell by cell, a push that moves empties `p`, moves its content on, and leaves a box at the end. */
  lemma PushCells(g: Grid, p: Pos, d: Direction)
    requires Rect(g) && InGrid(g, p) && NoRobotAhead(g, p, d) && Push(g, p, d).0
    ensures var e, q := ChainEnd(g, p, d).value, Next(g, p, d).value;
      && (At(g, q) == Box || q == e) && e != p && q != p
      && forall x :: InGrid(g, x) ==>
        At(Push(g, p, d).2, x) == if x == p then Empty else if x == q then At(g, p) else if x == e then Box else At(g, x)
  {
    var e, q := ChainEnd(g, p, d).value, Next(g, p, d).value;
    if At(g, q) != Box {
      assert ChainEnd(g, p, d) == Some(q);
    }
  }

  /** Cell by cell, `Swap` exchanges `a` and `b`. */
  lemma SwapCellsAt(g: Grid, a: Pos, b: Pos)
    requires Rect(g) && InGrid(g, a) && InGrid(g, b)
    ensures forall x :: InGrid(g, x) ==>
      At(Swap(g, a, b), x) == if x == a then At(g, b) else if x == b then At(g, a) else At(g, x)
  {
  }

  /**
   * Pushing from `p` where the next cell holds a box is pushing that box, then swapping `p` with
   * the cell the box left: the recursion of `attempt_push`.
   */
  lemma PushStep(g: Grid, p: Pos, d: Direction)
    requires Rect(g) && InGrid(g, p) && NoRobotAhead(g, p, d)
    requires Next(g, p, d).Some? && At(g, Next(g, p, d).value) == Box
    ensures var q := Next(g, p, d).value;
      && NoRobotAhead(g, q, d)
      && Push(g, q, d).0 == Push(g, p, d).0
      && (Push(g, p, d).0 ==> Swap(Push(g, q, d).2, p, q) == Push(g, p, d).2)
  {
    var q := Next(g, p, d).value;
    assert ChainEnd(g, p, d) == ChainEnd(g, q, d);
    if Push(g, p, d).0 {
      var e := ChainEnd(g, p, d).value;
      var q2 := Next(g, q, d).value;
      PushCells(g, p, d);
      PushCells(g, q, d);
      assert Room(g, q2, d) + 2 == Room(g, p, d);
      assert q2 != p && q2 != q;
      ShiftLine(g, Push(g, q, d).2, Push(g, p, d).2, p, q, q2, e);
    }
  }

  /** The cell-level step of `PushStep`: swapping `p` with the emptied `q` gives the longer push. */
  lemma ShiftLine(g: Grid, h: Grid, k: Grid, p: Pos, q: Pos, q2: Pos, e: Pos)
    requires Rect(g) && Rect(h) && Rect(k) && |h| == |g| == |k| && Cols(h) == Cols(g) == Cols(k)
    requires InGrid(g, p) && InGrid(g, q) && InGrid(g, q2) && InGrid(g, e)
    requires p != q && p != e && q != e && q2 != p && q2 != q && At(g, q) == Box
    requires At(g, q2) == Box || q2 == e
    requires forall x :: InGrid(g, x) ==>
      At(h, x) == if x == q then Empty else if x == q2 then Box else if x == e then Box else At(g, x)
    requires forall x :: InGrid(g, x) ==>
      At(k, x) == if x == p then Empty else if x == q then At(g, p) else if x == e then Box else At(g, x)
    ensures Swap(h, p, q) == k
  {
    SwapCellsAt(h, p, q);
    GridEq(Swap(h, p, q), k);
  }

  /** Pushing into an empty neighbour swaps the two cells. */
  lemma PushIntoEmpty(g: Grid, p: Pos, d: Direction)
    requires Rect(g) && InGrid(g, p) && NoRobotAhead(g, p, d)
    requires Next(g, p, d).Some? && At(g, Next(g, p, d).value) == Empty
    ensures Push(g, p, d) == (true, Next(g, p, d).value, Swap(g, p, Next(g, p, d).value))
  {
    var q := Next(g, p, d).value;
    assert ChainEnd(g, p, d) == Some(q);
    PushCells(g, p, d);
    SwapCellsAt(g, p, q);
    GridEq(Swap(g, p, q), Push(g, p, d).2);
  }

  /** The map after the robot at `robot` follows `dirs`, and where the robot ends. */
  function Run(g: Grid, robot: Pos, dirs: seq<Direction>): (r: (Grid, Pos))
    requires Rect(g) && InGrid(g, robot) && NoRobot(g)
    ensures Rect(r.0) && |r.0| == |g| && Cols(r.0) == Cols(g) && InGrid(r.0, r.1) && NoRobot(r.0)
    decreases |dirs|
  {
    if dirs == [] then (g, robot)
    else
      PushKeepsNoRobot(g, robot, dirs[0]);
      var (moved, next, h) := Push(g, robot, dirs[0]);
      Run(h, if moved then next else robot, dirs[1..])
  }

  /** Boxes and walls are never created or destroyed, whatever the moves. */
  lemma {:induction false} RunKeepsBoxesAndWalls(g: Grid, robot: Pos, dirs: seq<Direction>)
    requires Rect(g) && InGrid(g, robot) && NoRobot(g) && At(g, robot) == Empty
    ensures |Boxes(Run(g, robot, dirs).0)| == |Boxes(g)|
    ensures forall q :: InGrid(g, q) ==> (At(Run(g, robot, dirs).0, q) == Wall <==> At(g, q) == Wall)
    decreases |dirs|
  {
    if dirs != [] {
      PushKeepsNoRobot(g, robot, dirs[0]);
      PushKeepsBoxes(g, robot, dirs[0]);
      PushKeepsWalls(g, robot, dirs[0]);
      PushResult(g, robot, dirs[0]);
      var (moved, next, h) := Push(g, robot, dirs[0]);
      RunKeepsBoxesAndWalls(h, if moved then next else robot, dirs[1..]);
    }
  }

  /** The sum of `100 * r + c` over the boxes of cells `0 .. c - 1` of row `r`. */
  function RowGps(row: seq<Cell>, r: int, c: nat): int
    requires c <= |row|
  {
    if c == 0 then 0 else RowGps(row, r, c - 1) + if row[c - 1] == Box then 100 * r + (c - 1) else 0
  }

  /** The GPS sum of the first `r` rows. */
  function Gps(g: Grid, r: nat): int
    requires r <= |g|
  {
    if r == 0 then 0 else Gps(g, r - 1) + RowGps(g[r - 1], r - 1, |g[r - 1]|)
  }

  /** The GPS sum only depends on where the boxes are. */
  lemma {:induction false} GpsOfBoxes(g: Grid, h: Grid, r: nat)
    requires Rect(g) && Rect(h) && |g| == |h| && Cols(g) == Cols(h) && r <= |g| && Boxes(g) == Boxes(h)
    ensures Gps(g, r) == Gps(h, r)
  {
    if r > 0 {
      GpsOfBoxes(g, h, r - 1);
      RowGpsOfBoxes(g, h, r - 1, Cols(g));
    }
  }

  lemma {:induction false} RowGpsOfBoxes(g: Grid, h: Grid, r: nat, c: nat)
    requires Rect(g) && Rect(h) && |g| == |h| && Cols(g) == Cols(h) && r < |g| && c <= Cols(g)
    requires Boxes(g) == Boxes(h)
    ensures RowGps(g[r], r, c) == RowGps(h[r], r, c)
  {
    if c > 0 {
      RowGpsOfBoxes(g, h, r, c - 1);
      BoxesMeaning(g, (r, c - 1));
      BoxesMeaning(h, (r, c - 1));
    }
  }

  /** The map as a grid snapshot, row by row. */
  function Contents(m: array2<Cell>): (g: Grid)
    reads m
    ensures Rect(g) && |g| == m.Length0 && (m.Length0 > 0 ==> Cols(g) == m.Length1)
    ensures forall r, c :: 0 <= r < m.Length0 && 0 <= c < m.Length1 ==> g[r][c] == m[r, c]
  {
    seq(m.Length0, r reads m requires 0 <= r < m.Length0 => seq(m.Length1, c reads m requires 0 <= c < m.Length1 => m[r, c]))
  }

  /** `map.swap(a, b)`. */
  method SwapCells(m: array2<Cell>, a: Pos, b: Pos)
    requires InGrid(Contents(m), a) && InGrid(Contents(m), b)
    modifies m
    ensures Contents(m) == Swap(old(Contents(m)), a, b)
  {
    ghost var g := Contents(m);
    var x, y := m[a.0, a.1], m[b.0, b.1];
    m[a.0, a.1] := y;
    m[b.0, b.1] := x;
    GridEq(Contents(m), Swap(g, a, b));
  }

  /**
   * `attempt_push`: move the content of `position` one cell towards `direction`, first pushing
   * the box there, if any, recursively; report whether it moved and where it is.
   */
  method AttemptPush(m: array2<Cell>, position: Pos, direction: Direction) returns (moved: bool, newPosition: Pos)
    requires InGrid(Contents(m), position) && NoRobotAhead(Contents(m), position, direction)
    modifies m
    ensures (moved, newPosition, Contents(m)) == Push(old(Contents(m)), position, direction)
    decreases Room(Contents(m), position, direction)
  {
    ghost var g := Contents(m);
    var (row, col) := position;
    var ncols, nrows := m.Length1, m.Length0;
    var next: Pos;
    match direction {
      case Up =>
        if row == 0 {
          return false, (row, col);
        }
        next := (row - 1, col);
      case Down =>
        if row == nrows - 1 {
          return false, (row, col);
        }
        next := (row + 1, col);
      case Left =>
        if col == 0 {
          return false, (row, col);
        }
        next := (row, col - 1);
      case Right =>
        if col == ncols - 1 {
          return false, (row, col);
        }
        next := (row, col + 1);
    }
    assert Next(g, position, direction) == Some(next);
    var cell := m[next.0, next.1];
    match cell {
      case Wall =>
        return false, (row, col);
      case Robot =>
        assert false;
      case Empty =>
        PushIntoEmpty(g, position, direction);
        SwapCells(m, position, next);
        return true, next;
      case Box =>
        PushStep(g, position, direction);
        var pushed, _ := AttemptPush(m, next, direction);
        if pushed {
          SwapCells(m, position, next);
          return true, next;
        }
        return false, (row, col);
    }
  }

  /** Row-major order, the order of `indexed_iter`. */
  predicate Before(a: Pos, b: Pos)
  {
    a.0 < b.0 || (a.0 == b.0 && a.1 < b.1)
  }

  /** The `indexed_iter().find_map(..)` of `day_15_part_1`: the first robot cell in row-major order. */
  method FindRobot(m: array2<Cell>) returns (position: Pos)
    requires exists p :: InGrid(Contents(m), p) && At(Contents(m), p) == Robot
    ensures InGrid(Contents(m), position) && At(Contents(m), position) == Robot
    ensures forall p :: InGrid(Contents(m), p) && Before(p, position) ==> At(Contents(m), p) != Robot
  {
    ghost var g := Contents(m);
    ghost var target :| InGrid(g, target) && At(g, target) == Robot;
    var row, col := 0, 0;
    while m[row, col] != Robot
      invariant InGrid(g, (row, col)) && !Before(target, (row, col))
      invariant forall p :: InGrid(g, p) && Before(p, (row, col)) ==> At(g, p) != Robot
      decreases m.Length0 - row, m.Length1 - col
    {
      col := col + 1;
      if col == m.Length1 {
        row, col := row + 1, 0;
      }
    }
    position := (row, col);
  }

  /** The final `filter(..).map(100 * row + col).sum()` of `day_15_part_1`. */
  method SumGps(m: array2<Cell>) returns (total: int)
    ensures total == Gps(Contents(m), m.Length0)
  {
    ghost var g := Contents(m);
    total := 0;
    for r := 0 to m.Length0
      invariant total == Gps(g, r)
    {
      for c := 0 to m.Length1
        invariant total == Gps(g, r) + RowGps(g[r], r, c)
      {
        if m[r, c] == Box {
          total := total + 100 * r + c;
        }
      }
    }
  }

  /** At most one cell holds the robot. */
  ghost predicate OneRobot(g: Grid)
    requires Rect(g)
  {
    forall p, q :: InGrid(g, p) && InGrid(g, q) && At(g, p) == Robot && At(g, q) == Robot ==> p == q
  }

  /** A single robot: it is the first one, and clearing it leaves a map without robots. */
  lemma ClearRobot(g: Grid, robot: Pos)
    requires Rect(g) && InGrid(g, robot) && At(g, robot) == Robot && OneRobot(g)
    ensures NoRobot(Set(g, robot, Empty))
  {
  }

  /**
   * `day_15_part_1` on a map with one robot: the robot's cell is cleared, the robot follows every
   * direction, and the result is the GPS sum of the final map.
   */
  method Part1(m: array2<Cell>, directions: seq<Direction>) returns (gps: int)
    requires exists p :: InGrid(Contents(m), p) && At(Contents(m), p) == Robot
    requires OneRobot(Contents(m))
    modifies m
    ensures exists robot ::
      && InGrid(old(Contents(m)), robot) && At(old(Contents(m)), robot) == Robot
      && NoRobot(Set(old(Contents(m)), robot, Empty))
      && Contents(m) == Run(Set(old(Contents(m)), robot, Empty), robot, directions).0
    ensures gps == Gps(Contents(m), m.Length0)
  {
    ghost var g0 := Contents(m);
    var robot := FindRobot(m);
    ghost var r0 := robot;
    m[robot.0, robot.1] := Empty;
    ghost var start := Set(g0, robot, Empty);
    GridEq(Contents(m), start);
    ClearRobot(g0, robot);
    for i := 0 to |directions|
      invariant InGrid(Contents(m), robot) && NoRobot(Contents(m))
      invariant Run(Contents(m), robot, directions[i..]) == Run(start, r0, directions)
    {
      PushKeepsNoRobot(Contents(m), robot, directions[i]);
      var moved, newPosition := AttemptPush(m, robot, directions[i]);
      if moved {
        robot := newPosition;
      }
      assert directions[i..][1..] == directions[i + 1..];
    }
    gps := SumGps(m);
  }
}
