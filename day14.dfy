/**
 * Day 14: robots walk in straight lines on a torus of `wide` columns by `tall` rows. Part 1 counts
 * the robots in each quadrant after 100 seconds; part 2 looks for the first second at which no two
 * robots share a cell.
 */
module Day14 {
  import opened Common

  datatype Velocity = Velocity(col: int, row: int)
  datatype Position = Position(col: int, row: int)

  /**
   * `%` on `i64` for a positive divisor: the remainder of the division truncating toward zero,
   * which takes the sign of `n`.
   */
  function TruncRem(n: int, d: int): (r: int)
    requires d > 0
    ensures -d < r < d && (n >= 0 ==> r >= 0) && (n < 0 ==> r <= 0)
  {
    if n >= 0 then n % d else -((-n) % d)
  }

  /** `((n % d) + d) % d` with truncating `%`: the Euclidean remainder of `n`. */
  lemma WrapEuclidean(n: int, d: int)
    requires d > 0
    ensures TruncRem(TruncRem(n, d) + d, d) == n % d
  {
    var t := TruncRem(n, d);
    if n >= 0 {
      ModUnique(t + d, d, 1, t);
    } else {
      var q, s := (-n) / d, (-n) % d;
      if s == 0 {
        ModUnique(t + d, d, 1, 0);
        ModUnique(n, d, -q, 0);
      } else {
        ModUnique(t + d, d, 0, d - s);
        ModUnique(n, d, -q - 1, d - s);
      }
    }
  }

  /** One coordinate of `move_robot`: the truncating remainder, shifted by `d` and reduced again. */
  function Wrap(n: int, d: int): (r: int)
    requires d > 0
    ensures 0 <= r < d
  {
    WrapEuclidean(n, d);
    TruncRem(TruncRem(n, d) + d, d)
  }

  /**
   * `move_robot`: where a robot starting at `position` is after `timeSpan` seconds, each coordinate
   * taken modulo the size of the area and so inside it, whatever the sign of the displacement.
   */
  function MoveRobot(position: Position, velocity: Velocity, timeSpan: int, wide: int, tall: int): (r: Position)
    requires wide > 0 && tall > 0
    ensures 0 <= r.col < wide && 0 <= r.row < tall
  {
    Position(Wrap(position.col + velocity.col * timeSpan, wide),
             Wrap(position.row + velocity.row * timeSpan, tall))
  }

  /** Each coordinate `move_robot` computes is the Euclidean remainder of the straight-line one. */
  lemma MoveRobotMeaning(position: Position, velocity: Velocity, timeSpan: int, wide: int, tall: int)
    requires wide > 0 && tall > 0
    ensures MoveRobot(position, velocity, timeSpan, wide, tall).col == (position.col + velocity.col * timeSpan) % wide
    ensures MoveRobot(position, velocity, timeSpan, wide, tall).row == (position.row + velocity.row * timeSpan) % tall
  {
    WrapEuclidean(position.col + velocity.col * timeSpan, wide);
    WrapEuclidean(position.row + velocity.row * timeSpan, tall);
  }

  /** Reducing a summand first does not change the remainder of a sum. */
  lemma ModAdd(x: int, y: int, d: int)
    requires d > 0
    ensures (x % d + y) % d == (x + y) % d
  {
    var z := x % d + y;
    assert x + y == (x / d + z / d) * d + z % d;
    ModUnique(x + y, d, x / d + z / d, z % d);
  }

  lemma MoveCoordinate(x: int, v: int, t: int, s: int, d: int)
    requires d > 0
    ensures ((x + v * t) % d + v * s) % d == (x + v * (t + s)) % d
  {
    ModAdd(x + v * t, v * s, d);
    assert x + v * t + v * s == x + v * (t + s);
  }

  /** Moving for `t` seconds and then for `s` seconds is moving for `t + s` seconds. */
  lemma MoveCompose(p: Position, v: Velocity, t: int, s: int, wide: int, tall: int)
    requires wide > 0 && tall > 0
    ensures MoveRobot(MoveRobot(p, v, t, wide, tall), v, s, wide, tall) == MoveRobot(p, v, t + s, wide, tall)
  {
    MoveRobotMeaning(p, v, t, wide, tall);
    MoveRobotMeaning(MoveRobot(p, v, t, wide, tall), v, s, wide, tall);
    MoveRobotMeaning(p, v, t + s, wide, tall);
    MoveCoordinate(p.col, v.col, t, s, wide);
    MoveCoordinate(p.row, v.row, t, s, tall);
  }

  /** Adding a multiple of `d` does not change the remainder. */
  lemma ModShift(y: int, m: int, d: int)
    requires d > 0
    ensures (y + m * d) % d == y % d
  {
    assert y + m * d == (y / d + m) * d + y % d;
    ModUnique(y + m * d, d, y / d + m, y % d);
  }

  lemma Regroup(x: int, v: int, t: int, a: int, b: int)
    ensures x + v * (t + a * b) == (x + v * t) + (v * b) * a
  {
    assert v * (t + a * b) == v * t + v * (a * b);
    assert v * (a * b) == (v * b) * a;
  }

  /** The motion repeats every `wide * tall` seconds. */
  lemma MovePeriodic(p: Position, v: Velocity, t: int, wide: int, tall: int)
    requires wide > 0 && tall > 0
    ensures MoveRobot(p, v, t + wide * tall, wide, tall) == MoveRobot(p, v, t, wide, tall)
  {
    MoveRobotMeaning(p, v, t, wide, tall);
    MoveRobotMeaning(p, v, t + wide * tall, wide, tall);
    Regroup(p.col, v.col, t, wide, tall);
    ModShift(p.col + v.col * t, v.col * tall, wide);
    assert wide * tall == tall * wide;
    Regroup(p.row, v.row, t, tall, wide);
    ModShift(p.row + v.row * t, v.row * wide, tall);
  }

  class Robot {
    var position: Position
    var velocity: Velocity

    constructor (position: Position, velocity: Velocity)
      ensures this.position == position && this.velocity == velocity
    {
      this.position := position;
      this.velocity := velocity;
    }

    /** `update_position`: the robot jumps to where `move_robot` puts it; its velocity stays. */
    method UpdatePosition(timeSpan: int, wide: int, tall: int)
      requires wide > 0 && tall > 0
      modifies this
      ensures position == MoveRobot(old(position), old(velocity), timeSpan, wide, tall)
      ensures velocity == old(velocity)
    {
      var moved := MoveRobot(this.position, this.velocity, timeSpan, wide, tall);
      position := Position(moved.col, position.row);
      position := Position(position.col, moved.row);
    }
  }

  function Positions(robots: seq<Robot>): (ps: seq<Position>)
    reads robots
    ensures |ps| == |robots| && forall i :: 0 <= i < |robots| ==> ps[i] == robots[i].position
  {
    if robots == [] then [] else [robots[0].position] + Positions(robots[1..])
  }

  function Velocities(robots: seq<Robot>): (vs: seq<Velocity>)
    reads robots
    ensures |vs| == |robots| && forall i :: 0 <= i < |robots| ==> vs[i] == robots[i].velocity
  {
    if robots == [] then [] else [robots[0].velocity] + Velocities(robots[1..])
  }

  /** Every robot moved for `timeSpan` seconds. */
  function Moved(ps: seq<Position>, vs: seq<Velocity>, timeSpan: int, wide: int, tall: int): (qs: seq<Position>)
    requires |ps| == |vs| && wide > 0 && tall > 0
    ensures |qs| == |ps|
  {
    if ps == [] then [] else [MoveRobot(ps[0], vs[0], timeSpan, wide, tall)] + Moved(ps[1..], vs[1..], timeSpan, wide, tall)
  }

  /** Robot `i` of the moved list is robot `i` moved. */
  lemma {:induction false} MovedAt(ps: seq<Position>, vs: seq<Velocity>, timeSpan: int, wide: int, tall: int)
    requires |ps| == |vs| && wide > 0 && tall > 0
    ensures forall i :: 0 <= i < |ps| ==> Moved(ps, vs, timeSpan, wide, tall)[i] == MoveRobot(ps[i], vs[i], timeSpan, wide, tall)
  {
    if ps != [] {
      MovedAt(ps[1..], vs[1..], timeSpan, wide, tall);
    }
  }

  /** Moving every robot for `t` and then for `s` seconds is moving them all for `t + s` seconds. */
  lemma MovedCompose(ps: seq<Position>, vs: seq<Velocity>, t: int, s: int, wide: int, tall: int)
    requires |ps| == |vs| && wide > 0 && tall > 0
    ensures Moved(Moved(ps, vs, t, wide, tall), vs, s, wide, tall) == Moved(ps, vs, t + s, wide, tall)
  {
    forall i | 0 <= i < |ps|
      ensures Moved(Moved(ps, vs, t, wide, tall), vs, s, wide, tall)[i] == Moved(ps, vs, t + s, wide, tall)[i]
    {
      MoveCompose(ps[i], vs[i], t, s, wide, tall);
    }
    MovedAt(ps, vs, t, wide, tall);
    MovedAt(Moved(ps, vs, t, wide, tall), vs, s, wide, tall);
    MovedAt(ps, vs, t + s, wide, tall);
  }

  /** The area of the puzzle input (more than 100 robots) or of the example. */
  function AreaSize(count: nat): (int, int)
  {
    if count > 100 then (101, 103) else (11, 7)
  }

  /**
   * The quadrant a position falls in, as part 1's nested tests decide it: -1 on the middle column
   * or row, otherwise 0 top left, 1 top right, 2 bottom left, 3 bottom right.
   */
  function Quadrant(p: Position, wide: int, tall: int): (q: int)
    ensures -1 <= q <= 3
    ensures q == -1 <==> p.col == wide / 2 || p.row == tall / 2
    ensures q >= 0 ==> ((q == 1 || q == 3) <==> p.col > wide / 2) && (q >= 2 <==> p.row > tall / 2)
  {
    var colSplit, rowSplit := wide / 2, tall / 2;
    if p.col < colSplit then
      if p.row < rowSplit then 0 else if p.row > rowSplit then 2 else -1
    else if p.col > colSplit then
      if p.row < rowSplit then 1 else if p.row > rowSplit then 3 else -1
    else -1
  }

  function Quadrants(ps: seq<Position>, wide: int, tall: int): (qs: seq<int>)
    ensures |qs| == |ps| && forall i :: 0 <= i < |ps| ==> qs[i] == Quadrant(ps[i], wide, tall)
  {
    if ps == [] then [] else [Quadrant(ps[0], wide, tall)] + Quadrants(ps[1..], wide, tall)
  }

  /** The product of the four quadrant counts after 100 seconds. */
  function SafetyFactor(ps: seq<Position>, vs: seq<Velocity>): int
    requires |ps| == |vs|
  {
    var (wide, tall) := AreaSize(|ps|);
    var qs := Quadrants(Moved(ps, vs, 100, wide, tall), wide, tall);
    Count(qs, 0) * Count(qs, 1) * Count(qs, 2) * Count(qs, 3)
  }

  /** Each robot is counted in at most one quadrant, and exactly one unless it is on a middle line. */
  lemma {:induction false} QuadrantsPartition(qs: seq<int>)
    requires forall i :: 0 <= i < |qs| ==> -1 <= qs[i] <= 3
    ensures Count(qs, -1) + Count(qs, 0) + Count(qs, 1) + Count(qs, 2) + Count(qs, 3) == |qs|
  {
    if qs != [] {
      QuadrantsPartition(qs[1..]);
    }
  }

  /** Counting one more element of a prefix adds one to its own count only. */
  lemma CountStep(qs: seq<int>, i: int)
    requires 0 <= i < |qs|
    ensures forall k :: Count(qs[..i + 1], k) == Count(qs[..i], k) + if qs[i] == k then 1 else 0
  {
    assert qs[..i + 1] == qs[..i] + [qs[i]];
    forall k
      ensures Count(qs[..i + 1], k) == Count(qs[..i], k) + if qs[i] == k then 1 else 0
    {
      CountAppend(qs[..i], [qs[i]], k);
    }
  }

  /** The body of part 1's loop: bump the counter of the quadrant `p` is in, if any. */
  method Tally(p: Position, wide: int, tall: int, topLeft: int, topRight: int, bottomLeft: int, bottomRight: int)
    returns (topLeft': int, topRight': int, bottomLeft': int, bottomRight': int)
    ensures topLeft' == topLeft + (if Quadrant(p, wide, tall) == 0 then 1 else 0)
    ensures topRight' == topRight + (if Quadrant(p, wide, tall) == 1 then 1 else 0)
    ensures bottomLeft' == bottomLeft + (if Quadrant(p, wide, tall) == 2 then 1 else 0)
    ensures bottomRight' == bottomRight + (if Quadrant(p, wide, tall) == 3 then 1 else 0)
  {
    var colSplit, rowSplit := wide / 2, tall / 2;
    topLeft', topRight', bottomLeft', bottomRight' := topLeft, topRight, bottomLeft, bottomRight;
    if p.col < colSplit {
      if p.row < rowSplit {
        topLeft' := topLeft + 1;
      } else if p.row > rowSplit {
        bottomLeft' := bottomLeft + 1;
      }
    } else if p.col > colSplit {
      if p.row < rowSplit {
        topRight' := topRight + 1;
      } else if p.row > rowSplit {
        bottomRight' := bottomRight + 1;
      }
    }
  }

  /** `day_14_part_1`: the robots' positions after 100 seconds, counted per quadrant and multiplied. */
  method Part1(robots: seq<Robot>) returns (factor: int)
    ensures factor == SafetyFactor(Positions(robots), Velocities(robots))
  {
    var (wide, tall) := AreaSize(|robots|);
    var timeSpan := 100;
    ghost var qs := Quadrants(Moved(Positions(robots), Velocities(robots), timeSpan, wide, tall), wide, tall);
    MovedAt(Positions(robots), Velocities(robots), timeSpan, wide, tall);
    var topLeft, topRight, bottomLeft, bottomRight := 0, 0, 0, 0;
    for i := 0 to |robots|
      invariant topLeft == Count(qs[..i], 0) && topRight == Count(qs[..i], 1)
      invariant bottomLeft == Count(qs[..i], 2) && bottomRight == Count(qs[..i], 3)
    {
      var p := MoveRobot(robots[i].position, robots[i].velocity, timeSpan, wide, tall);
      assert qs[i] == Quadrant(p, wide, tall);
      CountStep(qs, i);
      topLeft, topRight, bottomLeft, bottomRight := Tally(p, wide, tall, topLeft, topRight, bottomLeft, bottomRight);
    }
    assert qs[..|robots|] == qs;
    factor := topLeft * topRight * bottomLeft * bottomRight;
  }

  /** `positions.fill(false)`. */
  method Clear(positions: array2<bool>)
    modifies positions
    ensures forall c, r :: 0 <= c < positions.Length0 && 0 <= r < positions.Length1 ==> !positions[c, r]
  {
    for c := 0 to positions.Length0
      invariant forall c', r :: 0 <= c' < c && 0 <= r < positions.Length1 ==> !positions[c', r]
    {
      for r := 0 to positions.Length1
        invariant forall c', r' :: 0 <= c' < c && 0 <= r' < positions.Length1 ==> !positions[c', r']
        invariant forall r' :: 0 <= r' < r ==> !positions[c, r']
      {
        positions[c, r] := false;
      }
    }
  }

  /**
   * The overlap scan of part 2: clear the occupancy grid, then mark the robots' cells one by one,
   * stopping at the first cell already marked. It finds an overlap exactly when two robots share
   * a cell.
   */
  method FindOverlap(robots: seq<Robot>, positions: array2<bool>) returns (found: bool)
    requires forall i :: 0 <= i < |robots| ==>
      0 <= robots[i].position.col < positions.Length0 && 0 <= robots[i].position.row < positions.Length1
    modifies positions
    ensures found <==> !Distinct(Positions(robots))
  {
    ghost var ps := Positions(robots);
    Clear(positions);
    found := false;
    var k := 0;
    while k < |robots|
      invariant 0 <= k <= |robots|
      invariant forall c, r :: 0 <= c < positions.Length0 && 0 <= r < positions.Length1 ==>
        (positions[c, r] <==> Position(c, r) in ps[..k])
      invariant Distinct(ps[..k])
    {
      var position := robots[k].position;
      if positions[position.col, position.row] {
        assert position in ps[..k];
        found := true;
        break;
      } else {
        positions[position.col, position.row] := true;
        assert ps[..k + 1] == ps[..k] + [position];
      }
      k := k + 1;
    }
    if !found {
      assert ps[..k] == ps;
    }
  }

  /** One second for every robot: each calls `update_position(1, ..)`. */
  method StepAll(robots: seq<Robot>, wide: int, tall: int)
    requires Distinct(robots) && wide > 0 && tall > 0
    modifies robots
    ensures Velocities(robots) == old(Velocities(robots))
    ensures Positions(robots) == Moved(old(Positions(robots)), old(Velocities(robots)), 1, wide, tall)
  {
    ghost var ps, vs := Positions(robots), Velocities(robots);
    for k := 0 to |robots|
      invariant forall j :: 0 <= j < |robots| ==> robots[j].velocity == vs[j]
      invariant forall j :: 0 <= j < k ==> robots[j].position == MoveRobot(ps[j], vs[j], 1, wide, tall)
      invariant forall j :: k <= j < |robots| ==> robots[j].position == ps[j]
    {
      robots[k].UpdatePosition(1, wide, tall);
    }
    MovedAt(ps, vs, 1, wide, tall);
  }

  /** At each second from 1 to `time`, two robots started at `ps` with velocities `vs` share a cell. */
  ghost predicate OverlapUntil(ps: seq<Position>, vs: seq<Velocity>, time: int)
    requires |ps| == |vs|
  {
    forall s :: 1 <= s <= time ==> !Distinct(Moved(ps, vs, s, 101, 103))
  }

  lemma OverlapNext(ps: seq<Position>, vs: seq<Velocity>, time: nat)
    requires |ps| == |vs| && time >= 1
    requires OverlapUntil(ps, vs, time - 1) && !Distinct(Moved(ps, vs, time, 101, 103))
    ensures OverlapUntil(ps, vs, time)
  {
  }

  /** The robots are where `time` seconds of motion from `ps` take them (not yet wrapped at 0). */
  ghost predicate MovedFor(robots: seq<Robot>, ps: seq<Position>, vs: seq<Velocity>, time: nat)
    reads robots
    requires |ps| == |vs|
  {
    && Velocities(robots) == vs
    && Positions(robots) == if time == 0 then ps else Moved(ps, vs, time, 101, 103)
  }

  /** One more second from where `time` seconds took the robots. */
  lemma NextMoved(current: seq<Position>, ps: seq<Position>, vs: seq<Velocity>, time: nat)
    requires |ps| == |vs| && current == if time == 0 then ps else Moved(ps, vs, time, 101, 103)
    ensures Moved(current, vs, 1, 101, 103) == Moved(ps, vs, time + 1, 101, 103)
  {
    if time > 0 {
      MovedCompose(ps, vs, time, 1, 101, 103);
    }
  }

  /** Every moved robot is inside the area. */
  lemma MovedInRange(ps: seq<Position>, vs: seq<Velocity>, timeSpan: int, wide: int, tall: int)
    requires |ps| == |vs| && wide > 0 && tall > 0
    ensures forall i :: 0 <= i < |ps| ==>
      0 <= Moved(ps, vs, timeSpan, wide, tall)[i].col < wide && 0 <= Moved(ps, vs, timeSpan, wide, tall)[i].row < tall
  {
    MovedAt(ps, vs, timeSpan, wide, tall);
  }

  /** One turn of part 2's loop: advance every robot by a second, then scan for an overlap. */
  method Tick(robots: seq<Robot>, positions: array2<bool>, ghost ps: seq<Position>, ghost vs: seq<Velocity>, time: nat)
    returns (time': nat, foundOverlap: bool)
    requires Distinct(robots) && |ps| == |vs| && MovedFor(robots, ps, vs, time)
    requires positions.Length0 == 101 && positions.Length1 == 103
    modifies robots, positions
    ensures time' == time + 1 && MovedFor(robots, ps, vs, time')
    ensures foundOverlap <==> !Distinct(Moved(ps, vs, time', 101, 103))
  {
    time' := time + 1;
    ghost var now := Moved(ps, vs, time', 101, 103);
    NextMoved(Positions(robots), ps, vs, time);
    StepAll(robots, 101, 103);
    assert Positions(robots) == now;
    MovedInRange(ps, vs, time', 101, 103);
    foundOverlap := FindOverlap(robots, positions);
    assert Positions(robots) == now;
  }

  /**
   * `day_14_part_2`: step all robots one second at a time until no two share a cell, and return
   * the number of seconds. The loop stops only if such a time exists: `horizon` is one.
   */
  method Part2(robots: seq<Robot>, ghost horizon: nat) returns (time: nat)
    requires Distinct(robots)
    requires horizon >= 1 && Distinct(Moved(Positions(robots), Velocities(robots), horizon, 101, 103))
    modifies robots
    ensures 1 <= time <= horizon
    ensures Distinct(Moved(old(Positions(robots)), old(Velocities(robots)), time, 101, 103))
    ensures forall s :: 1 <= s < time ==> !Distinct(Moved(old(Positions(robots)), old(Velocities(robots)), s, 101, 103))
    ensures Velocities(robots) == old(Velocities(robots))
    ensures Positions(robots) == Moved(old(Positions(robots)), old(Velocities(robots)), time, 101, 103)
  {
    ghost var ps, vs := Positions(robots), Velocities(robots);
    var wide, tall := 101, 103;
    time := 0;
    var positions := new bool[wide, tall]((c, r) => false);
    var foundOverlap;
    time, foundOverlap := Tick(robots, positions, ps, vs, time);
    while foundOverlap
      invariant 1 <= time <= horizon && MovedFor(robots, ps, vs, time) && OverlapUntil(ps, vs, time - 1)
      invariant foundOverlap <==> !Distinct(Moved(ps, vs, time, wide, tall))
      invariant positions.Length0 == wide && positions.Length1 == tall
      decreases horizon - time
    {
      OverlapNext(ps, vs, time);
      time, foundOverlap := Tick(robots, positions, ps, vs, time);
    }
  }

  /**
   * Two robots of the example after 100 seconds in the 11 by 7 area; the second coordinate of the
   * first one, `4 - 300`, is negative before it is wrapped.
   */
  lemma ExampleMoves()
    ensures MoveRobot(Position(0, 4), Velocity(3, -3), 100, 11, 7) == Position(3, 5)
    ensures MoveRobot(Position(9, 5), Velocity(-3, -3), 100, 11, 7) == Position(6, 6)
  {
  }
}
