/**
 * Day 16: the cheapest way through a maze for a reindeer that starts on `S` facing east. A step
 * forward costs 1 and a step that also changes the facing costs 1001. Part 1 is an A* search over
 * (cell, facing) states; part 2 reruns the search without heuristic and then backtracks from the
 * exit over every state whose recorded cost fits on an optimal path, counting the cells met.
 */
module Day16 {
  import opened Common

  datatype Cell = Empty | Wall | Start | Exit
  /** Declared in the order of the source's `Direction`, which is the order heap entries use. */
  datatype Direction = Up | Down | Left | Right

  type Pos = (int, int)
  type Grid = seq<seq<Cell>>

  function Cols(g: Grid): nat
  {
    if g == [] then 0 else |g[0]|
  }

  predicate Rect(g: Grid)
  {
    forall r :: 0 <= r < |g| ==> |g[r]| == Cols(g)
  }

  predicate InGrid(g: Grid, p: Pos)
  {
    0 <= p.0 < |g| && 0 <= p.1 < Cols(g)
  }

  function At(g: Grid, p: Pos): Cell
    requires Rect(g) && InGrid(g, p)
  {
    g[p.0][p.1]
  }

  /** A cell the reindeer may stand on. */
  predicate Open(g: Grid, p: Pos)
  {
    Rect(g) && InGrid(g, p) && At(g, p) != Wall
  }

  /** `direction as usize`. */
  function DirIndex(d: Direction): nat
  {
    match d
    case Up => 0
    case Down => 1
    case Left => 2
    case Right => 3
  }

  /** The neighbour of `p` in direction `d`. */
  function Move(p: Pos, d: Direction): Pos
  {
    match d
    case Up => (p.0 - 1, p.1)
    case Down => (p.0 + 1, p.1)
    case Left => (p.0, p.1 - 1)
    case Right => (p.0, p.1 + 1)
  }

  /** `manhattan_distance`. */
  function Manhattan(a: Pos, b: Pos): nat
  {
    Abs(a.0 - b.0) + Abs(a.1 - b.1)
  }

  /** One step changes the distance to any cell by one. */
  lemma {:induction false} ManhattanStep(p: Pos, d: Direction, target: Pos)
    ensures Manhattan(p, target) <= Manhattan(Move(p, d), target) + 1
    ensures Manhattan(Move(p, d), target) <= Manhattan(p, target) + 1
  {
  }

  /** Row-major order, the order of `indexed_iter`. */
  predicate Before(a: Pos, b: Pos)
  {
    a.0 < b.0 || (a.0 == b.0 && a.1 < b.1)
  }

  /** The last cell before `limit` in row-major order holding `x`, if any was recorded in `found`. */
  ghost predicate LastBefore(g: Grid, x: Cell, found: Option<Pos>, limit: Pos)
    requires Rect(g)
  {
    && (found.Some? ==> InGrid(g, found.value) && At(g, found.value) == x && Before(found.value, limit))
    && forall p :: InGrid(g, p) && Before(p, limit) && At(g, p) == x ==> found.Some? && !Before(found.value, p)
  }

  /** Looking at cell `(r, c)` moves the limit one cell on. */
  lemma {:induction false} LastBeforeStep(g: Grid, x: Cell, found: Option<Pos>, r: nat, c: nat)
    requires Rect(g) && r < |g| && c < Cols(g) && LastBefore(g, x, found, (r, c))
    ensures LastBefore(g, x, if g[r][c] == x then Some((r, c)) else found, (r, c + 1))
  {
  }

  /** The end of a row is the start of the next one. */
  lemma {:induction false} LastBeforeRowEnd(g: Grid, x: Cell, found: Option<Pos>, r: nat)
    requires Rect(g) && r < |g| && LastBefore(g, x, found, (r, Cols(g)))
    ensures LastBefore(g, x, found, (r + 1, 0))
  {
  }

  /** One row of the scan of `find_start_and_exit`. */
  method ScanRow(g: Grid, r: nat, start: Option<Pos>, exit: Option<Pos>) returns (start': Option<Pos>, exit': Option<Pos>)
    requires Rect(g) && r < |g|
    requires LastBefore(g, Start, start, (r, 0)) && LastBefore(g, Exit, exit, (r, 0))
    ensures LastBefore(g, Start, start', (r + 1, 0)) && LastBefore(g, Exit, exit', (r + 1, 0))
  {
    start', exit' := start, exit;
    for c := 0 to Cols(g)
      invariant LastBefore(g, Start, start', (r, c)) && LastBefore(g, Exit, exit', (r, c))
    {
      LastBeforeStep(g, Start, start', r, c);
      LastBeforeStep(g, Exit, exit', r, c);
      if g[r][c] == Start {
        start' := Some((r, c));
      } else if g[r][c] == Exit {
        exit' := Some((r, c));
      }
    }
    LastBeforeRowEnd(g, Start, start', r);
    LastBeforeRowEnd(g, Exit, exit', r);
  }

  /**
   * `find_start_and_exit`: the scan keeps overwriting, so it returns the last `S` and the last `E`
   * in row-major order; a map without one of them panics.
   */
  method FindStartAndExit(g: Grid) returns (start: Pos, exit: Pos)
    requires Rect(g)
    requires exists p :: InGrid(g, p) && At(g, p) == Start
    requires exists p :: InGrid(g, p) && At(g, p) == Exit
    ensures IsLast(g, Start, start) && IsLast(g, Exit, exit)
  {
    var foundStart: Option<Pos> := None;
    var foundExit: Option<Pos> := None;
    for r := 0 to |g|
      invariant LastBefore(g, Start, foundStart, (r, 0)) && LastBefore(g, Exit, foundExit, (r, 0))
    {
      foundStart, foundExit := ScanRow(g, r, foundStart, foundExit);
    }
    start, exit := foundStart.value, foundExit.value;
  }

  /** A search state: a cell and the facing the reindeer has there. */
  datatype State = State(pos: Pos, facing: Direction)

  /** The cost the search seeds the start with: facing east is free, any other facing one turn. */
  function SeedCost(d: Direction): nat
  {
    if d == Right then 0 else 1000
  }

  /** The cost of stepping on with facing `to` when facing `from`. */
  function TurnCost(from: Direction, to: Direction): nat
  {
    if from != to then 1001 else 1
  }

  /** A move of the search: one cell on in direction `t.facing`, onto an open cell. */
  predicate Step(g: Grid, s: State, t: State)
  {
    Open(g, t.pos) && t.pos == Move(s.pos, t.facing)
  }

  /** A sequence of states from `start` made of search moves. */
  ghost predicate IsWalk(g: Grid, start: Pos, w: seq<State>)
  {
    |w| >= 1 && w[0].pos == start && forall i :: 0 <= i < |w| - 1 ==> Step(g, w[i], w[i + 1])
  }

  /** The seed cost of the first facing plus the cost of every move. */
  function WalkCost(w: seq<State>): nat
    requires |w| >= 1
  {
    if |w| == 1 then SeedCost(w[0].facing)
    else WalkCost(w[..|w| - 1]) + TurnCost(w[|w| - 2].facing, w[|w| - 1].facing)
  }

  function Last(w: seq<State>): State
    requires |w| >= 1
  {
    w[|w| - 1]
  }

  /** Extending a walk by one move adds the cost of that move. */
  lemma {:induction false} WalkExtend(g: Grid, start: Pos, w: seq<State>, t: State)
    requires IsWalk(g, start, w) && Step(g, Last(w), t)
    ensures IsWalk(g, start, w + [t]) && Last(w + [t]) == t
    ensures WalkCost(w + [t]) == WalkCost(w) + TurnCost(Last(w).facing, t.facing)
  {
    assert (w + [t])[..|w|] == w;
  }

  /**
   * A heap entry `(f_score, g_score, row, col, direction)`; heap order is the lexicographic
   * order of these tuples. Part 2's entries `(g_score, row, col, direction)` are the entries
   * whose `f` equals their `g`, which the same order sorts the same way.
   */
  datatype Entry = Entry(f: nat, g: nat, row: int, col: int, facing: Direction)

  function StateOf(e: Entry): State
  {
    State((e.row, e.col), e.facing)
  }

  predicate EntryLe(a: Entry, b: Entry)
  {
    || a.f < b.f
    || (a.f == b.f && a.g < b.g)
    || (a.f == b.f && a.g == b.g && a.row < b.row)
    || (a.f == b.f && a.g == b.g && a.row == b.row && a.col < b.col)
    || (a.f == b.f && a.g == b.g && a.row == b.row && a.col == b.col && DirIndex(a.facing) <= DirIndex(b.facing))
  }

  /**
   * `BinaryHeap::pop` on `Reverse` entries: it removes and returns a least entry.
   */
  method PopMin(q: seq<Entry>) returns (e: Entry, rest: seq<Entry>)
    requires |q| > 0
    ensures e in q && |rest| == |q| - 1 && multiset(rest) + multiset{e} == multiset(q)
    ensures forall x :: x in rest ==> x in q
    ensures forall x :: x in q && x != e ==> x in rest
    ensures forall x :: x in q ==> EntryLe(e, x)
  {
    var best := 0;
    for k := 1 to |q|
      invariant 0 <= best < |q|
      invariant forall j :: 0 <= j < k ==> EntryLe(q[best], q[j])
    {
      if !EntryLe(q[best], q[k]) {
        best := k;
      }
    }
    e := q[best];
    rest := q[..best] + q[best + 1..];
    assert q == q[..best] + [e] + q[best + 1..];
    assert forall x :: x in rest ==> x in q;
    assert forall x :: x in q && x != e ==> x in rest by {
      forall x | x in q && x != e
        ensures x in rest
      {
        var j :| 0 <= j < |q| && q[j] == x;
        if j < best {
          assert rest[j] == x;
        } else {
          assert j > best && rest[j - 1] == x;
        }
      }
    }
    forall x | x in q
      ensures EntryLe(e, x)
    {
      var j :| 0 <= j < |q| && q[j] == x;
    }
  }

  /** The search heuristic: the distance to the exit for A*, nothing for part 2's search. */
  function H(astar: bool, exit: Pos, p: Pos): nat
  {
    if astar then Manhattan(p, exit) else 0
  }

  const Dirs: seq<Direction> := [Up, Down, Left, Right]

  /** The entry pushed for a neighbour in direction `d`, if that cell is open. */
  function Child(g: Grid, exit: Pos, astar: bool, e: Entry, d: Direction): seq<Entry>
  {
    var p := Move((e.row, e.col), d);
    var cost := e.g + TurnCost(e.facing, d);
    if Open(g, p) then [Entry(cost + H(astar, exit, p), cost, p.0, p.1, d)] else []
  }

  /** The entries pushed for the first `n` directions of the neighbour loop. */
  function Children(g: Grid, exit: Pos, astar: bool, e: Entry, n: nat): seq<Entry>
    requires n <= 4
  {
    if n == 0 then [] else Children(g, exit, astar, e, n - 1) + Child(g, exit, astar, e, Dirs[n - 1])
  }

  /**
   * The entries pushed from `e` are exactly the moves from `e`'s state to an open neighbour, each
   * costing its turn and scored with the heuristic.
   */
  lemma {:induction false} ChildrenExact(g: Grid, exit: Pos, astar: bool, e: Entry, c: Entry)
    ensures c in Children(g, exit, astar, e, 4) <==>
      && Step(g, StateOf(e), StateOf(c))
      && c.g == e.g + TurnCost(e.facing, c.facing)
      && c.f == c.g + H(astar, exit, (c.row, c.col))
  {
    ChildrenAll(g, exit, astar, e);
    ChildExact(g, exit, astar, e, c.facing, c);
  }

  lemma {:induction false} ChildrenAll(g: Grid, exit: Pos, astar: bool, e: Entry)
    ensures Children(g, exit, astar, e, 4) == Child(g, exit, astar, e, Up) + Child(g, exit, astar, e, Down)
      + Child(g, exit, astar, e, Left) + Child(g, exit, astar, e, Right)
  {
    assert Children(g, exit, astar, e, 1) == Child(g, exit, astar, e, Up);
    assert Children(g, exit, astar, e, 2) == Child(g, exit, astar, e, Up) + Child(g, exit, astar, e, Down);
    assert Children(g, exit, astar, e, 3) == Child(g, exit, astar, e, Up) + Child(g, exit, astar, e, Down)
      + Child(g, exit, astar, e, Left);
  }

  lemma {:induction false} ChildExact(g: Grid, exit: Pos, astar: bool, e: Entry, d: Direction, c: Entry)
    requires c.facing == d
    ensures (c in Child(g, exit, astar, e, Up) + Child(g, exit, astar, e, Down)
      + Child(g, exit, astar, e, Left) + Child(g, exit, astar, e, Right)) <==> c in Child(g, exit, astar, e, d)
    ensures c in Child(g, exit, astar, e, d) <==>
      && Step(g, StateOf(e), StateOf(c))
      && c.g == e.g + TurnCost(e.facing, c.facing)
      && c.f == c.g + H(astar, exit, (c.row, c.col))
  {
  }

  /** Some frontier entry stands for `t` at a cost of at most `bound`. */
  ghost predicate CoveredBy(q: seq<Entry>, t: State, bound: nat)
  {
    exists x :: x in q && StateOf(x) == t && x.g <= bound
  }

  /** Every move from `e`'s state has an entry among the children, at the cost of that move. */
  lemma {:induction false} ChildrenCover(g: Grid, exit: Pos, astar: bool, e: Entry, t: State)
    requires Step(g, StateOf(e), t)
    ensures CoveredBy(Children(g, exit, astar, e, 4), t, e.g + TurnCost(e.facing, t.facing))
  {
    var cost := e.g + TurnCost(e.facing, t.facing);
    var c := Entry(cost + H(astar, exit, t.pos), cost, t.pos.0, t.pos.1, t.facing);
    ChildrenExact(g, exit, astar, e, c);
    assert StateOf(c) == t;
  }

  /** The neighbour loop of both searches: push an entry for every open neighbour. */
  method Expand(g: Grid, exit: Pos, astar: bool, e: Entry, q: seq<Entry>) returns (q': seq<Entry>)
    requires Rect(g)
    ensures q' == q + Children(g, exit, astar, e, 4)
  {
    q' := q;
    for i := 0 to 4
      invariant q' == q + Children(g, exit, astar, e, i)
    {
      var direction := Dirs[i];
      var (newRow, newCol) := Move((e.row, e.col), direction);
      if 0 <= newRow < |g| && 0 <= newCol < Cols(g) && g[newRow][newCol] != Wall {
        var newG := e.g + TurnCost(e.facing, direction);
        var newF := newG + H(astar, exit, (newRow, newCol));
        q' := q' + [Entry(newF, newG, newRow, newCol, direction)];
      }
    }
  }

  /** An A* start entry with some facing other than east: cost 1000 but scored as if free. */
  predicate SeedLike(start: Pos, exit: Pos, astar: bool, x: Entry)
  {
    astar && (x.row, x.col) == start && x.facing != Right && x.g == 1000 && x.f == H(astar, exit, start)
  }

  /**
   * The four start entries, in the order both searches push them: facing east costs nothing, any
   * other facing 1000. The A* scores all four with the distance to the exit; part 2's search
   * orders them by cost.
   */
  function Seeds(start: Pos, exit: Pos, astar: bool): seq<Entry>
  {
    var f := H(astar, exit, start);
    var turned := if astar then f else 1000;
    [Entry(turned, 1000, start.0, start.1, Up), Entry(turned, 1000, start.0, start.1, Down),
     Entry(turned, 1000, start.0, start.1, Left), Entry(f, 0, start.0, start.1, Right)]
  }

  /**
   * What every frontier entry satisfies: it stands on an open cell, its score is at least the
   * last popped one and at most its cost plus the heuristic, a facing other than east costs at
   * least one turn, and `W` holds a walk from the start reaching it at its cost.
   */
  ghost predicate FrontierInv(g: Grid, start: Pos, exit: Pos, astar: bool, q: seq<Entry>, lastF: nat,
                              W: map<Entry, seq<State>>)
  {
    forall x :: x in q ==>
      && Open(g, (x.row, x.col))
      && lastF <= x.f <= x.g + H(astar, exit, (x.row, x.col))
      && (x.f == x.g + H(astar, exit, (x.row, x.col)) || SeedLike(start, exit, astar, x))
      && (x.facing != Right ==> x.g >= 1000)
      && x in W && IsWalk(g, start, W[x]) && Last(W[x]) == StateOf(x) && WalkCost(W[x]) == x.g
  }

  /** The `visited` array holds exactly the recorded costs `V`. */
  ghost predicate Mirrors(g: Grid, visited: array3<Option<nat>>, V: map<State, nat>)
    reads visited
  {
    && visited.Length0 == |g| && visited.Length1 == Cols(g) && visited.Length2 == 4
    && forall s: State :: InGrid(g, s.pos) ==>
      visited[s.pos.0, s.pos.1, DirIndex(s.facing)] == if s in V then Some(V[s]) else None
  }

  /** A recorded state is open, and its cost plus the heuristic is at most the last popped score, A* seeds aside. */
  ghost predicate VisitedInv(g: Grid, start: Pos, exit: Pos, astar: bool, V: map<State, nat>, lastF: nat)
  {
    forall s :: s in V ==>
      && Open(g, s.pos)
      && (V[s] + H(astar, exit, s.pos) <= lastF || (astar && s.pos == start && s.facing != Right && V[s] == 1000))
  }

  /** No walk from the start reaches `s` for less than `cost`. */
  ghost predicate Optimal(g: Grid, start: Pos, s: State, cost: nat)
  {
    forall w :: IsWalk(g, start, w) && Last(w) == s ==> cost <= WalkCost(w)
  }

  /** Every recorded cost is the cost of a walk, held in `WV`, and no walk is cheaper. */
  ghost predicate Settled(g: Grid, start: Pos, V: map<State, nat>, WV: map<State, seq<State>>)
  {
    forall s :: s in V ==>
      && s in WV && IsWalk(g, start, WV[s]) && Last(WV[s]) == s && WalkCost(WV[s]) == V[s]
      && Optimal(g, start, s, V[s])
  }

  /**
   * Nothing reachable is lost: every start state, and every move out of a recorded state that is
   * not on the exit, leads to a recorded state or to a frontier entry no dearer than that move.
   */
  ghost predicate Covered(g: Grid, start: Pos, exit: Pos, V: map<State, nat>, q: seq<Entry>)
  {
    && (forall d: Direction :: State(start, d) in V || CoveredBy(q, State(start, d), SeedCost(d)))
    && forall s, t :: s in V && s.pos != exit && Step(g, s, t) ==>
      t in V || CoveredBy(q, t, V[s] + TurnCost(s.facing, t.facing))
  }

  function Index(s: State): (int, int, int)
  {
    (s.pos.0, s.pos.1, DirIndex(s.facing))
  }

  /** A prefix of a walk is a walk. */
  lemma {:induction false} WalkPrefix(g: Grid, start: Pos, w: seq<State>, k: nat)
    requires IsWalk(g, start, w) && 1 <= k <= |w|
    ensures IsWalk(g, start, w[..k]) && Last(w[..k]) == w[k - 1]
  {
    forall i | 0 <= i < k - 1
      ensures Step(g, w[..k][i], w[..k][i + 1])
    {
      assert w[..k][i] == w[i] && w[..k][i + 1] == w[i + 1];
    }
  }

  /**
   * Every move costs at least 1, and at least the one cell it changes the distance to the exit
   * by: the heuristic never overestimates what is left of a walk.
   */
  lemma {:induction false} PrefixCost(g: Grid, start: Pos, exit: Pos, astar: bool, w: seq<State>, k: nat)
    requires IsWalk(g, start, w) && 1 <= k <= |w|
    ensures WalkCost(w[..k]) + (|w| - k) <= WalkCost(w)
    ensures WalkCost(w[..k]) + H(astar, exit, w[k - 1].pos) <= WalkCost(w) + H(astar, exit, Last(w).pos)
    decreases |w|
  {
    if k == |w| {
      assert w[..k] == w;
    } else {
      var w' := w[..|w| - 1];
      WalkPrefix(g, start, w, |w| - 1);
      PrefixCost(g, start, exit, astar, w', k);
      assert w'[..k] == w[..k];
      assert Step(g, w[|w| - 2], w[|w| - 1]);
      ManhattanStep(w[|w| - 2].pos, w[|w| - 1].facing, exit);
    }
  }

  /** A walk costs at least the seed cost of its last facing plus one per move. */
  lemma {:induction false} WalkCostLower(w: seq<State>)
    requires |w| >= 1
    ensures WalkCost(w) >= SeedCost(Last(w).facing) + |w| - 1
    decreases |w|
  {
    if |w| > 1 {
      var w' := w[..|w| - 1];
      WalkCostLower(w');
      assert Last(w') == w[|w| - 2];
    }
  }

  /**
   * A walk whose last state is not recorded has a first state that is not recorded. Either the
   * state before it is a recorded exit state, or a frontier entry stands for it at no more than
   * the cost of the walk up to it.
   */
  lemma {:induction false} FirstUnrecorded(g: Grid, start: Pos, exit: Pos, V: map<State, nat>,
                                           WV: map<State, seq<State>>, q: seq<Entry>, w: seq<State>)
    returns (i: nat, x: Entry, passesExit: bool)
    requires Covered(g, start, exit, V, q) && Settled(g, start, V, WV)
    requires IsWalk(g, start, w) && Last(w) !in V
    ensures i < |w|
    ensures passesExit ==> i < |w| - 1 && w[i] in V && w[i].pos == exit
    ensures !passesExit ==> x in q && StateOf(x) == w[i] && x.g <= WalkCost(w[..i + 1])
    decreases |w|
  {
    if |w| == 1 {
      assert w[0] == State(start, w[0].facing);
      assert CoveredBy(q, w[0], SeedCost(w[0].facing));
      x :| x in q && StateOf(x) == w[0] && x.g <= SeedCost(w[0].facing);
      assert w[..1] == w;
      return 0, x, false;
    }
    var w' := w[..|w| - 1];
    WalkPrefix(g, start, w, |w| - 1);
    var s := Last(w');
    if s !in V {
      i, x, passesExit := FirstUnrecorded(g, start, exit, V, WV, q, w');
      assert w'[..i + 1] == w[..i + 1];
      return;
    }
    if s.pos == exit {
      return |w| - 2, Entry(0, 0, 0, 0, Up), true;
    }
    assert Step(g, s, Last(w));
    assert CoveredBy(q, Last(w), V[s] + TurnCost(s.facing, Last(w).facing));
    x :| x in q && StateOf(x) == Last(w) && x.g <= V[s] + TurnCost(s.facing, Last(w).facing);
    assert V[s] <= WalkCost(w');
    assert w[..|w|] == w;
    return |w| - 1, x, false;
  }

  /**
   * Popping a least entry `e`: no walk to a state that is not recorded costs less than `e`'s
   * score, the heuristic at the walk's end taken off.
   */
  lemma {:induction false} PoppedOptimal(g: Grid, start: Pos, exit: Pos, astar: bool, q: seq<Entry>, lastF: nat, W: map<Entry, seq<State>>,
                      V: map<State, nat>, WV: map<State, seq<State>>, e: Entry, w: seq<State>)
    requires FrontierInv(g, start, exit, astar, q, lastF, W) && Covered(g, start, exit, V, q) && Settled(g, start, V, WV)
    requires forall x :: x in q ==> EntryLe(e, x)
    requires forall u :: u in V && u.pos == exit ==> e.f <= V[u]
    requires IsWalk(g, start, w) && Last(w) !in V
    ensures e.f <= WalkCost(w) + H(astar, exit, Last(w).pos)
  {
    var i, x, passesExit := FirstUnrecorded(g, start, exit, V, WV, q, w);
    WalkPrefix(g, start, w, i + 1);
    PrefixCost(g, start, exit, astar, w, i + 1);
    if passesExit {
      assert V[w[i]] <= WalkCost(w[..i + 1]);
    } else {
      assert EntryLe(e, x);
    }
  }

  /** The cost of a popped entry whose state is not recorded is optimal for that state. */
  lemma {:induction false} RecordOptimal(g: Grid, start: Pos, exit: Pos, astar: bool, q: seq<Entry>, lastF: nat, W: map<Entry, seq<State>>,
                      V: map<State, nat>, WV: map<State, seq<State>>, e: Entry)
    requires FrontierInv(g, start, exit, astar, q, lastF, W) && Covered(g, start, exit, V, q) && Settled(g, start, V, WV)
    requires e in q && forall x :: x in q ==> EntryLe(e, x)
    requires forall u :: u in V && u.pos == exit ==> e.f <= V[u]
    requires StateOf(e) !in V
    ensures Optimal(g, start, StateOf(e), e.g)
  {
    forall w | IsWalk(g, start, w) && Last(w) == StateOf(e)
      ensures e.g <= WalkCost(w)
    {
      if SeedLike(start, exit, astar, e) {
        WalkCostLower(w);
      } else {
        PoppedOptimal(g, start, exit, astar, q, lastF, W, V, WV, e, w);
      }
    }
  }

  /** Recording an optimal cost with a walk realising it keeps the records settled. */
  lemma {:induction false} SettledRecord(g: Grid, start: Pos, V: map<State, nat>, WV: map<State, seq<State>>, s: State, cost: nat,
                      walk: seq<State>)
    requires Settled(g, start, V, WV) && Optimal(g, start, s, cost)
    requires IsWalk(g, start, walk) && Last(walk) == s && WalkCost(walk) == cost
    ensures Settled(g, start, V[s := cost], WV[s := walk])
  {
  }

  /** Popping a least entry keeps the frontier facts with the popped score as the last one. */
  lemma {:induction false} PopKeeps(g: Grid, start: Pos, exit: Pos, astar: bool, q: seq<Entry>, e: Entry, rest: seq<Entry>,
                 lastF: nat, W: map<Entry, seq<State>>, V: map<State, nat>)
    requires FrontierInv(g, start, exit, astar, q, lastF, W) && VisitedInv(g, start, exit, astar, V, lastF)
    requires e in q && (forall x :: x in rest ==> x in q) && (forall x :: x in q ==> EntryLe(e, x))
    ensures FrontierInv(g, start, exit, astar, rest, e.f, W) && VisitedInv(g, start, exit, astar, V, e.f)
  {
  }

  /** A popped entry whose state is already recorded is never cheaper than the record: it is skipped. */
  lemma {:induction false} RecordedNotCheaper(g: Grid, start: Pos, exit: Pos, astar: bool, e: Entry, V: map<State, nat>)
    requires e.f <= e.g + H(astar, exit, (e.row, e.col)) && (e.facing != Right ==> e.g >= 1000)
    requires VisitedInv(g, start, exit, astar, V, e.f) && StateOf(e) in V
    ensures V[StateOf(e)] <= e.g
  {
  }

  /** Popping an entry whose state is recorded loses nothing. */
  lemma {:induction false} SkipCovered(g: Grid, start: Pos, exit: Pos, V: map<State, nat>, q: seq<Entry>, e: Entry, rest: seq<Entry>)
    requires Covered(g, start, exit, V, q) && StateOf(e) in V
    requires forall x :: x in q && x != e ==> x in rest
    ensures Covered(g, start, exit, V, rest)
  {
    forall t, b | CoveredBy(q, t, b)
      ensures t in V || CoveredBy(rest, t, b)
    {
      var x :| x in q && StateOf(x) == t && x.g <= b;
      if x != e {
        assert x in rest;
      }
    }
  }

  /** Recording a popped exit state, which is not expanded, loses nothing. */
  lemma {:induction false} RecordExitCovered(g: Grid, start: Pos, exit: Pos, V: map<State, nat>, q: seq<Entry>, e: Entry, rest: seq<Entry>)
    requires Covered(g, start, exit, V, q) && StateOf(e) !in V && (e.row, e.col) == exit
    requires forall x :: x in q && x != e ==> x in rest
    ensures Covered(g, start, exit, V[StateOf(e) := e.g], rest)
  {
    var V' := V[StateOf(e) := e.g];
    forall t, b | CoveredBy(q, t, b)
      ensures t in V' || CoveredBy(rest, t, b)
    {
      var x :| x in q && StateOf(x) == t && x.g <= b;
      if x != e {
        assert x in rest;
      }
    }
  }

  /** The walks of the children: the walk of the parent and one more move. */
  ghost function ChildWalks(g: Grid, exit: Pos, astar: bool, e: Entry, W: map<Entry, seq<State>>): map<Entry, seq<State>>
    requires e in W
  {
    map c | c in Children(g, exit, astar, e, 4) :: W[e] + [StateOf(c)]
  }

  /** Expanding the popped entry keeps the frontier facts for the old entries and its children. */
  lemma {:induction false} ExpandFrontier(g: Grid, start: Pos, exit: Pos, astar: bool, e: Entry, rest: seq<Entry>,
                       W: map<Entry, seq<State>>)
    requires e in W && IsWalk(g, start, W[e]) && Last(W[e]) == StateOf(e) && WalkCost(W[e]) == e.g
    requires e.f <= e.g + H(astar, exit, (e.row, e.col)) && (e.facing != Right ==> e.g >= 1000)
    requires FrontierInv(g, start, exit, astar, rest, e.f, W)
    ensures FrontierInv(g, start, exit, astar, rest + Children(g, exit, astar, e, 4), e.f,
                        W + ChildWalks(g, exit, astar, e, W))
  {
    var ch := Children(g, exit, astar, e, 4);
    var W' := W + ChildWalks(g, exit, astar, e, W);
    forall c | c in ch
      ensures && Open(g, (c.row, c.col))
        && e.f <= c.f == c.g + H(astar, exit, (c.row, c.col))
        && (c.facing != Right ==> c.g >= 1000)
        && IsWalk(g, start, W'[c]) && Last(W'[c]) == StateOf(c) && WalkCost(W'[c]) == c.g
    {
      ChildrenExact(g, exit, astar, e, c);
      ManhattanStep((e.row, e.col), c.facing, exit);
      WalkExtend(g, start, W[e], StateOf(c));
    }
    forall x | x in rest + ch
      ensures x in W' && IsWalk(g, start, W'[x]) && Last(W'[x]) == StateOf(x) && WalkCost(W'[x]) == x.g
    {
      if x !in ch {
        assert x in rest;
      }
    }
  }

  /** Recording the popped entry's cost keeps the bound on recorded costs. */
  lemma {:induction false} RecordKeeps(g: Grid, start: Pos, exit: Pos, astar: bool, e: Entry, V: map<State, nat>)
    requires VisitedInv(g, start, exit, astar, V, e.f) && Open(g, (e.row, e.col))
    requires e.f == e.g + H(astar, exit, (e.row, e.col)) || SeedLike(start, exit, astar, e)
    ensures VisitedInv(g, start, exit, astar, V[StateOf(e) := e.g], e.f)
  {
  }

  /** Expanding the popped entry covers every move out of its state, at the cost of the move. */
  lemma {:induction false} ExpandCovered(g: Grid, start: Pos, exit: Pos, astar: bool, q: seq<Entry>, e: Entry, rest: seq<Entry>,
                      V: map<State, nat>)
    requires e in q && Covered(g, start, exit, V, q) && StateOf(e) !in V
    requires forall x :: x in q && x != e ==> x in rest
    ensures Covered(g, start, exit, V[StateOf(e) := e.g], rest + Children(g, exit, astar, e, 4))
  {
    var s := StateOf(e);
    var V' := V[s := e.g];
    var ch := Children(g, exit, astar, e, 4);
    var q' := rest + ch;
    forall t, b | CoveredBy(q, t, b)
      ensures t in V' || CoveredBy(q', t, b)
    {
      var x :| x in q && StateOf(x) == t && x.g <= b;
      if x != e {
        assert x in q';
      }
    }
    forall t | Step(g, s, t)
      ensures CoveredBy(q', t, e.g + TurnCost(s.facing, t.facing))
    {
      ChildrenCover(g, exit, astar, e, t);
      var x :| x in ch && StateOf(x) == t && x.g <= e.g + TurnCost(s.facing, t.facing);
      assert x in q';
    }
  }

  /** The seeds satisfy the frontier facts, each with the one-state walk of its start state. */
  lemma {:induction false} SeedsFrontier(g: Grid, start: Pos, exit: Pos, astar: bool, W: map<Entry, seq<State>>)
    requires Open(g, start) && W == map x | x in Seeds(start, exit, astar) :: [StateOf(x)]
    ensures FrontierInv(g, start, exit, astar, Seeds(start, exit, astar), if astar then H(astar, exit, start) else 0, W)
  {
    var q := Seeds(start, exit, astar);
    forall x | x in q
      ensures x in W && IsWalk(g, start, W[x]) && Last(W[x]) == StateOf(x) && WalkCost(W[x]) == x.g
    {
      assert W[x] == [StateOf(x)];
    }
    forall x | x in q
      ensures && Open(g, (x.row, x.col))
        && (if astar then H(astar, exit, start) else 0) <= x.f <= x.g + H(astar, exit, (x.row, x.col))
        && (x.f == x.g + H(astar, exit, (x.row, x.col)) || SeedLike(start, exit, astar, x))
        && (x.facing != Right ==> x.g >= 1000)
    {
      assert x == q[0] || x == q[1] || x == q[2] || x == q[3];
    }
  }

  /** The seeds cover every start state at its seed cost, with nothing recorded yet. */
  lemma {:induction false} SeedsCover(g: Grid, start: Pos, exit: Pos, astar: bool)
    ensures Covered(g, start, exit, map[], Seeds(start, exit, astar))
  {
    var q := Seeds(start, exit, astar);
    forall d: Direction
      ensures CoveredBy(q, State(start, d), SeedCost(d))
    {
      assert StateOf(q[DirIndex(d)]) == State(start, d);
    }
  }

  ghost predicate Unvisited(g: Grid, V: map<State, nat>, unvisited: set<(int, int, int)>)
  {
    forall s: State :: InGrid(g, s.pos) && s !in V ==> Index(s) in unvisited
  }

  lemma {:induction false} IndexInjective(s: State, t: State)
    requires Index(s) == Index(t)
    ensures s == t
  {
  }

  /** `visited[[row, col, direction as usize]]`. */
  method Recorded(g: Grid, visited: array3<Option<nat>>, s: State, ghost V: map<State, nat>) returns (r: Option<nat>)
    requires Mirrors(g, visited, V) && InGrid(g, s.pos)
    ensures r == if s in V then Some(V[s]) else None
  {
    r := visited[s.pos.0, s.pos.1, DirIndex(s.facing)];
  }

  /** `visited[[row, col, direction as usize]] = Some(g_score)`. */
  method Record(g: Grid, visited: array3<Option<nat>>, s: State, cost: nat, ghost V: map<State, nat>)
    requires Mirrors(g, visited, V) && InGrid(g, s.pos)
    modifies visited
    ensures Mirrors(g, visited, V[s := cost])
  {
    visited[s.pos.0, s.pos.1, DirIndex(s.facing)] := Some(cost);
    forall t: State | InGrid(g, t.pos)
      ensures visited[t.pos.0, t.pos.1, DirIndex(t.facing)] == if t in V[s := cost] then Some(V[s := cost][t]) else None
    {
      if Index(t) == Index(s) {
        IndexInjective(s, t);
      }
    }
  }

  /** Recording a state takes its index out of the never recorded ones. */
  lemma {:induction false} UnvisitedRecord(g: Grid, V: map<State, nat>, unvisited: set<(int, int, int)>, s: State, cost: nat)
    requires Unvisited(g, V, unvisited)
    ensures Unvisited(g, V[s := cost], unvisited - {Index(s)})
  {
    forall t: State | InGrid(g, t.pos) && t !in V[s := cost]
      ensures Index(t) in unvisited - {Index(s)}
    {
      if Index(t) == Index(s) {
        IndexInjective(s, t);
      }
    }
  }

  lemma {:induction false} UnvisitedInit(g: Grid, unvisited: set<(int, int, int)>)
    requires unvisited == set r, c, k | 0 <= r < |g| && 0 <= c < Cols(g) && 0 <= k < 4 :: (r, c, k)
    ensures Unvisited(g, map[], unvisited)
  {
    forall s: State | InGrid(g, s.pos)
      ensures Index(s) in unvisited
    {
      var (r, c, k) := Index(s);
      assert 0 <= r < |g| && 0 <= c < Cols(g) && 0 <= k < 4;
    }
  }

  /** Some walk from `start` ends on `exit`. */
  ghost predicate Reachable(g: Grid, start: Pos, exit: Pos)
  {
    exists w :: IsWalk(g, start, w) && Last(w).pos == exit
  }

  /** `cost` is the least cost of a walk from `start` to `exit`, with any final facing. */
  ghost predicate MinCost(g: Grid, start: Pos, exit: Pos, cost: nat)
  {
    && (exists w :: IsWalk(g, start, w) && Last(w).pos == exit && WalkCost(w) == cost)
    && forall w :: IsWalk(g, start, w) && Last(w).pos == exit ==> cost <= WalkCost(w)
  }

  /** With an empty frontier and no recorded exit state, no walk reaches the exit. */
  lemma {:induction false} Unreachable(g: Grid, start: Pos, exit: Pos, V: map<State, nat>, WV: map<State, seq<State>>)
    requires Covered(g, start, exit, V, []) && Settled(g, start, V, WV)
    requires forall s :: s in V ==> s.pos != exit
    ensures !Reachable(g, start, exit)
  {
    forall w | IsWalk(g, start, w)
      ensures Last(w).pos != exit
    {
      if Last(w).pos == exit {
        var i, x, passesExit := FirstUnrecorded(g, start, exit, V, WV, [], w);
      }
    }
  }

  /** The invariants of `AStar`'s loop that do not mention the heap. */
  ghost predicate AStarInv(g: Grid, start: Pos, exit: Pos, q: seq<Entry>, lastF: nat, W: map<Entry, seq<State>>,
                           V: map<State, nat>, WV: map<State, seq<State>>)
  {
    && FrontierInv(g, start, exit, true, q, lastF, W)
    && VisitedInv(g, start, exit, true, V, lastF)
    && Covered(g, start, exit, V, q)
    && Settled(g, start, V, WV)
    && (forall s :: s in V ==> s.pos != exit)
    && (start == exit ==> Entry(0, 0, start.0, start.1, Right) in q)
  }

  /** The seeds satisfy `AStar`'s loop invariants. */
  lemma {:induction false} AStarInit(g: Grid, start: Pos, exit: Pos, W: map<Entry, seq<State>>)
    requires Open(g, start) && W == map x | x in Seeds(start, exit, true) :: [StateOf(x)]
    ensures AStarInv(g, start, exit, Seeds(start, exit, true), Manhattan(start, exit), W, map[], map[])
  {
    SeedsFrontier(g, start, exit, true, W);
    SeedsCover(g, start, exit, true);
    assert Seeds(start, exit, true)[3] == Entry(Manhattan(start, exit), 0, start.0, start.1, Right);
  }

  /** Popping an entry that is not on the exit and skipping it keeps the loop invariants. */
  lemma {:induction false} AStarSkip(g: Grid, start: Pos, exit: Pos, q: seq<Entry>, lastF: nat, W: map<Entry, seq<State>>,
                  V: map<State, nat>, WV: map<State, seq<State>>, e: Entry, rest: seq<Entry>)
    requires AStarInv(g, start, exit, q, lastF, W, V, WV) && StateOf(e) in V && (e.row, e.col) != exit
    requires e in q && (forall x :: x in rest ==> x in q) && (forall x :: x in q && x != e ==> x in rest)
    requires forall x :: x in q ==> EntryLe(e, x)
    ensures AStarInv(g, start, exit, rest, e.f, W, V, WV)
  {
    PopKeeps(g, start, exit, true, q, e, rest, lastF, W, V);
    SkipCovered(g, start, exit, V, q, e, rest);
  }

  /**
   * Popping an entry that is not on the exit and whose state is not recorded, recording it and
   * pushing its children keeps the loop invariants.
   */
  lemma {:induction false} AStarExpand(g: Grid, start: Pos, exit: Pos, q: seq<Entry>, lastF: nat, W: map<Entry, seq<State>>,
                    V: map<State, nat>, WV: map<State, seq<State>>, e: Entry, rest: seq<Entry>)
    requires AStarInv(g, start, exit, q, lastF, W, V, WV) && (e.row, e.col) != exit && StateOf(e) !in V
    requires e in q && (forall x :: x in rest ==> x in q) && (forall x :: x in q && x != e ==> x in rest)
    requires forall x :: x in q ==> EntryLe(e, x)
    ensures AStarInv(g, start, exit, rest + Children(g, exit, true, e, 4), e.f,
                     W + ChildWalks(g, exit, true, e, W), V[StateOf(e) := e.g], WV[StateOf(e) := W[e]])
  {
    PopKeeps(g, start, exit, true, q, e, rest, lastF, W, V);
    ExpandFrontier(g, start, exit, true, e, rest, W);
    RecordKeeps(g, start, exit, true, e, V);
    ExpandCovered(g, start, exit, true, q, e, rest, V);
    RecordOptimal(g, start, exit, true, q, lastF, W, V, WV, e);
    SettledRecord(g, start, V, WV, StateOf(e), e.g, W[e]);
  }

  /** The first exit entry popped carries the least cost of any walk to the exit. */
  lemma {:induction false} AStarExit(g: Grid, start: Pos, exit: Pos, q: seq<Entry>, lastF: nat, W: map<Entry, seq<State>>,
                  V: map<State, nat>, WV: map<State, seq<State>>, e: Entry)
    requires AStarInv(g, start, exit, q, lastF, W, V, WV) && (e.row, e.col) == exit
    requires e in q && forall x :: x in q ==> EntryLe(e, x)
    ensures MinCost(g, start, exit, e.g)
  {
    if (e.row, e.col) == start {
      assert EntryLe(e, Entry(0, 0, start.0, start.1, Right));
    }
    assert e.f == e.g;
    forall w | IsWalk(g, start, w) && Last(w).pos == exit
      ensures e.g <= WalkCost(w)
    {
      PoppedOptimal(g, start, exit, true, q, lastF, W, V, WV, e, w);
    }
  }

  /**
   * One turn of `AStar`'s loop: pop the least entry; return its cost if it is on the exit; skip
   * it if its state is already recorded at no higher cost; otherwise record it and push its
   * neighbours. The states never recorded, then the frontier, get smaller.
   */
  method AStarStep(g: Grid, start: Pos, exit: Pos, visited: array3<Option<nat>>, q: seq<Entry>,
                   ghost lastF: nat, ghost W: map<Entry, seq<State>>, ghost V: map<State, nat>,
                   ghost WV: map<State, seq<State>>, ghost unvisited: set<(int, int, int)>)
    returns (found: Option<nat>, q': seq<Entry>, ghost lastF': nat, ghost W': map<Entry, seq<State>>,
             ghost V': map<State, nat>, ghost WV': map<State, seq<State>>, ghost unvisited': set<(int, int, int)>)
    requires q != [] && AStarInv(g, start, exit, q, lastF, W, V, WV) && Mirrors(g, visited, V)
    requires Unvisited(g, V, unvisited)
    modifies visited
    ensures found.Some? ==> MinCost(g, start, exit, found.value)
    ensures found.None? ==>
      && AStarInv(g, start, exit, q', lastF', W', V', WV') && Mirrors(g, visited, V') && Unvisited(g, V', unvisited')
      && (unvisited' < unvisited || (unvisited' == unvisited && |q'| < |q|))
  {
    var e, rest := PopMin(q);
    lastF', W', V', WV', unvisited' := e.f, W, V, WV, unvisited;
    q' := rest;
    if (e.row, e.col) == exit {
      AStarExit(g, start, exit, q, lastF, W, V, WV, e);
      found := Some(e.g);
      return;
    }
    found := None;
    var s := StateOf(e);
    assert InGrid(g, s.pos);
    var previous := Recorded(g, visited, s, V);
    if previous.Some? && previous.value <= e.g {
      AStarSkip(g, start, exit, q, lastF, W, V, WV, e, rest);
      return;
    }
    if s in V {
      PopKeeps(g, start, exit, true, q, e, rest, lastF, W, V);
      RecordedNotCheaper(g, start, exit, true, e, V);
    }
    AStarExpand(g, start, exit, q, lastF, W, V, WV, e, rest);
    Record(g, visited, s, e.g, V);
    UnvisitedRecord(g, V, unvisited, s, e.g);
    V', WV' := V[s := e.g], WV[s := W[e]];
    W' := W + ChildWalks(g, exit, true, e, W);
    unvisited' := unvisited - {Index(s)};
    q' := Expand(g, exit, true, e, rest);
  }

  /**
   * The A* of `day_16_part_1` from `start`: the cost of the first exit state popped, or -1 once
   * the frontier is empty. A returned cost is the least cost of a walk to the exit, and -1 comes
   * exactly when no walk reaches the exit.
   */
  method AStar(g: Grid, start: Pos, exit: Pos) returns (cost: int)
    requires Open(g, start)
    ensures cost >= -1
    ensures cost >= 0 ==> MinCost(g, start, exit, cost)
    ensures cost == -1 <==> !Reachable(g, start, exit)
  {
    var q := Seeds(start, exit, true);
    var visited := new Option<nat>[|g|, Cols(g), 4]((_, _, _) => None);
    ghost var V: map<State, nat> := map[];
    ghost var WV: map<State, seq<State>> := map[];
    ghost var W: map<Entry, seq<State>> := map x | x in q :: [StateOf(x)];
    ghost var lastF: nat := Manhattan(start, exit);
    ghost var unvisited := set r, c, k | 0 <= r < |g| && 0 <= c < Cols(g) && 0 <= k < 4 :: (r, c, k);
    AStarInit(g, start, exit, W);
    UnvisitedInit(g, unvisited);
    var found: Option<nat> := None;
    while q != []
      invariant AStarInv(g, start, exit, q, lastF, W, V, WV) && Mirrors(g, visited, V) && Unvisited(g, V, unvisited)
      decreases unvisited, |q|
    {
      found, q, lastF, W, V, WV, unvisited := AStarStep(g, start, exit, visited, q, lastF, W, V, WV, unvisited);
      if found.Some? {
        return found.value;
      }
    }
    Unreachable(g, start, exit, V, WV);
    return -1;
  }

  /** The cell `p` is the last one holding `x` in row-major order. */
  ghost predicate IsLast(g: Grid, x: Cell, p: Pos)
    requires Rect(g)
  {
    InGrid(g, p) && At(g, p) == x && forall p' :: InGrid(g, p') && Before(p, p') ==> At(g, p') != x
  }

  /** There is only one last cell holding a value. */
  lemma {:induction false} IsLastUnique(g: Grid, x: Cell, p: Pos, p': Pos)
    requires Rect(g) && IsLast(g, x, p) && IsLast(g, x, p')
    ensures p == p'
  {
    assert !Before(p, p') && !Before(p', p);
  }

  /**
   * `day_16_part_1` on a parsed map: the least cost from the last `S` to the last `E`, or -1 when
   * the exit cannot be reached.
   */
  method Part1(g: Grid) returns (cost: int)
    requires Rect(g)
    requires exists p :: InGrid(g, p) && At(g, p) == Start
    requires exists p :: InGrid(g, p) && At(g, p) == Exit
    ensures forall start, exit :: IsLast(g, Start, start) && IsLast(g, Exit, exit) ==>
      && (cost >= 0 ==> MinCost(g, start, exit, cost))
      && (cost == -1 <==> !Reachable(g, start, exit))
      && cost >= -1
  {
    var start, exit := FindStartAndExit(g);
    cost := AStar(g, start, exit);
    forall start', exit' | IsLast(g, Start, start') && IsLast(g, Exit, exit')
      ensures start' == start && exit' == exit
    {
      IsLastUnique(g, Start, start, start');
      IsLastUnique(g, Exit, exit, exit');
    }
  }

  /** A walk that does not pass the exit before its last state. */
  predicate AvoidsExit(exit: Pos, w: seq<State>)
  {
    forall i :: 0 <= i < |w| - 1 ==> w[i].pos != exit
  }

  /** Every walk costing at most `best` that does not pass the exit before its end ends on a recorded state. */
  ghost predicate Complete(g: Grid, start: Pos, exit: Pos, V: map<State, nat>, best: nat)
  {
    forall w :: IsWalk(g, start, w) && WalkCost(w) <= best && AvoidsExit(exit, w) ==> Last(w) in V
  }

  /**
   * The invariants of part 2's search loop: those of the A* without heuristic, and `found` is the
   * cost of every recorded exit state, which is also the last popped score, once there is one.
   */
  ghost predicate ExploreInv(g: Grid, start: Pos, exit: Pos, q: seq<Entry>, lastF: nat, W: map<Entry, seq<State>>,
                             V: map<State, nat>, WV: map<State, seq<State>>, found: Option<nat>)
  {
    && FrontierInv(g, start, exit, false, q, lastF, W)
    && VisitedInv(g, start, exit, false, V, lastF)
    && Covered(g, start, exit, V, q)
    && Settled(g, start, V, WV)
    && FoundInv(exit, V, lastF, found)
  }

  /** `found` is the cost of every recorded exit state, and the last popped score, once there is one. */
  ghost predicate FoundInv(exit: Pos, V: map<State, nat>, lastF: nat, found: Option<nat>)
  {
    && (found.None? ==> forall u :: u in V ==> u.pos != exit)
    && (found.Some? ==>
      && lastF == found.value
      && (exists d :: State(exit, d) in V)
      && forall u :: u in V && u.pos == exit ==> V[u] == found.value)
  }

  /** Popping an entry no dearer than the exit cost and recording it off the exit keeps the found facts. */
  lemma {:induction false} FoundPop(exit: Pos, V: map<State, nat>, lastF: nat, found: Option<nat>, e: Entry, record: bool)
    requires FoundInv(exit, V, lastF, found) && lastF <= e.f == e.g
    requires found.Some? ==> e.g <= found.value
    requires record ==> (e.row, e.col) != exit
    ensures FoundInv(exit, if record then V[StateOf(e) := e.g] else V, e.f, found)
  {
  }

  /** Recording a popped exit state sets the exit cost to its cost. */
  lemma {:induction false} FoundExit(exit: Pos, V: map<State, nat>, lastF: nat, found: Option<nat>, e: Entry)
    requires FoundInv(exit, V, lastF, found) && lastF <= e.f == e.g && (e.row, e.col) == exit
    requires found.Some? ==> e.g <= found.value
    ensures FoundInv(exit, V[StateOf(e) := e.g], e.f, Some(e.g))
  {
    assert State(exit, e.facing) in V[StateOf(e) := e.g];
  }

  /** The seeds satisfy the search loop's invariants. */
  lemma {:induction false} ExploreInit(g: Grid, start: Pos, exit: Pos, W: map<Entry, seq<State>>)
    requires Open(g, start) && W == map x | x in Seeds(start, exit, false) :: [StateOf(x)]
    ensures ExploreInv(g, start, exit, Seeds(start, exit, false), 0, W, map[], map[], None)
  {
    SeedsFrontier(g, start, exit, false, W);
    SeedsCover(g, start, exit, false);
  }

  /** Popping an entry whose state is recorded at no higher cost and skipping it keeps the invariants. */
  lemma {:induction false} ExploreSkip(g: Grid, start: Pos, exit: Pos, q: seq<Entry>, lastF: nat, W: map<Entry, seq<State>>,
                    V: map<State, nat>, WV: map<State, seq<State>>, found: Option<nat>, e: Entry, rest: seq<Entry>)
    requires ExploreInv(g, start, exit, q, lastF, W, V, WV, found) && StateOf(e) in V
    requires found.Some? ==> e.g <= found.value
    requires e in q && (forall x :: x in rest ==> x in q) && (forall x :: x in q && x != e ==> x in rest)
    requires forall x :: x in q ==> EntryLe(e, x)
    ensures ExploreInv(g, start, exit, rest, e.f, W, V, WV, found)
  {
    PopKeeps(g, start, exit, false, q, e, rest, lastF, W, V);
    SkipCovered(g, start, exit, V, q, e, rest);
    FoundPop(exit, V, lastF, found, e, false);
  }

  /** Recording a popped exit state at its cost and not expanding it keeps the invariants. */
  lemma {:induction false} ExploreExit(g: Grid, start: Pos, exit: Pos, q: seq<Entry>, lastF: nat, W: map<Entry, seq<State>>,
                    V: map<State, nat>, WV: map<State, seq<State>>, found: Option<nat>, e: Entry, rest: seq<Entry>)
    requires ExploreInv(g, start, exit, q, lastF, W, V, WV, found) && StateOf(e) !in V && (e.row, e.col) == exit
    requires found.Some? ==> e.g <= found.value
    requires e in q && (forall x :: x in rest ==> x in q) && (forall x :: x in q && x != e ==> x in rest)
    requires forall x :: x in q ==> EntryLe(e, x)
    ensures ExploreInv(g, start, exit, rest, e.f, W, V[StateOf(e) := e.g], WV[StateOf(e) := W[e]], Some(e.g))
  {
    PopKeeps(g, start, exit, false, q, e, rest, lastF, W, V);
    RecordKeeps(g, start, exit, false, e, V);
    RecordExitCovered(g, start, exit, V, q, e, rest);
    RecordOptimal(g, start, exit, false, q, lastF, W, V, WV, e);
    SettledRecord(g, start, V, WV, StateOf(e), e.g, W[e]);
    FoundExit(exit, V, lastF, found, e);
  }

  /** Recording a popped state off the exit and pushing its children keeps the invariants. */
  lemma {:induction false} ExploreExpand(g: Grid, start: Pos, exit: Pos, q: seq<Entry>, lastF: nat, W: map<Entry, seq<State>>,
                      V: map<State, nat>, WV: map<State, seq<State>>, found: Option<nat>, e: Entry, rest: seq<Entry>)
    requires ExploreInv(g, start, exit, q, lastF, W, V, WV, found) && StateOf(e) !in V && (e.row, e.col) != exit
    requires found.Some? ==> e.g <= found.value
    requires e in q && (forall x :: x in rest ==> x in q) && (forall x :: x in q && x != e ==> x in rest)
    requires forall x :: x in q ==> EntryLe(e, x)
    ensures ExploreInv(g, start, exit, rest + Children(g, exit, false, e, 4), e.f,
                       W + ChildWalks(g, exit, false, e, W), V[StateOf(e) := e.g], WV[StateOf(e) := W[e]], found)
  {
    PopKeeps(g, start, exit, false, q, e, rest, lastF, W, V);
    ExpandFrontier(g, start, exit, false, e, rest, W);
    RecordKeeps(g, start, exit, false, e, V);
    ExpandCovered(g, start, exit, false, q, e, rest, V);
    RecordOptimal(g, start, exit, false, q, lastF, W, V, WV, e);
    SettledRecord(g, start, V, WV, StateOf(e), e.g, W[e]);
    FoundPop(exit, V, lastF, found, e, true);
  }

  /**
   * One turn of part 2's search loop: pop the least entry; stop once it costs more than the exit;
   * skip it if its state is recorded at no higher cost; otherwise record it, and then note the
   * cost if it is on the exit or push its neighbours if not.
   */
  method ExploreStep(g: Grid, start: Pos, exit: Pos, visited: array3<Option<nat>>, q: seq<Entry>,
                     ghost lastF: nat, ghost W: map<Entry, seq<State>>, ghost V: map<State, nat>,
                     ghost WV: map<State, seq<State>>, found: Option<nat>, ghost unvisited: set<(int, int, int)>)
    returns (stop: bool, q': seq<Entry>, ghost lastF': nat, ghost W': map<Entry, seq<State>>,
             ghost V': map<State, nat>, ghost WV': map<State, seq<State>>, found': Option<nat>,
             ghost unvisited': set<(int, int, int)>)
    requires q != [] && ExploreInv(g, start, exit, q, lastF, W, V, WV, found) && Mirrors(g, visited, V)
    requires Unvisited(g, V, unvisited)
    modifies visited
    ensures ExploreInv(g, start, exit, q', lastF', W', V', WV', found') && Mirrors(g, visited, V')
    ensures stop ==> q' == q && found'.Some? && forall x :: x in q ==> x.g > found'.value
    ensures Unvisited(g, V', unvisited')
    ensures !stop ==> (unvisited' < unvisited || (unvisited' == unvisited && |q'| < |q|))
  {
    var e, rest := PopMin(q);
    q', lastF', W', V', WV', found', unvisited' := q, lastF, W, V, WV, found, unvisited;
    if found.Some? && e.g > found.value {
      forall x | x in q
        ensures x.g > found.value
      {
        assert EntryLe(e, x);
      }
      return true, q', lastF', W', V', WV', found', unvisited';
    }
    stop := false;
    q', lastF' := rest, e.f;
    var s := StateOf(e);
    assert Open(g, s.pos);
    var previous := Recorded(g, visited, s, V);
    if previous.Some? && previous.value <= e.g {
      ExploreSkip(g, start, exit, q, lastF, W, V, WV, found, e, rest);
      return;
    }
    if s in V {
      PopKeeps(g, start, exit, false, q, e, rest, lastF, W, V);
      RecordedNotCheaper(g, start, exit, false, e, V);
    }
    Record(g, visited, s, e.g, V);
    UnvisitedRecord(g, V, unvisited, s, e.g);
    V', WV', unvisited' := V[s := e.g], WV[s := W[e]], unvisited - {Index(s)};
    if (e.row, e.col) == exit {
      ExploreExit(g, start, exit, q, lastF, W, V, WV, found, e, rest);
      found' := Some(e.g);
      return;
    }
    ExploreExpand(g, start, exit, q, lastF, W, V, WV, found, e, rest);
    W' := W + ChildWalks(g, exit, false, e, W);
    q' := Expand(g, exit, false, e, rest);
  }

  /**
   * Once every frontier entry costs more than `best`, the cost of every recorded exit state, no
   * walk reaches the exit for less than `best`.
   */
  lemma {:induction false} ExitCostLeast(g: Grid, start: Pos, exit: Pos, q: seq<Entry>, V: map<State, nat>, WV: map<State, seq<State>>,
                      best: nat, w: seq<State>)
    requires Covered(g, start, exit, V, q) && Settled(g, start, V, WV)
    requires forall u :: u in V && u.pos == exit ==> V[u] == best
    requires forall x :: x in q ==> x.g > best
    requires IsWalk(g, start, w) && Last(w).pos == exit
    ensures best <= WalkCost(w)
  {
    if Last(w) !in V {
      var i, x, passesExit := FirstUnrecorded(g, start, exit, V, WV, q, w);
      WalkPrefix(g, start, w, i + 1);
      PrefixCost(g, start, exit, false, w, i + 1);
      if passesExit {
        assert V[w[i]] <= WalkCost(w[..i + 1]);
      }
    }
  }

  /** In the same situation, every walk no dearer than `best` that avoids the exit ends on a recorded state. */
  lemma {:induction false} ExitComplete(g: Grid, start: Pos, exit: Pos, q: seq<Entry>, V: map<State, nat>, WV: map<State, seq<State>>,
                     best: nat, w: seq<State>)
    requires Covered(g, start, exit, V, q) && Settled(g, start, V, WV)
    requires forall x :: x in q ==> x.g > best
    requires IsWalk(g, start, w) && WalkCost(w) <= best && AvoidsExit(exit, w)
    ensures Last(w) in V
  {
    if Last(w) !in V {
      var i, x, passesExit := FirstUnrecorded(g, start, exit, V, WV, q, w);
      PrefixCost(g, start, exit, false, w, i + 1);
    }
  }

  /**
   * When the search stops, with an empty frontier or on an entry dearer than the exit: an exit
   * cost was found exactly when the exit is reachable; it is then the least cost of a walk to the
   * exit, and every walk no dearer that does not pass the exit earlier ends on a recorded state.
   */
  lemma {:induction false} ExploreDone(g: Grid, start: Pos, exit: Pos, q: seq<Entry>, lastF: nat, W: map<Entry, seq<State>>,
                    V: map<State, nat>, WV: map<State, seq<State>>, found: Option<nat>)
    requires ExploreInv(g, start, exit, q, lastF, W, V, WV, found)
    requires q == [] || (found.Some? && forall x :: x in q ==> x.g > found.value)
    ensures found.Some? <==> Reachable(g, start, exit)
    ensures found.Some? ==> MinCost(g, start, exit, found.value) && Complete(g, start, exit, V, found.value)
  {
    if found.None? {
      Unreachable(g, start, exit, V, WV);
      return;
    }
    var best := found.value;
    var d :| State(exit, d) in V;
    assert IsWalk(g, start, WV[State(exit, d)]) && Last(WV[State(exit, d)]).pos == exit;
    forall w | IsWalk(g, start, w) && Last(w).pos == exit
      ensures best <= WalkCost(w)
    {
      ExitCostLeast(g, start, exit, q, V, WV, best, w);
    }
    forall w | IsWalk(g, start, w) && WalkCost(w) <= best && AvoidsExit(exit, w)
      ensures Last(w) in V
    {
      ExitComplete(g, start, exit, q, V, WV, best, w);
    }
  }

  /**
   * The search of `day_16_part_2` (Dijkstra's algorithm: the A* loop without heuristic) from
   * `start`. It also records the exit states and goes on until an entry costs more than the
   * exit. Its `visited` array holds costs `V` that are each the least cost of their state.
   */
  method Explore(g: Grid, start: Pos, exit: Pos)
    returns (found: Option<nat>, visited: array3<Option<nat>>, ghost V: map<State, nat>, ghost WV: map<State, seq<State>>)
    requires Open(g, start)
    ensures fresh(visited) && Mirrors(g, visited, V) && Settled(g, start, V, WV)
    ensures forall s :: s in V ==> Open(g, s.pos)
    ensures found.Some? <==> Reachable(g, start, exit)
    ensures found.Some? ==> && MinCost(g, start, exit, found.value) && Complete(g, start, exit, V, found.value)
                            && forall u :: u in V && u.pos == exit ==> V[u] == found.value
  {
    var q := Seeds(start, exit, false);
    visited := new Option<nat>[|g|, Cols(g), 4]((_, _, _) => None);
    V, WV := map[], map[];
    ghost var W: map<Entry, seq<State>> := map x | x in q :: [StateOf(x)];
    ghost var lastF: nat := 0;
    ghost var unvisited := set r, c, k | 0 <= r < |g| && 0 <= c < Cols(g) && 0 <= k < 4 :: (r, c, k);
    ExploreInit(g, start, exit, W);
    UnvisitedInit(g, unvisited);
    found := None;
    var stop := false;
    while q != [] && !stop
      invariant ExploreInv(g, start, exit, q, lastF, W, V, WV, found) && Mirrors(g, visited, V)
      invariant Unvisited(g, V, unvisited) && fresh(visited)
      invariant stop ==> found.Some? && forall x :: x in q ==> x.g > found.value
      decreases !stop, unvisited, |q|
    {
      stop, q, lastF, W, V, WV, found, unvisited := ExploreStep(g, start, exit, visited, q, lastF, W, V, WV, found, unvisited);
    }
    ExploreDone(g, start, exit, q, lastF, W, V, WV, found);
  }

  /** An entry of the backtracking pile: a state and the score it is met with. */
  datatype Trail = Trail(state: State, score: nat)

  function Opposite(d: Direction): Direction
  {
    match d
    case Up => Down
    case Down => Up
    case Left => Right
    case Right => Left
  }

  /** The cell a state is entered from: one cell back against its facing. */
  function Behind(s: State): Pos
  {
    Move(s.pos, Opposite(s.facing))
  }

  /** Only the cell behind leads to a state with a move in its facing. */
  lemma {:induction false} MoveBehind(p: Pos, s: State)
    ensures Move(p, s.facing) == s.pos <==> p == Behind(s)
  {
  }

  /** The pile entry the source pushes for the exit state facing `d`, if it is recorded at the exit cost. */
  ghost function ExitRoot(exit: Pos, V: map<State, nat>, best: nat, d: Direction): seq<Trail>
  {
    if State(exit, d) in V && V[State(exit, d)] == best then [Trail(State(exit, d), best)] else []
  }

  /** The initial pile, in the order Up, Down, Left, Right. */
  ghost function Roots(exit: Pos, V: map<State, nat>, best: nat): seq<Trail>
  {
    ExitRoot(exit, V, best, Up) + ExitRoot(exit, V, best, Down) + ExitRoot(exit, V, best, Left)
      + ExitRoot(exit, V, best, Right)
  }

  lemma {:induction false} RootsMeaning(exit: Pos, V: map<State, nat>, best: nat, x: Trail)
    ensures x in Roots(exit, V, best) <==> x.state.pos == exit && x.state in V && V[x.state] == best && x.score == best
  {
    if x.state.pos == exit && x.state in V && V[x.state] == best && x.score == best {
      var r := ExitRoot(exit, V, best, x.state.facing);
      assert r == [x];
      match x.state.facing
      case Up => assert Roots(exit, V, best)[0] == x;
      case Down => assert x in ExitRoot(exit, V, best, Down);
      case Left => assert x in ExitRoot(exit, V, best, Left);
      case Right => assert x in ExitRoot(exit, V, best, Right);
    }
  }

  /**
   * One step back from `p`: a recorded state in the cell behind `p`'s state, whose recorded cost
   * plus the move into `p`'s state is `p`'s score. Nothing goes back from the start cell.
   */
  ghost predicate BackStep(start: Pos, V: map<State, nat>, p: Trail, t: Trail)
  {
    && p.state.pos != start
    && Move(t.state.pos, p.state.facing) == p.state.pos
    && t.state in V && V[t.state] == t.score
    && t.score + TurnCost(t.state.facing, p.state.facing) == p.score
  }

  /** A chain of back steps from an entry of `from`. */
  ghost predicate BackPath(start: Pos, V: map<State, nat>, from: seq<Trail>, path: seq<Trail>)
  {
    |path| >= 1 && path[0] in from && forall i :: 0 <= i < |path| - 1 ==> BackStep(start, V, path[i], path[i + 1])
  }

  ghost predicate Reaches(start: Pos, V: map<State, nat>, from: seq<Trail>, x: Trail)
  {
    exists path :: BackPath(start, V, from, path) && path[|path| - 1] == x
  }

  lemma {:induction false} ReachesStep(start: Pos, V: map<State, nat>, from: seq<Trail>, p: Trail, t: Trail)
    requires Reaches(start, V, from, p) && BackStep(start, V, p, t)
    ensures Reaches(start, V, from, t)
  {
    var path :| BackPath(start, V, from, path) && path[|path| - 1] == p;
    var path' := path + [t];
    forall i | 0 <= i < |path'| - 1
      ensures BackStep(start, V, path'[i], path'[i + 1])
    {
      if i < |path| - 1 {
        assert path'[i] == path[i] && path'[i + 1] == path[i + 1];
      }
    }
    assert BackPath(start, V, from, path');
  }

  /** The cells of the entries reached back from `roots`. */
  ghost predicate MarkedCell(start: Pos, V: map<State, nat>, roots: seq<Trail>, c: Pos)
  {
    exists x :: Reaches(start, V, roots, x) && x.state.pos == c
  }

  ghost function ClosureCells(g: Grid, start: Pos, V: map<State, nat>, roots: seq<Trail>): set<Pos>
  {
    set r, c | 0 <= r < |g| && 0 <= c < Cols(g) && MarkedCell(start, V, roots, (r, c)) :: (r, c)
  }

  const BackDirs: seq<Direction> := [Down, Up, Left, Right]

  /**
   * The entry pushed for facing `d` from `p`: the state facing `d` in the cell behind `p`'s
   * state, if its recorded cost is `p`'s score less the cost of the move into `p`'s state.
   */
  ghost function Candidate(V: map<State, nat>, p: Trail, d: Direction): seq<Trail>
  {
    var t := State(Behind(p.state), d);
    if t in V && V[t] == p.score - TurnCost(d, p.state.facing) then [Trail(t, V[t])] else []
  }

  /** The entries pushed for the first `n` facings of the backtracking loop. */
  ghost function Candidates(V: map<State, nat>, p: Trail, n: nat): seq<Trail>
    requires n <= 4
  {
    if n == 0 then [] else Candidates(V, p, n - 1) + Candidate(V, p, BackDirs[n - 1])
  }

  /** Off the start cell, the pushed entries are exactly the back steps. */
  lemma {:induction false} CandidatesExact(start: Pos, V: map<State, nat>, p: Trail, t: Trail)
    requires p.state.pos != start
    ensures t in Candidates(V, p, 4) <==> BackStep(start, V, p, t)
  {
    assert Candidates(V, p, 4) == Candidate(V, p, Down) + Candidate(V, p, Up) + Candidate(V, p, Left)
      + Candidate(V, p, Right) by {
      assert Candidates(V, p, 1) == Candidate(V, p, Down);
      assert Candidates(V, p, 2) == Candidate(V, p, Down) + Candidate(V, p, Up);
    }
    MoveBehind(t.state.pos, p.state);
    assert t in Candidate(V, p, t.state.facing) <==> BackStep(start, V, p, t);
  }

  /**
   * The candidates as the source writes them: a recorded state with any facing in any of the four
   * neighbouring cells (offsets up, down, left, right), not only in the cell behind.
   */
  ghost function CandidateAsWritten(V: map<State, nat>, p: Trail, d: Direction, offset: Direction): seq<Trail>
  {
    var t := State(Move(p.state.pos, offset), d);
    if t in V && V[t] == p.score - TurnCost(d, p.state.facing) then [Trail(t, V[t])] else []
  }

  ghost function CandidatesAsWrittenFor(V: map<State, nat>, p: Trail, d: Direction): seq<Trail>
  {
    CandidateAsWritten(V, p, d, Up) + CandidateAsWritten(V, p, d, Down) + CandidateAsWritten(V, p, d, Left)
      + CandidateAsWritten(V, p, d, Right)
  }

  ghost function CandidatesAsWritten(V: map<State, nat>, p: Trail): seq<Trail>
  {
    CandidatesAsWrittenFor(V, p, Down) + CandidatesAsWrittenFor(V, p, Up) + CandidatesAsWrittenFor(V, p, Left)
      + CandidatesAsWrittenFor(V, p, Right)
  }

  /**
   * In the two-row corridor of the maze described under Findings, the exit state `((4, 7), east)`
   * at 2009 has the state `((3, 7), east)` at 2008 above it. With these two recorded costs the
   * as-written rule pushes it, although no move leads from it to the exit state, and the
   * corrected rule does not. This is the single backtracking step only; the tile count of the
   * whole maze is not derived here.
   */
  lemma {:induction false} AsWrittenPushesNonPredecessor()
    ensures var V := map[State((3, 7), Right) := 2008, State((4, 7), Right) := 2009];
      var p := Trail(State((4, 7), Right), 2009);
      var t := Trail(State((3, 7), Right), 2008);
      && t in CandidatesAsWritten(V, p)
      && Move(t.state.pos, p.state.facing) != p.state.pos
      && t !in Candidates(V, p, 4)
  {
    var V := map[State((3, 7), Right) := 2008, State((4, 7), Right) := 2009];
    var p := Trail(State((4, 7), Right), 2009);
    var t := Trail(State((3, 7), Right), 2008);
    assert CandidateAsWritten(V, p, Right, Up) == [t];
    CandidatesExact((1, 1), V, p, t);
  }

  function Pow5(k: nat): nat
  {
    if k == 0 then 1 else 5 * Pow5(k - 1)
  }

  lemma {:induction false} Pow5Mono(a: nat, b: nat)
    requires a <= b
    ensures 1 <= Pow5(a) <= Pow5(b)
    decreases b
  {
    if a < b {
      Pow5Mono(a, b - 1);
    } else if a > 0 {
      Pow5Mono(a - 1, a - 1);
    }
  }

  /** A termination measure for the pile: every entry weighs 5 to the power of its score. */
  function Weight(pile: seq<Trail>): nat
  {
    if pile == [] then 0 else Weight(pile[..|pile| - 1]) + Pow5(pile[|pile| - 1].score)
  }

  lemma {:induction false} WeightAppend(a: seq<Trail>, b: seq<Trail>)
    ensures Weight(a + b) == Weight(a) + Weight(b)
    decreases |b|
  {
    if b == [] {
      assert a + b == a;
    } else {
      var b' := b[..|b| - 1];
      assert (a + b)[..|a + b| - 1] == a + b';
      WeightAppend(a, b');
    }
  }

  /** Each entry pushed scores less than the popped one, so the pushed entries weigh less than it. */
  lemma {:induction false} CandidatesWeight(V: map<State, nat>, p: Trail, n: nat)
    requires n <= 4
    ensures 5 * Weight(Candidates(V, p, n)) <= n * Pow5(p.score)
  {
    if n > 0 {
      var P := Pow5(p.score);
      var c := Candidate(V, p, BackDirs[n - 1]);
      CandidatesWeight(V, p, n - 1);
      WeightAppend(Candidates(V, p, n - 1), c);
      CandidateWeight(V, p, BackDirs[n - 1]);
      assert (n - 1) * P + P == n * P;
    }
  }

  lemma {:induction false} CandidateWeight(V: map<State, nat>, p: Trail, d: Direction)
    ensures 5 * Weight(Candidate(V, p, d)) <= Pow5(p.score)
  {
    var c := Candidate(V, p, d);
    if c != [] {
      var t := c[0];
      assert c == [t] && t.score < p.score;
      assert Weight(c) == Pow5(t.score) by {
        assert c[..0] == [];
      }
      Pow5Mono(t.score, p.score - 1);
    } else {
      Pow5Mono(0, p.score);
    }
  }

  /** Popping an entry and pushing its candidates makes the pile lighter. */
  lemma {:induction false} PopLighter(V: map<State, nat>, pile: seq<Trail>, pushed: seq<Trail>)
    requires pile != []
    requires pushed == [] || pushed == Candidates(V, pile[|pile| - 1], 4)
    ensures Weight(pile[..|pile| - 1] + pushed) < Weight(pile)
  {
    var p := pile[|pile| - 1];
    WeightAppend(pile[..|pile| - 1], pushed);
    CandidatesWeight(V, p, 4);
    Pow5Mono(0, p.score);
  }

  /** The pile entries of the exit states recorded at the exit cost (the four `if`s before the loop). */
  method InitialPile(g: Grid, exit: Pos, visited: array3<Option<nat>>, ghost V: map<State, nat>, best: nat)
    returns (pile: seq<Trail>)
    requires Mirrors(g, visited, V) && InGrid(g, exit)
    ensures pile == Roots(exit, V, best)
  {
    pile := [];
    var r := Recorded(g, visited, State(exit, Up), V);
    if r == Some(best) {
      pile := pile + [Trail(State(exit, Up), best)];
    }
    r := Recorded(g, visited, State(exit, Down), V);
    if r == Some(best) {
      pile := pile + [Trail(State(exit, Down), best)];
    }
    r := Recorded(g, visited, State(exit, Left), V);
    if r == Some(best) {
      pile := pile + [Trail(State(exit, Left), best)];
    }
    r := Recorded(g, visited, State(exit, Right), V);
    if r == Some(best) {
      pile := pile + [Trail(State(exit, Right), best)];
    }
  }

  /** The cell behind a recorded state off the start is open: its walk comes from there. */
  lemma {:induction false} BehindOpen(g: Grid, start: Pos, V: map<State, nat>, WV: map<State, seq<State>>, s: State)
    requires Settled(g, start, V, WV) && Open(g, start) && s in V && s.pos != start
    ensures Open(g, Behind(s))
  {
    var w := WV[s];
    var prev := w[|w| - 2];
    assert Step(g, prev, s);
    MoveBehind(prev.pos, s);
    if |w| > 2 {
      assert Step(g, w[|w| - 3], prev);
    }
  }

  /**
   * The inner loops of the backtracking for one popped entry off the start: for each facing, the
   * state in the cell behind whose recorded cost fits is pushed.
   */
  method PushPredecessors(g: Grid, start: Pos, visited: array3<Option<nat>>, ghost V: map<State, nat>,
                          ghost WV: map<State, seq<State>>, p: Trail)
    returns (pushed: seq<Trail>)
    requires Mirrors(g, visited, V) && Settled(g, start, V, WV) && Open(g, start)
    requires p.state in V && p.state.pos != start
    ensures pushed == Candidates(V, p, 4)
  {
    var behind := Behind(p.state);
    BehindOpen(g, start, V, WV, p.state);
    pushed := [];
    for i := 0 to 4
      invariant pushed == Candidates(V, p, i)
    {
      var d := BackDirs[i];
      var expected: int := if d != p.state.facing then p.score - 1001 else p.score - 1;
      var r := Recorded(g, visited, State(behind, d), V);
      assert Candidates(V, p, i + 1) == Candidates(V, p, i) + Candidate(V, p, d);
      if r.Some? && r.value == expected {
        pushed := pushed + [Trail(State(behind, d), r.value)];
      }
    }
  }

  /** `visited_again` holds exactly the cells in `MC`. */
  ghost predicate MarkMirrors(g: Grid, marked: array2<bool>, MC: set<Pos>)
    reads marked
  {
    && marked.Length0 == |g| && marked.Length1 == Cols(g)
    && (forall c :: c in MC ==> InGrid(g, c))
    && forall r, c :: 0 <= r < |g| && 0 <= c < Cols(g) ==> (marked[r, c] <==> (r, c) in MC)
  }

  /** `visited_again[[row, col]] = true`. */
  method Mark(g: Grid, marked: array2<bool>, p: Pos, ghost MC: set<Pos>)
    requires MarkMirrors(g, marked, MC) && InGrid(g, p)
    modifies marked
    ensures MarkMirrors(g, marked, MC + {p})
  {
    marked[p.0, p.1] := true;
  }

  /** `visited_again.iter().filter(..).count()`: the number of marked cells. */
  method CountMarked(g: Grid, marked: array2<bool>, ghost MC: set<Pos>) returns (count: nat)
    requires MarkMirrors(g, marked, MC)
    ensures count == |MC|
  {
    count := 0;
    ghost var counted: set<Pos> := {};
    for r := 0 to |g|
      invariant counted == set p | p in MC && p.0 < r
      invariant count == |counted|
    {
      for c := 0 to Cols(g)
        invariant counted == set p | p in MC && (p.0 < r || (p.0 == r && p.1 < c))
        invariant count == |counted|
      {
        if marked[r, c] {
          assert (r, c) !in counted;
          counted := counted + {(r, c)};
          count := count + 1;
        }
      }
    }
    assert counted == MC;
  }

  /**
   * The invariants of the backtracking loop: the pile holds recorded entries reached back from
   * the roots, every marked cell is the cell of such an entry, and every entry reached back from
   * the roots is already marked or is reached back from the pile.
   */
  ghost predicate BackInv(start: Pos, V: map<State, nat>, roots: seq<Trail>, pile: seq<Trail>, MC: set<Pos>)
  {
    && (forall x :: x in pile ==> Reaches(start, V, roots, x) && x.state in V && V[x.state] == x.score)
    && (forall c :: c in MC ==> MarkedCell(start, V, roots, c))
    && forall x :: Reaches(start, V, roots, x) ==> x.state.pos in MC || Reaches(start, V, pile, x)
  }

  lemma {:induction false} BackInit(start: Pos, exit: Pos, V: map<State, nat>, best: nat)
    ensures BackInv(start, V, Roots(exit, V, best), Roots(exit, V, best), {})
  {
    var roots := Roots(exit, V, best);
    forall x | x in roots
      ensures Reaches(start, V, roots, x) && x.state in V && V[x.state] == x.score
    {
      RootsMeaning(exit, V, best, x);
      assert BackPath(start, V, roots, [x]);
    }
  }

  /**
   * What is reached back from the pile is the popped entry, or is reached back from the rest of
   * the pile with the entries pushed for the popped one.
   */
  lemma {:induction false} PopReaches(start: Pos, V: map<State, nat>, pile: seq<Trail>, pushed: seq<Trail>, x: Trail)
    requires pile != [] && Reaches(start, V, pile, x)
    requires forall t :: BackStep(start, V, pile[|pile| - 1], t) ==> t in pushed
    ensures x == pile[|pile| - 1] || Reaches(start, V, pile[..|pile| - 1] + pushed, x)
  {
    var p := pile[|pile| - 1];
    var pile' := pile[..|pile| - 1] + pushed;
    var path :| BackPath(start, V, pile, path) && path[|path| - 1] == x;
    if path[0] != p {
      assert path[0] in pile[..|pile| - 1] by {
        var j :| 0 <= j < |pile| && pile[j] == path[0];
        assert j < |pile| - 1;
        assert pile[..|pile| - 1][j] == path[0];
      }
      assert BackPath(start, V, pile', path);
    } else if |path| > 1 {
      var path' := path[1..];
      assert BackStep(start, V, p, path[1]);
      forall i | 0 <= i < |path'| - 1
        ensures BackStep(start, V, path'[i], path'[i + 1])
      {
        assert BackStep(start, V, path[i + 1], path[i + 2]);
      }
      assert BackPath(start, V, pile', path');
    }
  }

  /** One iteration of the backtracking loop keeps its invariants. */
  lemma {:induction false} BackPop(start: Pos, V: map<State, nat>, roots: seq<Trail>, pile: seq<Trail>, MC: set<Pos>, pushed: seq<Trail>)
    requires BackInv(start, V, roots, pile, MC) && pile != []
    requires var p := pile[|pile| - 1];
      (p.state.pos == start && pushed == []) || (p.state.pos != start && pushed == Candidates(V, p, 4))
    ensures BackInv(start, V, roots, pile[..|pile| - 1] + pushed, MC + {pile[|pile| - 1].state.pos})
  {
    var p := pile[|pile| - 1];
    var rest := pile[..|pile| - 1];
    var pile' := rest + pushed;
    var MC' := MC + {p.state.pos};
    forall t | BackStep(start, V, p, t)
      ensures t in pushed
    {
      CandidatesExact(start, V, p, t);
    }
    forall x | x in pile'
      ensures Reaches(start, V, roots, x) && x.state in V && V[x.state] == x.score
    {
      if x in rest {
        var j :| 0 <= j < |rest| && rest[j] == x;
        assert pile[j] == x;
      } else {
        CandidatesExact(start, V, p, x);
        ReachesStep(start, V, roots, p, x);
      }
    }
    assert MarkedCell(start, V, roots, p.state.pos);
    forall x | Reaches(start, V, roots, x)
      ensures x.state.pos in MC' || Reaches(start, V, pile', x)
    {
      if x.state.pos !in MC {
        PopReaches(start, V, pile, pushed, x);
      }
    }
  }

  /** With the pile empty, the marked cells are exactly the cells reached back from the roots. */
  lemma {:induction false} BackDone(g: Grid, start: Pos, V: map<State, nat>, roots: seq<Trail>, MC: set<Pos>)
    requires BackInv(start, V, roots, [], MC) && forall c :: c in MC ==> InGrid(g, c)
    ensures MC == ClosureCells(g, start, V, roots)
  {
    forall c | MarkedCell(start, V, roots, c)
      ensures c in MC
    {
      var x :| Reaches(start, V, roots, x) && x.state.pos == c;
      assert !Reaches(start, V, [], x);
    }
  }

  /**
   * The backtracking of `day_16_part_2` with the predecessor rule corrected (see Findings): from
   * the exit states recorded at cost `best`, go back over recorded states whose cost fits, marking
   * every cell met, and count the marked cells.
   */
  method Backtrack(g: Grid, start: Pos, exit: Pos, visited: array3<Option<nat>>, ghost V: map<State, nat>,
                   ghost WV: map<State, seq<State>>, best: nat)
    returns (count: nat)
    requires Mirrors(g, visited, V) && Settled(g, start, V, WV) && Open(g, start) && Open(g, exit)
    requires forall s :: s in V ==> Open(g, s.pos)
    ensures count == |ClosureCells(g, start, V, Roots(exit, V, best))|
  {
    ghost var roots := Roots(exit, V, best);
    var pile := InitialPile(g, exit, visited, V, best);
    var marked := new bool[|g|, Cols(g)]((_, _) => false);
    ghost var MC: set<Pos> := {};
    BackInit(start, exit, V, best);
    while pile != []
      invariant BackInv(start, V, roots, pile, MC) && MarkMirrors(g, marked, MC)
      decreases Weight(pile)
    {
      var p := pile[|pile| - 1];
      var rest := pile[..|pile| - 1];
      Mark(g, marked, p.state.pos, MC);
      ghost var MC' := MC + {p.state.pos};
      assert MarkMirrors(g, marked, MC');
      var pushed := [];
      if p.state.pos != start {
        pushed := PushPredecessors(g, start, visited, V, WV, p);
      }
      BackPop(start, V, roots, pile, MC, pushed);
      PopLighter(V, pile, pushed);
      pile, MC := rest + pushed, MC';
    }
    count := CountMarked(g, marked, MC);
    BackDone(g, start, V, roots, MC);
  }

  /** Some least-cost walk from the start to the exit passes cell `p`. */
  ghost predicate OnBestWalk(g: Grid, start: Pos, exit: Pos, best: nat, p: Pos)
  {
    exists w: seq<State>, i: int :: IsWalk(g, start, w) && Last(w).pos == exit && WalkCost(w) == best && 0 <= i < |w| && w[i].pos == p
  }

  /** The cells part 2 counts: those some least-cost walk passes. */
  ghost function BestCells(g: Grid, start: Pos, exit: Pos, best: nat): set<Pos>
  {
    set r, c | 0 <= r < |g| && 0 <= c < Cols(g) && OnBestWalk(g, start, exit, best, (r, c)) :: (r, c)
  }

  lemma {:induction false} SliceSnoc<T>(a: seq<T>, w: seq<T>, k: nat)
    requires k < |w|
    ensures a + w[..|w| - 1][k..] + [w[|w| - 1]] == a + w[k..]
  {
    assert w[..|w| - 1][k..] + [w[|w| - 1]] == w[k..];
  }

  /** A walk to a state of `w` followed by the rest of `w` is a walk, and costs accordingly. */
  lemma {:induction false} Graft(g: Grid, start: Pos, a: seq<State>, w: seq<State>, j: nat)
    requires IsWalk(g, start, a) && IsWalk(g, start, w) && j < |w| && Last(a) == w[j]
    ensures IsWalk(g, start, a + w[j + 1..]) && Last(a + w[j + 1..]) == Last(w)
    ensures WalkCost(a + w[j + 1..]) + WalkCost(w[..j + 1]) == WalkCost(a) + WalkCost(w)
  {
    var b := a + w[j + 1..];
    assert IsWalk(g, start, b) by {
      forall i | 0 <= i < |b| - 1
        ensures Step(g, b[i], b[i + 1])
      {
        if i >= |a| - 1 {
          assert b[i] == w[j + 1 + i - |a|] && b[i + 1] == w[j + 2 + i - |a|];
        }
      }
    }
    assert Last(b) == Last(w) by {
      if j == |w| - 1 {
        assert b == a;
      } else {
        assert b[|b| - 1] == w[|w| - 1];
      }
    }
    GraftCost(a, w, j);
  }

  /** The cost part of `Graft`, which only depends on the facings. */
  lemma {:induction false} GraftCost(a: seq<State>, w: seq<State>, j: nat)
    requires |a| >= 1 && j < |w| && Last(a) == w[j]
    ensures WalkCost(a + w[j + 1..]) + WalkCost(w[..j + 1]) == WalkCost(a) + WalkCost(w)
    decreases |w|
  {
    if j == |w| - 1 {
      assert w[j + 1..] == [];
      assert a + w[j + 1..] == a;
      assert w[..j + 1] == w;
    } else {
      var w' := w[..|w| - 1];
      GraftCost(a, w', j);
      var b := a + w'[j + 1..];
      assert Last(b) == w[|w| - 2];
      SliceSnoc(a, w, j + 1);
      assert b[..|b + [Last(w)]| - 1] == b by {
        assert (b + [Last(w)])[..|b|] == b;
      }
      assert w'[..j + 1] == w[..j + 1];
    }
  }

  /** Every entry of a back path from the roots is recorded at its score. */
  lemma {:induction false} PathRecorded(start: Pos, exit: Pos, V: map<State, nat>, best: nat, path: seq<Trail>, i: nat)
    requires BackPath(start, V, Roots(exit, V, best), path) && i < |path|
    ensures path[i].state in V && V[path[i].state] == path[i].score
  {
    if i == 0 {
      RootsMeaning(exit, V, best, path[0]);
    } else {
      assert BackStep(start, V, path[i - 1], path[i]);
    }
  }

  /**
   * Reversing a back path from entry `k` down to its root, a walk to entry `k` at its score
   * extends to a walk to the exit at cost `best`.
   */
  lemma {:induction false} ForwardToExit(g: Grid, start: Pos, exit: Pos, V: map<State, nat>, best: nat,
                                         path: seq<Trail>, k: nat, a: seq<State>)
    returns (w: seq<State>)
    requires BackPath(start, V, Roots(exit, V, best), path) && k < |path|
    requires forall s :: s in V ==> Open(g, s.pos)
    requires IsWalk(g, start, a) && Last(a) == path[k].state && WalkCost(a) == path[k].score
    ensures IsWalk(g, start, w) && Last(w).pos == exit && WalkCost(w) == best && |a| <= |w| && w[..|a|] == a
    decreases k
  {
    if k == 0 {
      RootsMeaning(exit, V, best, path[0]);
      w := a;
    } else {
      var t := path[k - 1];
      assert BackStep(start, V, t, path[k]);
      PathRecorded(start, exit, V, best, path, k - 1);
      assert Step(g, Last(a), t.state);
      WalkExtend(g, start, a, t.state);
      w := ForwardToExit(g, start, exit, V, best, path, k - 1, a + [t.state]);
      assert w[..|a|] == w[..|a| + 1][..|a|];
    }
  }

  /** Every cell reached back from the roots lies on a least-cost walk. */
  lemma {:induction false} ClosureSound(g: Grid, start: Pos, exit: Pos, V: map<State, nat>, WV: map<State, seq<State>>, best: nat,
                     x: Trail)
    requires Settled(g, start, V, WV) && forall s :: s in V ==> Open(g, s.pos)
    requires Reaches(start, V, Roots(exit, V, best), x)
    ensures OnBestWalk(g, start, exit, best, x.state.pos)
  {
    var path :| BackPath(start, V, Roots(exit, V, best), path) && path[|path| - 1] == x;
    PathRecorded(start, exit, V, best, path, |path| - 1);
    var a := WV[x.state];
    var w := ForwardToExit(g, start, exit, V, best, path, |path| - 1, a);
    assert w[|a| - 1] == w[..|a|][|a| - 1];
  }

  /** A least-cost walk passes the exit only at its end: a prefix ending there would be cheaper. */
  lemma {:induction false} BestAvoidsExit(g: Grid, start: Pos, exit: Pos, best: nat, w: seq<State>)
    requires MinCost(g, start, exit, best) && IsWalk(g, start, w) && WalkCost(w) == best
    ensures AvoidsExit(exit, w)
  {
    forall i | 0 <= i < |w| - 1
      ensures w[i].pos != exit
    {
      WalkPrefix(g, start, w, i + 1);
      PrefixCost(g, start, exit, false, w, i + 1);
    }
  }

  /** A least-cost walk does not come back to the start: restarting there would be cheaper. */
  lemma {:induction false} BestNoRestart(g: Grid, start: Pos, exit: Pos, best: nat, w: seq<State>, j: nat)
    requires MinCost(g, start, exit, best) && IsWalk(g, start, w) && Last(w).pos == exit && WalkCost(w) == best
    requires 1 <= j < |w|
    ensures w[j].pos != start
  {
    if w[j].pos == start {
      var a := [w[j]];
      WalkPrefix(g, start, w, j + 1);
      WalkCostLower(w[..j + 1]);
      Graft(g, start, a, w, j);
    }
  }

  /** Every state of a least-cost walk is recorded at the cost of the walk up to it. */
  lemma {:induction false} BestPrefixRecorded(g: Grid, start: Pos, exit: Pos, V: map<State, nat>, WV: map<State, seq<State>>,
                           best: nat, w: seq<State>, j: nat)
    requires Settled(g, start, V, WV) && MinCost(g, start, exit, best) && Complete(g, start, exit, V, best)
    requires IsWalk(g, start, w) && Last(w).pos == exit && WalkCost(w) == best && j < |w|
    ensures w[j] in V && V[w[j]] == WalkCost(w[..j + 1])
  {
    WalkPrefix(g, start, w, j + 1);
    assert w[j] in V by {
      PrefixCost(g, start, exit, false, w, j + 1);
      BestPrefixIn(g, start, exit, V, best, w, j);
    }
    OptimalAt(g, start, V, WV, w[j], w[..j + 1]);
    assert WalkCost(w[..j + 1]) <= V[w[j]] by {
      BestPrefixCost(g, start, exit, best, w, j, WV[w[j]]);
    }
  }

  lemma {:induction false} OptimalAt(g: Grid, start: Pos, V: map<State, nat>, WV: map<State, seq<State>>, s: State, u: seq<State>)
    requires Settled(g, start, V, WV) && s in V && IsWalk(g, start, u) && Last(u) == s
    ensures V[s] <= WalkCost(u) && IsWalk(g, start, WV[s]) && Last(WV[s]) == s && WalkCost(WV[s]) == V[s]
  {
    assert Optimal(g, start, s, V[s]);
  }

  /** By completeness, the prefix of a least-cost walk ends on a recorded state. */
  lemma {:induction false} BestPrefixIn(g: Grid, start: Pos, exit: Pos, V: map<State, nat>, best: nat, w: seq<State>, j: nat)
    requires MinCost(g, start, exit, best) && Complete(g, start, exit, V, best)
    requires IsWalk(g, start, w) && Last(w).pos == exit && WalkCost(w) == best && j < |w|
    requires IsWalk(g, start, w[..j + 1]) && WalkCost(w[..j + 1]) <= best
    ensures w[j] in V
  {
    var u := w[..j + 1];
    assert AvoidsExit(exit, u) by {
      BestAvoidsExit(g, start, exit, best, w);
      forall i | 0 <= i < |u| - 1
        ensures u[i].pos != exit
      {
        assert u[i] == w[i];
      }
    }
    assert Last(u) == w[j];
  }

  /** No walk reaches a state of a least-cost walk for less than the walk up to it: it would shorten the walk. */
  lemma {:induction false} BestPrefixCost(g: Grid, start: Pos, exit: Pos, best: nat, w: seq<State>, j: nat, a: seq<State>)
    requires MinCost(g, start, exit, best)
    requires IsWalk(g, start, w) && Last(w).pos == exit && WalkCost(w) == best && j < |w|
    requires IsWalk(g, start, a) && Last(a) == w[j]
    ensures WalkCost(w[..j + 1]) <= WalkCost(a)
  {
    Graft(g, start, a, w, j);
    assert WalkCost(a + w[j + 1..]) >= best;
  }

  /** Every state of a least-cost walk, at the cost of the walk up to it, is reached back from the roots. */
  lemma {:induction false} BestReached(g: Grid, start: Pos, exit: Pos, V: map<State, nat>, WV: map<State, seq<State>>,
                                       best: nat, w: seq<State>, i: nat)
    requires Settled(g, start, V, WV) && MinCost(g, start, exit, best) && Complete(g, start, exit, V, best)
    requires IsWalk(g, start, w) && Last(w).pos == exit && WalkCost(w) == best && i < |w|
    ensures Reaches(start, V, Roots(exit, V, best), Trail(w[i], WalkCost(w[..i + 1])))
    decreases |w| - i
  {
    var roots := Roots(exit, V, best);
    var x := Trail(w[i], WalkCost(w[..i + 1]));
    BestPrefixRecorded(g, start, exit, V, WV, best, w, i);
    if i == |w| - 1 {
      assert w[..i + 1] == w;
      RootsMeaning(exit, V, best, x);
      assert BackPath(start, V, roots, [x]);
    } else {
      var y := Trail(w[i + 1], WalkCost(w[..i + 2]));
      BestReached(g, start, exit, V, WV, best, w, i + 1);
      BestNoRestart(g, start, exit, best, w, i + 1);
      assert Step(g, w[i], w[i + 1]);
      assert w[..i + 2][..i + 1] == w[..i + 1];
      assert BackStep(start, V, y, x);
      ReachesStep(start, V, roots, y, x);
    }
  }

  /**
   * The heart of part 2: once the search has settled every state on a least-cost walk, the cells
   * reached back from the exit states recorded at the least cost are exactly the cells on
   * least-cost walks.
   */
  lemma {:induction false} ClosureIsBest(g: Grid, start: Pos, exit: Pos, V: map<State, nat>, WV: map<State, seq<State>>, best: nat)
    requires Settled(g, start, V, WV) && forall s :: s in V ==> Open(g, s.pos)
    requires MinCost(g, start, exit, best) && Complete(g, start, exit, V, best)
    ensures ClosureCells(g, start, V, Roots(exit, V, best)) == BestCells(g, start, exit, best)
  {
    var roots := Roots(exit, V, best);
    forall c | MarkedCell(start, V, roots, c)
      ensures OnBestWalk(g, start, exit, best, c)
    {
      var x :| Reaches(start, V, roots, x) && x.state.pos == c;
      ClosureSound(g, start, exit, V, WV, best, x);
    }
    forall c | OnBestWalk(g, start, exit, best, c)
      ensures MarkedCell(start, V, roots, c)
    {
      var w: seq<State>, i: int :| IsWalk(g, start, w) && Last(w).pos == exit && WalkCost(w) == best && 0 <= i < |w| && w[i].pos == c;
      BestReached(g, start, exit, V, WV, best, w, i);
    }
  }

  /**
   * `day_16_part_2`: the number of cells on some least-cost walk from `S` to `E`. The source
   * panics when the exit is unreachable.
   */
  method Part2(g: Grid) returns (count: nat)
    requires Rect(g)
    requires exists p :: InGrid(g, p) && At(g, p) == Start
    requires exists p :: InGrid(g, p) && At(g, p) == Exit
    requires forall start, exit :: IsLast(g, Start, start) && IsLast(g, Exit, exit) ==> Reachable(g, start, exit)
    ensures forall start, exit :: IsLast(g, Start, start) && IsLast(g, Exit, exit) ==>
      exists best :: MinCost(g, start, exit, best) && count == |BestCells(g, start, exit, best)|
  {
    var start, exit := FindStartAndExit(g);
    assert Reachable(g, start, exit);
    var found, visited, V, WV := Explore(g, start, exit);
    var best := found.value;
    count := Backtrack(g, start, exit, visited, V, WV, best);
    ClosureIsBest(g, start, exit, V, WV, best);
    forall start', exit' | IsLast(g, Start, start') && IsLast(g, Exit, exit')
      ensures start' == start && exit' == exit
    {
      IsLastUnique(g, Start, start, start');
      IsLastUnique(g, Exit, exit, exit');
    }
  }
}
