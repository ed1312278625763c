/**
 * Day 18: bytes fall one after the other onto a square memory grid and corrupt the cell they
 * land on. Part 1 finds the length of a shortest path from the top-left to the bottom-right
 * corner once the first bytes have fallen, with an A* search over 4-neighbour moves; part 2
 * stacks the grids of every moment into a cube and binary-searches the first byte after which
 * the exit can no longer be reached.
 */
module Day18 {
  import opened Common

  type Pos = (int, int)
  /** `true` marks a corrupted cell. */
  type Grid = seq<seq<bool>>

  function Cols(g: Grid): nat
  {
    if g == [] then 0 else |g[0]|
  }

  predicate Rect(g: Grid)
  {
    forall r :: 0 <= r < |g| ==> |g[r]| == Cols(g)
  }

  predicate InGrid(g: Grid, p: Pos)
  {
    0 <= p.0 < |g| && 0 <= p.1 < Cols(g)
  }

  /** A cell a path may step on: inside the grid and not corrupted. */
  predicate Open(g: Grid, p: Pos)
  {
    Rect(g) && InGrid(g, p) && !g[p.0][p.1]
  }

  /** `manhattan_distance`. */
  function Manhattan(a: Pos, b: Pos): nat
  {
    Abs(a.0 - b.0) + Abs(a.1 - b.1)
  }

  /** The neighbour offsets, in the order the search visits them. */
  const Deltas: seq<(int, int)> := [(-1, 0), (1, 0), (0, -1), (0, 1)]

  function Shift(p: Pos, i: nat): Pos
    requires i < 4
  {
    (p.0 + Deltas[i].0, p.1 + Deltas[i].1)
  }

  /** The cells at distance one are exactly the four shifted ones. */
  lemma {:induction false} AdjacentShift(p: Pos, t: Pos)
    ensures Manhattan(p, t) == 1 <==> exists i :: 0 <= i < 4 && t == Shift(p, i)
  {
    if Manhattan(p, t) == 1 {
      if t.0 == p.0 - 1 {
        assert t == Shift(p, 0);
      } else if t.0 == p.0 + 1 {
        assert t == Shift(p, 1);
      } else if t.1 == p.1 - 1 {
        assert t == Shift(p, 2);
      } else {
        assert t == Shift(p, 3);
      }
    }
  }

  /** One move of a path: onto an open cell next to the current one. */
  predicate Step(g: Grid, s: Pos, t: Pos)
  {
    Open(g, t) && Manhattan(s, t) == 1
  }

  /** A path from `start`: every cell after the first is an open neighbour of the one before. */
  ghost predicate IsWalk(g: Grid, start: Pos, w: seq<Pos>)
  {
    |w| >= 1 && w[0] == start && forall i :: 0 <= i < |w| - 1 ==> Step(g, w[i], w[i + 1])
  }

  function Last(w: seq<Pos>): Pos
    requires |w| >= 1
  {
    w[|w| - 1]
  }

  /** The number of moves of a path. */
  function Moves(w: seq<Pos>): nat
    requires |w| >= 1
  {
    |w| - 1
  }

  lemma {:induction false} WalkExtend(g: Grid, start: Pos, w: seq<Pos>, t: Pos)
    requires IsWalk(g, start, w) && Step(g, Last(w), t)
    ensures IsWalk(g, start, w + [t]) && Last(w + [t]) == t && Moves(w + [t]) == Moves(w) + 1
  {
    assert (w + [t])[..|w|] == w;
  }

  lemma {:induction false} WalkPrefix(g: Grid, start: Pos, w: seq<Pos>, k: nat)
    requires IsWalk(g, start, w) && 1 <= k <= |w|
    ensures IsWalk(g, start, w[..k]) && Last(w[..k]) == w[k - 1]
  {
    forall i | 0 <= i < k - 1
      ensures Step(g, w[..k][i], w[..k][i + 1])
    {
      assert w[..k][i] == w[i] && w[..k][i + 1] == w[i + 1];
    }
  }

  /** A path ends on `exit`. */
  ghost predicate Reachable(g: Grid, start: Pos, exit: Pos)
  {
    exists w :: IsWalk(g, start, w) && Last(w) == exit
  }

  /** `n` is the least number of moves of a path from `start` to `exit`. */
  ghost predicate MinSteps(g: Grid, start: Pos, exit: Pos, n: nat)
  {
    && (exists w :: IsWalk(g, start, w) && Last(w) == exit && Moves(w) == n)
    && forall w :: IsWalk(g, start, w) && Last(w) == exit ==> n <= Moves(w)
  }

  /**
   * Every move changes the distance to `exit` by at most one: what the heuristic says is left of
   * a path never exceeds the moves that are left.
   */
  lemma {:induction false} PrefixDistance(g: Grid, start: Pos, exit: Pos, w: seq<Pos>, k: nat)
    requires IsWalk(g, start, w) && 1 <= k <= |w|
    ensures Manhattan(w[k - 1], exit) <= (|w| - k) + Manhattan(Last(w), exit)
    decreases |w|
  {
    if k < |w| {
      var w' := w[..|w| - 1];
      WalkPrefix(g, start, w, |w| - 1);
      PrefixDistance(g, start, exit, w', k);
      assert w'[k - 1] == w[k - 1];
      assert Step(g, w[|w| - 2], w[|w| - 1]);
    }
  }

  /** No path is shorter than the distance between its ends. */
  lemma {:induction false} WalkAtLeastDistance(g: Grid, start: Pos, w: seq<Pos>)
    requires IsWalk(g, start, w)
    ensures Manhattan(start, Last(w)) <= Moves(w)
  {
    PrefixDistance(g, start, Last(w), w, 1);
  }

  /** A shortest path is never shorter than the distance: the A* heuristic is admissible. */
  lemma MinStepsAtLeastDistance(g: Grid, start: Pos, exit: Pos, n: nat)
    requires MinSteps(g, start, exit, n)
    ensures Manhattan(start, exit) <= n
  {
    var w :| IsWalk(g, start, w) && Last(w) == exit && Moves(w) == n;
    WalkAtLeastDistance(g, start, w);
  }

  /** A heap entry `(f_score, g_score, (row, col))`; heap order is the lexicographic order. */
  datatype Entry = Entry(f: nat, g: nat, row: int, col: int)

  function PosOf(e: Entry): Pos
  {
    (e.row, e.col)
  }

  predicate EntryLe(a: Entry, b: Entry)
  {
    || a.f < b.f
    || (a.f == b.f && a.g < b.g)
    || (a.f == b.f && a.g == b.g && a.row < b.row)
    || (a.f == b.f && a.g == b.g && a.row == b.row && a.col <= b.col)
  }

  /** `BinaryHeap::pop` on `Reverse` entries: it removes and returns a least entry. */
  method PopMin(q: seq<Entry>) returns (e: Entry, rest: seq<Entry>)
    requires |q| > 0
    ensures e in q && |rest| == |q| - 1 && multiset(rest) + multiset{e} == multiset(q)
    ensures forall x :: x in rest ==> x in q
    ensures forall x :: x in q && x != e ==> x in rest
    ensures forall x :: x in q ==> EntryLe(e, x)
  {
    var best := 0;
    for k := 1 to |q|
      invariant 0 <= best < |q|
      invariant forall j :: 0 <= j < k ==> EntryLe(q[best], q[j])
    {
      if !EntryLe(q[best], q[k]) {
        best := k;
      }
    }
    e := q[best];
    rest := q[..best] + q[best + 1..];
    assert q == q[..best] + [e] + q[best + 1..];
    assert forall x :: x in rest ==> x in q;
    assert forall x :: x in q && x != e ==> x in rest by {
      forall x | x in q && x != e
        ensures x in rest
      {
        var j :| 0 <= j < |q| && q[j] == x;
        if j < best {
          assert rest[j] == x;
        } else {
          assert j > best && rest[j - 1] == x;
        }
      }
    }
    forall x | x in q
      ensures EntryLe(e, x)
    {
      var j :| 0 <= j < |q| && q[j] == x;
    }
  }

  /** The entry pushed for the neighbour in direction `i`, if that cell is open. */
  function Child(g: Grid, exit: Pos, e: Entry, i: nat): seq<Entry>
    requires i < 4
  {
    var p := Shift(PosOf(e), i);
    if Open(g, p) then [Entry(e.g + 1 + Manhattan(p, exit), e.g + 1, p.0, p.1)] else []
  }

  /** The entries pushed for the first `n` directions of the neighbour loop. */
  function Children(g: Grid, exit: Pos, e: Entry, n: nat): seq<Entry>
    requires n <= 4
  {
    if n == 0 then [] else Children(g, exit, e, n - 1) + Child(g, exit, e, n - 1)
  }

  lemma {:induction false} ChildrenAll(g: Grid, exit: Pos, e: Entry)
    ensures Children(g, exit, e, 4) == Child(g, exit, e, 0) + Child(g, exit, e, 1) + Child(g, exit, e, 2) + Child(g, exit, e, 3)
  {
    assert Children(g, exit, e, 1) == Child(g, exit, e, 0);
    assert Children(g, exit, e, 2) == Child(g, exit, e, 0) + Child(g, exit, e, 1);
    assert Children(g, exit, e, 3) == Child(g, exit, e, 0) + Child(g, exit, e, 1) + Child(g, exit, e, 2);
  }

  /**
   * The entries pushed from `e` are exactly the moves from `e`'s cell to an open neighbour, one
   * move dearer and scored with the distance to the exit.
   */
  lemma {:induction false} ChildrenExact(g: Grid, exit: Pos, e: Entry, c: Entry)
    ensures c in Children(g, exit, e, 4) <==>
      && Step(g, PosOf(e), PosOf(c))
      && c.g == e.g + 1
      && c.f == c.g + Manhattan(PosOf(c), exit)
  {
    ChildrenAll(g, exit, e);
    AdjacentShift(PosOf(e), PosOf(c));
    assert c in Children(g, exit, e, 4) <==>
      c in Child(g, exit, e, 0) || c in Child(g, exit, e, 1) || c in Child(g, exit, e, 2) || c in Child(g, exit, e, 3);
  }

  /** Some frontier entry stands for cell `t` at a cost of at most `bound`. */
  ghost predicate CoveredBy(q: seq<Entry>, t: Pos, bound: nat)
  {
    exists x :: x in q && PosOf(x) == t && x.g <= bound
  }

  lemma {:induction false} ChildrenCover(g: Grid, exit: Pos, e: Entry, t: Pos)
    requires Step(g, PosOf(e), t)
    ensures CoveredBy(Children(g, exit, e, 4), t, e.g + 1)
  {
    var c := Entry(e.g + 1 + Manhattan(t, exit), e.g + 1, t.0, t.1);
    ChildrenExact(g, exit, e, c);
    assert PosOf(c) == t;
  }

  /** The neighbour loop of `has_path`: push an entry for every open neighbour. */
  method Expand(g: Grid, exit: Pos, e: Entry, q: seq<Entry>) returns (q': seq<Entry>)
    requires Rect(g)
    ensures q' == q + Children(g, exit, e, 4)
  {
    q' := q;
    for i := 0 to 4
      invariant q' == q + Children(g, exit, e, i)
    {
      var newRow := e.row + Deltas[i].0;
      var newCol := e.col + Deltas[i].1;
      assert Children(g, exit, e, i + 1) == Children(g, exit, e, i) + Child(g, exit, e, i);
      assert (newRow, newCol) == Shift(PosOf(e), i);
      if !(newRow < 0 || newRow >= |g| || newCol < 0 || newCol >= Cols(g)) && !g[newRow][newCol] {
        var newG := e.g + 1;
        var newF := newG + Manhattan((newRow, newCol), exit);
        q' := q' + [Entry(newF, newG, newRow, newCol)];
      }
    }
  }

  /**
   * What every frontier entry satisfies: it stands in the grid, its score is at least the last
   * popped one and is its cost plus the distance to the exit, and `W` holds a path from the start
   * reaching it in that many moves.
   */
  ghost predicate FrontierInv(g: Grid, start: Pos, exit: Pos, q: seq<Entry>, lastF: nat, W: map<Entry, seq<Pos>>)
  {
    forall x :: x in q ==>
      && InGrid(g, PosOf(x))
      && lastF <= x.f == x.g + Manhattan(PosOf(x), exit)
      && x in W && IsWalk(g, start, W[x]) && Last(W[x]) == PosOf(x) && Moves(W[x]) == x.g
  }

  /** The `visited` array holds exactly the recorded costs `V`. */
  ghost predicate Mirrors(g: Grid, visited: array2<Option<nat>>, V: map<Pos, nat>)
    reads visited
  {
    && visited.Length0 == |g| && visited.Length1 == Cols(g)
    && forall r, c :: 0 <= r < |g| && 0 <= c < Cols(g) ==>
      visited[r, c] == if (r, c) in V then Some(V[(r, c)]) else None
  }

  /** A recorded cell is in the grid, and its cost plus its distance to the exit is at most the last popped score. */
  ghost predicate VisitedInv(g: Grid, exit: Pos, V: map<Pos, nat>, lastF: nat)
  {
    forall s :: s in V ==> InGrid(g, s) && V[s] + Manhattan(s, exit) <= lastF
  }

  /** No path from the start reaches `s` in fewer than `cost` moves. */
  ghost predicate Optimal(g: Grid, start: Pos, s: Pos, cost: nat)
  {
    forall w :: IsWalk(g, start, w) && Last(w) == s ==> cost <= Moves(w)
  }

  /** Every recorded cost is the length of a path, held in `WV`, and no path is shorter. */
  ghost predicate Settled(g: Grid, start: Pos, V: map<Pos, nat>, WV: map<Pos, seq<Pos>>)
  {
    forall s :: s in V ==>
      && s in WV && IsWalk(g, start, WV[s]) && Last(WV[s]) == s && Moves(WV[s]) == V[s]
      && Optimal(g, start, s, V[s])
  }

  /**
   * Nothing reachable is lost: the start, and every move out of a recorded cell, leads to a
   * recorded cell or to a frontier entry no dearer than that move.
   */
  ghost predicate Covered(g: Grid, start: Pos, exit: Pos, V: map<Pos, nat>, q: seq<Entry>)
  {
    && (start in V || CoveredBy(q, start, 0))
    && forall s, t :: s in V && Step(g, s, t) ==> t in V || CoveredBy(q, t, V[s] + 1)
  }

  /**
   * A path whose last cell is not recorded has a first cell that is not recorded, and a frontier
   * entry stands for it at no more than the moves of the path up to it.
   */
  lemma {:induction false} FirstUnrecorded(g: Grid, start: Pos, exit: Pos, V: map<Pos, nat>,
                                           WV: map<Pos, seq<Pos>>, q: seq<Entry>, w: seq<Pos>)
    returns (i: nat, x: Entry)
    requires Covered(g, start, exit, V, q) && Settled(g, start, V, WV)
    requires IsWalk(g, start, w) && Last(w) !in V
    ensures i < |w| && x in q && PosOf(x) == w[i] && x.g <= i
    decreases |w|
  {
    if |w| == 1 {
      assert CoveredBy(q, w[0], 0);
      x :| x in q && PosOf(x) == w[0] && x.g <= 0;
      return 0, x;
    }
    var w' := w[..|w| - 1];
    WalkPrefix(g, start, w, |w| - 1);
    var s := Last(w');
    if s !in V {
      i, x := FirstUnrecorded(g, start, exit, V, WV, q, w');
      return;
    }
    assert Step(g, s, Last(w));
    assert CoveredBy(q, Last(w), V[s] + 1);
    x :| x in q && PosOf(x) == Last(w) && x.g <= V[s] + 1;
    assert V[s] <= Moves(w');
    return |w| - 1, x;
  }

  /**
   * Popping a least entry `e`: no path to a cell that is not recorded is shorter than `e`'s
   * score, the distance at the path's end taken off.
   */
  lemma {:induction false} PoppedOptimal(g: Grid, start: Pos, exit: Pos, q: seq<Entry>, lastF: nat, W: map<Entry, seq<Pos>>,
                                         V: map<Pos, nat>, WV: map<Pos, seq<Pos>>, e: Entry, w: seq<Pos>)
    requires FrontierInv(g, start, exit, q, lastF, W) && Covered(g, start, exit, V, q) && Settled(g, start, V, WV)
    requires forall x :: x in q ==> EntryLe(e, x)
    requires IsWalk(g, start, w) && Last(w) !in V
    ensures e.f <= Moves(w) + Manhattan(Last(w), exit)
  {
    var i, x := FirstUnrecorded(g, start, exit, V, WV, q, w);
    PrefixDistance(g, start, exit, w, i + 1);
    assert EntryLe(e, x);
  }

  /** The cost of a popped entry whose cell is not recorded is optimal for that cell. */
  lemma {:induction false} RecordOptimal(g: Grid, start: Pos, exit: Pos, q: seq<Entry>, lastF: nat, W: map<Entry, seq<Pos>>,
                                         V: map<Pos, nat>, WV: map<Pos, seq<Pos>>, e: Entry)
    requires FrontierInv(g, start, exit, q, lastF, W) && Covered(g, start, exit, V, q) && Settled(g, start, V, WV)
    requires e in q && forall x :: x in q ==> EntryLe(e, x)
    requires PosOf(e) !in V
    ensures Optimal(g, start, PosOf(e), e.g)
  {
    forall w | IsWalk(g, start, w) && Last(w) == PosOf(e)
      ensures e.g <= Moves(w)
    {
      PoppedOptimal(g, start, exit, q, lastF, W, V, WV, e, w);
    }
  }

  /** Popping a least entry keeps the frontier facts with the popped score as the last one. */
  lemma {:induction false} PopKeeps(g: Grid, start: Pos, exit: Pos, q: seq<Entry>, e: Entry, rest: seq<Entry>,
                                    lastF: nat, W: map<Entry, seq<Pos>>, V: map<Pos, nat>)
    requires FrontierInv(g, start, exit, q, lastF, W) && VisitedInv(g, exit, V, lastF)
    requires e in q && (forall x :: x in rest ==> x in q) && (forall x :: x in q ==> EntryLe(e, x))
    ensures FrontierInv(g, start, exit, rest, e.f, W) && VisitedInv(g, exit, V, e.f)
  {
  }

  /** A popped entry whose cell is already recorded is never cheaper than the record: it is skipped. */
  lemma {:induction false} RecordedNotCheaper(g: Grid, exit: Pos, e: Entry, V: map<Pos, nat>)
    requires e.f == e.g + Manhattan(PosOf(e), exit)
    requires VisitedInv(g, exit, V, e.f) && PosOf(e) in V
    ensures V[PosOf(e)] <= e.g
  {
  }

  /** Popping an entry whose cell is recorded loses nothing. */
  lemma {:induction false} SkipCovered(g: Grid, start: Pos, exit: Pos, V: map<Pos, nat>, q: seq<Entry>, e: Entry, rest: seq<Entry>)
    requires Covered(g, start, exit, V, q) && PosOf(e) in V
    requires forall x :: x in q && x != e ==> x in rest
    ensures Covered(g, start, exit, V, rest)
  {
    forall t, b | CoveredBy(q, t, b)
      ensures t in V || CoveredBy(rest, t, b)
    {
      var x :| x in q && PosOf(x) == t && x.g <= b;
      if x != e {
        assert x in rest;
      }
    }
  }

  /** The paths of the children: the path of the parent and one more move. */
  ghost function ChildWalks(g: Grid, exit: Pos, e: Entry, W: map<Entry, seq<Pos>>): map<Entry, seq<Pos>>
    requires e in W
  {
    map c | c in Children(g, exit, e, 4) :: W[e] + [PosOf(c)]
  }

  /** Expanding the popped entry keeps the frontier facts for the old entries and its children. */
  lemma {:induction false} ExpandFrontier(g: Grid, start: Pos, exit: Pos, e: Entry, rest: seq<Entry>, W: map<Entry, seq<Pos>>)
    requires e in W && IsWalk(g, start, W[e]) && Last(W[e]) == PosOf(e) && Moves(W[e]) == e.g
    requires e.f == e.g + Manhattan(PosOf(e), exit)
    requires FrontierInv(g, start, exit, rest, e.f, W)
    ensures FrontierInv(g, start, exit, rest + Children(g, exit, e, 4), e.f, W + ChildWalks(g, exit, e, W))
  {
    var ch := Children(g, exit, e, 4);
    var W' := W + ChildWalks(g, exit, e, W);
    forall c | c in ch
      ensures && InGrid(g, PosOf(c))
        && e.f <= c.f == c.g + Manhattan(PosOf(c), exit)
        && IsWalk(g, start, W'[c]) && Last(W'[c]) == PosOf(c) && Moves(W'[c]) == c.g
    {
      ChildrenExact(g, exit, e, c);
      WalkExtend(g, start, W[e], PosOf(c));
    }
    forall x | x in rest + ch
      ensures x in W' && IsWalk(g, start, W'[x]) && Last(W'[x]) == PosOf(x) && Moves(W'[x]) == x.g
    {
      if x !in ch {
        assert x in rest;
      }
    }
  }

  /** Recording the popped entry's cost keeps the bound on recorded costs. */
  lemma {:induction false} RecordKeeps(g: Grid, exit: Pos, e: Entry, V: map<Pos, nat>)
    requires VisitedInv(g, exit, V, e.f) && InGrid(g, PosOf(e))
    requires e.f == e.g + Manhattan(PosOf(e), exit)
    ensures VisitedInv(g, exit, V[PosOf(e) := e.g], e.f)
  {
  }

  /** Expanding the popped entry covers every move out of its cell, one move dearer. */
  lemma {:induction false} ExpandCovered(g: Grid, start: Pos, exit: Pos, q: seq<Entry>, e: Entry, rest: seq<Entry>,
                                         V: map<Pos, nat>)
    requires e in q && Covered(g, start, exit, V, q) && PosOf(e) !in V
    requires forall x :: x in q && x != e ==> x in rest
    ensures Covered(g, start, exit, V[PosOf(e) := e.g], rest + Children(g, exit, e, 4))
  {
    var s := PosOf(e);
    var V' := V[s := e.g];
    var ch := Children(g, exit, e, 4);
    var q' := rest + ch;
    forall t, b | CoveredBy(q, t, b)
      ensures t in V' || CoveredBy(q', t, b)
    {
      var x :| x in q && PosOf(x) == t && x.g <= b;
      if x != e {
        assert x in q';
      }
    }
    forall t | Step(g, s, t)
      ensures CoveredBy(q', t, e.g + 1)
    {
      ChildrenCover(g, exit, e, t);
      var x :| x in ch && PosOf(x) == t && x.g <= e.g + 1;
      assert x in q';
    }
  }

  /** The single start entry `(distance, 0, start)`. */
  function Seed(start: Pos, exit: Pos): Entry
  {
    Entry(Manhattan(start, exit), 0, start.0, start.1)
  }

  ghost predicate Unvisited(g: Grid, V: map<Pos, nat>, unvisited: set<Pos>)
  {
    forall p :: InGrid(g, p) && p !in V ==> p in unvisited
  }

  /** `visited[[row, col]]`. */
  method Recorded(g: Grid, visited: array2<Option<nat>>, s: Pos, ghost V: map<Pos, nat>) returns (r: Option<nat>)
    requires Mirrors(g, visited, V) && InGrid(g, s)
    ensures r == if s in V then Some(V[s]) else None
  {
    r := visited[s.0, s.1];
  }

  /** `visited[[row, col]] = Some(g_score)`. */
  method Record(g: Grid, visited: array2<Option<nat>>, s: Pos, cost: nat, ghost V: map<Pos, nat>)
    requires Mirrors(g, visited, V) && InGrid(g, s)
    modifies visited
    ensures Mirrors(g, visited, V[s := cost])
  {
    visited[s.0, s.1] := Some(cost);
  }

  /** The invariants of `has_path`'s loop that do not mention the heap. */
  ghost predicate SearchInv(g: Grid, start: Pos, exit: Pos, q: seq<Entry>, lastF: nat, W: map<Entry, seq<Pos>>,
                            V: map<Pos, nat>, WV: map<Pos, seq<Pos>>)
  {
    && FrontierInv(g, start, exit, q, lastF, W)
    && VisitedInv(g, exit, V, lastF)
    && Covered(g, start, exit, V, q)
    && Settled(g, start, V, WV)
    && exit !in V
  }

  /** The start entry satisfies the loop invariants. */
  lemma {:induction false} SearchInit(g: Grid, start: Pos, exit: Pos, W: map<Entry, seq<Pos>>)
    requires InGrid(g, start) && W == map[Seed(start, exit) := [start]]
    ensures SearchInv(g, start, exit, [Seed(start, exit)], Manhattan(start, exit), W, map[], map[])
  {
    assert PosOf(Seed(start, exit)) == start;
    assert IsWalk(g, start, [start]);
  }

  /** Popping an entry that is not on the exit and skipping it keeps the loop invariants. */
  lemma {:induction false} SearchSkip(g: Grid, start: Pos, exit: Pos, q: seq<Entry>, lastF: nat, W: map<Entry, seq<Pos>>,
                                      V: map<Pos, nat>, WV: map<Pos, seq<Pos>>, e: Entry, rest: seq<Entry>)
    requires SearchInv(g, start, exit, q, lastF, W, V, WV) && PosOf(e) in V
    requires e in q && (forall x :: x in rest ==> x in q) && (forall x :: x in q && x != e ==> x in rest)
    requires forall x :: x in q ==> EntryLe(e, x)
    ensures SearchInv(g, start, exit, rest, e.f, W, V, WV)
  {
    PopKeeps(g, start, exit, q, e, rest, lastF, W, V);
    SkipCovered(g, start, exit, V, q, e, rest);
  }

  /**
   * Popping an entry that is not on the exit and whose cell is not recorded, recording it and
   * pushing its neighbours keeps the loop invariants.
   */
  lemma {:induction false} SearchExpand(g: Grid, start: Pos, exit: Pos, q: seq<Entry>, lastF: nat, W: map<Entry, seq<Pos>>,
                                        V: map<Pos, nat>, WV: map<Pos, seq<Pos>>, e: Entry, rest: seq<Entry>)
    requires SearchInv(g, start, exit, q, lastF, W, V, WV) && PosOf(e) != exit && PosOf(e) !in V
    requires e in q && (forall x :: x in rest ==> x in q) && (forall x :: x in q && x != e ==> x in rest)
    requires forall x :: x in q ==> EntryLe(e, x)
    ensures SearchInv(g, start, exit, rest + Children(g, exit, e, 4), e.f,
                      W + ChildWalks(g, exit, e, W), V[PosOf(e) := e.g], WV[PosOf(e) := W[e]])
  {
    PopKeeps(g, start, exit, q, e, rest, lastF, W, V);
    ExpandFrontier(g, start, exit, e, rest, W);
    RecordKeeps(g, exit, e, V);
    ExpandCovered(g, start, exit, q, e, rest, V);
    RecordOptimal(g, start, exit, q, lastF, W, V, WV, e);
  }

  /** The first exit entry popped carries the least number of moves of any path to the exit. */
  lemma {:induction false} SearchExit(g: Grid, start: Pos, exit: Pos, q: seq<Entry>, lastF: nat, W: map<Entry, seq<Pos>>,
                                      V: map<Pos, nat>, WV: map<Pos, seq<Pos>>, e: Entry)
    requires SearchInv(g, start, exit, q, lastF, W, V, WV) && PosOf(e) == exit
    requires e in q && forall x :: x in q ==> EntryLe(e, x)
    ensures MinSteps(g, start, exit, e.g)
  {
    assert e.f == e.g;
    forall w | IsWalk(g, start, w) && Last(w) == exit
      ensures e.g <= Moves(w)
    {
      PoppedOptimal(g, start, exit, q, lastF, W, V, WV, e, w);
    }
  }

  /** With an empty frontier and the exit never popped, no path reaches the exit. */
  lemma {:induction false} Unreachable(g: Grid, start: Pos, exit: Pos, V: map<Pos, nat>, WV: map<Pos, seq<Pos>>)
    requires Covered(g, start, exit, V, []) && Settled(g, start, V, WV) && exit !in V
    ensures !Reachable(g, start, exit)
  {
    forall w | IsWalk(g, start, w)
      ensures Last(w) != exit
    {
      if Last(w) == exit {
        var i, x := FirstUnrecorded(g, start, exit, V, WV, [], w);
      }
    }
  }

  /**
   * One turn of `has_path`'s loop: pop the least entry; return its cost if it is on the exit;
   * skip it if its cell is already recorded at no higher cost; otherwise record it and push its
   * neighbours. The cells never recorded, then the frontier, get smaller.
   */
  method SearchStep(g: Grid, start: Pos, exit: Pos, visited: array2<Option<nat>>, q: seq<Entry>,
                    ghost lastF: nat, ghost W: map<Entry, seq<Pos>>, ghost V: map<Pos, nat>,
                    ghost WV: map<Pos, seq<Pos>>, ghost unvisited: set<Pos>)
    returns (found: Option<nat>, q': seq<Entry>, ghost lastF': nat, ghost W': map<Entry, seq<Pos>>,
             ghost V': map<Pos, nat>, ghost WV': map<Pos, seq<Pos>>, ghost unvisited': set<Pos>)
    requires Rect(g) && q != [] && SearchInv(g, start, exit, q, lastF, W, V, WV) && Mirrors(g, visited, V)
    requires Unvisited(g, V, unvisited)
    modifies visited
    ensures found.Some? ==> MinSteps(g, start, exit, found.value)
    ensures found.None? ==>
      && SearchInv(g, start, exit, q', lastF', W', V', WV') && Mirrors(g, visited, V') && Unvisited(g, V', unvisited')
      && (unvisited' < unvisited || (unvisited' == unvisited && |q'| < |q|))
  {
    var e, rest := PopMin(q);
    lastF', W', V', WV', unvisited' := e.f, W, V, WV, unvisited;
    q' := rest;
    if PosOf(e) == exit {
      SearchExit(g, start, exit, q, lastF, W, V, WV, e);
      found := Some(e.g);
      return;
    }
    found := None;
    var s := PosOf(e);
    var previous := Recorded(g, visited, s, V);
    if previous.Some? && previous.value <= e.g {
      SearchSkip(g, start, exit, q, lastF, W, V, WV, e, rest);
      return;
    }
    if s in V {
      PopKeeps(g, start, exit, q, e, rest, lastF, W, V);
      RecordedNotCheaper(g, exit, e, V);
    }
    SearchExpand(g, start, exit, q, lastF, W, V, WV, e, rest);
    Record(g, visited, s, e.g, V);
    V', WV' := V[s := e.g], WV[s := W[e]];
    W' := W + ChildWalks(g, exit, e, W);
    unvisited' := unvisited - {s};
    q' := Expand(g, exit, e, rest);
  }

  /**
   * `has_path`: A* from `start` with the distance to the exit as heuristic. It returns the
   * number of moves of a shortest path to the exit, and nothing exactly when no path reaches it.
   * Both callers hand it a `visited` array of the grid's size with nothing recorded.
   */
  method HasPath(g: Grid, start: Pos, exit: Pos, visited: array2<Option<nat>>) returns (steps: Option<nat>)
    requires Rect(g) && InGrid(g, start) && Mirrors(g, visited, map[])
    modifies visited
    ensures steps.Some? ==> MinSteps(g, start, exit, steps.value)
    ensures steps.None? <==> !Reachable(g, start, exit)
  {
    var q := [Seed(start, exit)];
    ghost var V: map<Pos, nat> := map[];
    ghost var WV: map<Pos, seq<Pos>> := map[];
    ghost var W: map<Entry, seq<Pos>> := map[Seed(start, exit) := [start]];
    ghost var lastF: nat := Manhattan(start, exit);
    ghost var unvisited := set r, c | 0 <= r < |g| && 0 <= c < Cols(g) :: (r, c);
    SearchInit(g, start, exit, W);
    assert Unvisited(g, V, unvisited) by {
      forall p | InGrid(g, p)
        ensures p in unvisited
      {
        var (r, c) := p;
        assert 0 <= r < |g| && 0 <= c < Cols(g);
      }
    }
    while q != []
      invariant SearchInv(g, start, exit, q, lastF, W, V, WV) && Mirrors(g, visited, V) && Unvisited(g, V, unvisited)
      decreases unvisited, |q|
    {
      var found;
      found, q, lastF, W, V, WV, unvisited := SearchStep(g, start, exit, visited, q, lastF, W, V, WV, unvisited);
      if found.Some? {
        assert Reachable(g, start, exit) by {
          var w :| IsWalk(g, start, w) && Last(w) == exit && Moves(w) == found.value;
        }
        return found;
      }
    }
    Unreachable(g, start, exit, V, WV);
    return None;
  }

  /** The grid is 71 by 71 for a real input of at least 1024 bytes, 7 by 7 for the example. */
  function Size(n: nat): nat
  {
    if n >= 1024 then 71 else 7
  }

  /** How many bytes part 1 lets fall, and where part 2's search starts. */
  function MaxCount(n: nat): nat
  {
    if n >= 1024 then 1024 else 12
  }

  predicate InSquare(p: Pos, size: nat)
  {
    0 <= p.0 < size && 0 <= p.1 < size
  }

  /** The `size` by `size` grid after the first `k` bytes have fallen. */
  function Corrupted(data: seq<Pos>, k: nat, size: nat): (g: Grid)
    requires k <= |data|
    ensures Rect(g) && |g| == size && Cols(g) == size
    ensures forall r, c :: 0 <= r < size && 0 <= c < size ==> (g[r][c] <==> (r, c) in data[..k])
  {
    seq(size, r => seq(size, c => (r, c) in data[..k]))
  }

  /**
   * More fallen bytes never open a path: whatever path exists after `k'` bytes existed already
   * after `k <= k'`. This is what makes part 2's binary search sound.
   */
  lemma CorruptedMonotone(data: seq<Pos>, size: nat, k: nat, k': nat, start: Pos, exit: Pos)
    requires k <= k' <= |data| && Reachable(Corrupted(data, k', size), start, exit)
    ensures Reachable(Corrupted(data, k, size), start, exit)
  {
    var g, g' := Corrupted(data, k, size), Corrupted(data, k', size);
    var w :| IsWalk(g', start, w) && Last(w) == exit;
    assert data[..k] == data[..k'][..k];
    forall i | 0 <= i < |w| - 1
      ensures Step(g, w[i], w[i + 1])
    {
      assert Step(g', w[i], w[i + 1]);
    }
    assert IsWalk(g, start, w);
  }

  /** Two rectangular grids of the same size with the same cells are equal. */
  lemma SameGrid(g: Grid, g': Grid)
    requires Rect(g) && Rect(g') && |g| == |g'| && Cols(g) == Cols(g')
    requires forall r, c :: 0 <= r < |g| && 0 <= c < Cols(g) ==> g[r][c] == g'[r][c]
    ensures g == g'
  {
    forall r | 0 <= r < |g|
      ensures g[r] == g'[r]
    {
      assert |g[r]| == Cols(g) == |g'[r]|;
    }
  }

  /** `grid.view()`: the rows of a two-dimensional array. */
  function Rows(a: array2<bool>): (g: Grid)
    reads a
    ensures Rect(g) && |g| == a.Length0 && Cols(g) == (if a.Length0 == 0 then 0 else a.Length1)
    ensures forall r, c :: 0 <= r < a.Length0 && 0 <= c < a.Length1 ==> g[r][c] == a[r, c]
  {
    seq(a.Length0, r requires 0 <= r < a.Length0 reads a => seq(a.Length1, c requires 0 <= c < a.Length1 reads a => a[r, c]))
  }

  /** The corner cells of part 1 and 2. */
  function Exit(size: nat): Pos
  {
    (size - 1, size - 1)
  }

  /**
   * `day_18_part_1`: let the first bytes fall on an empty grid and return the length of a
   * shortest path from the top-left to the bottom-right corner. Taking those bytes panics when
   * there are fewer than 12, a byte outside the grid panics, and so does a grid without a path.
   */
  method Part1(data: seq<Pos>) returns (steps: nat)
    requires MaxCount(|data|) <= |data|
    requires forall i :: 0 <= i < MaxCount(|data|) ==> InSquare(data[i], Size(|data|))
    requires Reachable(Corrupted(data, MaxCount(|data|), Size(|data|)), (0, 0), Exit(Size(|data|)))
    ensures MinSteps(Corrupted(data, MaxCount(|data|), Size(|data|)), (0, 0), Exit(Size(|data|)), steps)
    ensures steps >= 2 * (Size(|data|) - 1)
  {
    var size := Size(|data|);
    var maxCount := MaxCount(|data|);
    var grid := new bool[size, size]((_, _) => false);
    for i := 0 to maxCount
      invariant forall r, c :: 0 <= r < size && 0 <= c < size ==> grid[r, c] == ((r, c) in data[..i])
    {
      assert data[..i + 1] == data[..i] + [data[i]];
      grid[data[i].0, data[i].1] := true;
    }
    var view := Rows(grid);
    SameGrid(view, Corrupted(data, maxCount, size));
    var visited := new Option<nat>[size, size]((_, _) => None);
    var found := HasPath(view, (0, 0), Exit(size), visited);
    steps := found.value;
    MinStepsAtLeastDistance(view, (0, 0), Exit(size), steps);
  }

  /** The time cube: cell `(r, c)` is corrupted at time `t` once byte `t` or an earlier one fell there. */
  ghost predicate Filled(cube: array3<bool>, data: seq<Pos>, time: nat)
    reads cube
  {
    && time <= |data|
    && forall r, c, t :: 0 <= r < cube.Length0 && 0 <= c < cube.Length1 && 0 <= t < cube.Length2 ==>
      (cube[r, c, t] <==> exists i :: 0 <= i < time && i <= t && data[i] == (r, c))
  }

  /** `cube.slice_mut(s![row, col, time..]).fill(true)`. */
  method FillFrom(cube: array3<bool>, row: nat, col: nat, time: nat)
    requires row < cube.Length0 && col < cube.Length1
    modifies cube
    ensures forall r, c, t :: 0 <= r < cube.Length0 && 0 <= c < cube.Length1 && 0 <= t < cube.Length2 ==>
      cube[r, c, t] == (old(cube[r, c, t]) || (r == row && c == col && time <= t))
  {
    forall t | time <= t < cube.Length2 {
      cube[row, col, t] := true;
    }
  }

  /** `cube.index_axis(Axis(2), time)`: the grid at one moment. */
  function Layer(cube: array3<bool>, time: nat): (g: Grid)
    requires time < cube.Length2
    reads cube
    ensures Rect(g) && |g| == cube.Length0 && Cols(g) == (if cube.Length0 == 0 then 0 else cube.Length1)
    ensures forall r, c :: 0 <= r < cube.Length0 && 0 <= c < cube.Length1 ==> g[r][c] == cube[r, c, time]
  {
    seq(cube.Length0, r requires 0 <= r < cube.Length0 reads cube =>
      seq(cube.Length1, c requires 0 <= c < cube.Length1 reads cube => cube[r, c, time]))
  }

  /** A filled cube's layer at time `t` is the grid after bytes `0..t` have fallen. */
  lemma LayerIsCorrupted(cube: array3<bool>, data: seq<Pos>, t: nat)
    requires cube.Length0 == cube.Length1 && cube.Length2 == |data| && t < |data| && Filled(cube, data, |data|)
    ensures Layer(cube, t) == Corrupted(data, t + 1, cube.Length0)
  {
    var g, g' := Layer(cube, t), Corrupted(data, t + 1, cube.Length0);
    forall r, c | 0 <= r < cube.Length0 && 0 <= c < cube.Length1
      ensures g[r][c] == g'[r][c]
    {
      if g'[r][c] {
        var i :| 0 <= i < t + 1 && data[..t + 1][i] == (r, c);
        assert data[i] == (r, c);
      }
    }
    SameGrid(g, g');
  }

  /** `visited.fill(None)`. */
  method ResetVisited(visited: array2<Option<nat>>)
    modifies visited
    ensures forall r, c :: 0 <= r < visited.Length0 && 0 <= c < visited.Length1 ==> visited[r, c] == None
  {
    forall r, c | 0 <= r < visited.Length0 && 0 <= c < visited.Length1 {
      visited[r, c] := None;
    }
  }

  /** The corner cells are still connected after bytes `0..t` have fallen. */
  ghost predicate PathAt(data: seq<Pos>, size: nat, t: nat)
    requires t < |data|
  {
    Reachable(Corrupted(data, t + 1, size), (0, 0), Exit(size))
  }

  /** After bytes `0..t` have fallen the exit is cut off, while it could still be reached at every earlier moment from `low` on. */
  ghost predicate FirstCut(data: seq<Pos>, size: nat, low: nat, t: nat)
    requires t < |data|
  {
    !PathAt(data, size, t) && forall t' :: low <= t' < t ==> PathAt(data, size, t')
  }

  /** Paths only disappear as time goes on. */
  lemma PathAtMonotone(data: seq<Pos>, size: nat, t: nat, t': nat)
    requires t <= t' < |data| && PathAt(data, size, t')
    ensures PathAt(data, size, t)
  {
    CorruptedMonotone(data, size, t + 1, t' + 1, (0, 0), Exit(size));
  }

  /** The loop of `day_18_part_2` that fills the cube, one byte at a time. */
  method BuildCube(data: seq<Pos>, size: nat) returns (cube: array3<bool>)
    requires forall i :: 0 <= i < |data| ==> InSquare(data[i], size)
    ensures fresh(cube) && cube.Length0 == size && cube.Length1 == size && cube.Length2 == |data|
    ensures Filled(cube, data, |data|)
  {
    cube := new bool[size, size, |data|]((_, _, _) => false);
    for time := 0 to |data|
      invariant Filled(cube, data, time)
    {
      FillFrom(cube, data[time].0, data[time].1, time);
    }
  }

  /** One probe of the binary search: reset `visited` and ask `has_path` about the layer at `pivot`. */
  method Probe(data: seq<Pos>, cube: array3<bool>, visited: array2<Option<nat>>, pivot: nat) returns (path: bool)
    requires 0 < cube.Length0 == cube.Length1 && cube.Length2 == |data| && Filled(cube, data, |data|)
    requires pivot < |data| && visited.Length0 == cube.Length0 && visited.Length1 == cube.Length0
    modifies visited
    ensures path == PathAt(data, cube.Length0, pivot)
  {
    var grid := Layer(cube, pivot);
    LayerIsCorrupted(cube, data, pivot);
    ResetVisited(visited);
    var found := HasPath(grid, (0, 0), Exit(cube.Length0), visited);
    path := found.Some?;
  }

  /** A path at `pivot` means a path at every moment from `time` to `pivot`. */
  lemma PathsUpTo(data: seq<Pos>, size: nat, time: nat, pivot: nat)
    requires pivot < |data| && PathAt(data, size, pivot)
    ensures forall t :: time <= t <= pivot ==> PathAt(data, size, t)
  {
    forall t | time <= t <= pivot
      ensures PathAt(data, size, t)
    {
      PathAtMonotone(data, size, t, pivot);
    }
  }

  /**
   * The binary search of `day_18_part_2` between `low` and the number of bytes. With paths only
   * disappearing over time, it finds the first moment from `low` on without a path.
   */
  method SearchCut(data: seq<Pos>, cube: array3<bool>, low: nat) returns (time: nat)
    requires 0 < cube.Length0 == cube.Length1 && cube.Length2 == |data| && Filled(cube, data, |data|)
    requires low <= |data|
    ensures low <= time <= |data|
    ensures forall t :: low <= t < time ==> PathAt(data, cube.Length0, t)
    ensures time < |data| ==> !PathAt(data, cube.Length0, time)
  {
    var size := cube.Length0;
    var visited := new Option<nat>[size, size]((_, _) => None);
    time := low;
    var high := |data|;
    while time < high
      invariant low <= time <= high <= |data|
      invariant forall t :: low <= t < time ==> PathAt(data, size, t)
      invariant high < |data| ==> !PathAt(data, size, high)
      decreases high - time
    {
      var pivot := time + (high - time) / 2;
      var path := Probe(data, cube, visited, pivot);
      if path {
        PathsUpTo(data, size, time, pivot);
        time := pivot + 1;
      } else {
        high := pivot;
      }
    }
  }

  /** If a path survives the first `low` bytes, one survives at every earlier moment. */
  lemma EarlierPaths(data: seq<Pos>, size: nat, low: nat)
    requires low <= |data| && Reachable(Corrupted(data, low, size), (0, 0), Exit(size))
    ensures forall t :: 0 <= t < low ==> PathAt(data, size, t)
  {
    forall t | 0 <= t < low
      ensures PathAt(data, size, t)
    {
      CorruptedMonotone(data, size, t + 1, low, (0, 0), Exit(size));
    }
  }

  /** Part 1's grid has a path between the corners. */
  ghost predicate Part1Path(data: seq<Pos>)
  {
    MaxCount(|data|) <= |data| && Reachable(Corrupted(data, MaxCount(|data|), Size(|data|)), (0, 0), Exit(Size(|data|)))
  }

  /**
   * `day_18_part_2`: the byte whose fall first cuts the corner cells apart, searched from the
   * moment part 1 looks at. A byte outside the grid panics, and so does an input whose last
   * byte leaves a path. When part 1's grid still has a path, that byte is the first one to cut
   * the path at all.
   */
  method Part2(data: seq<Pos>) returns (byte: Pos)
    requires forall i :: 0 <= i < |data| ==> InSquare(data[i], Size(|data|))
    requires exists t :: MaxCount(|data|) <= t < |data| && !PathAt(data, Size(|data|), t)
    ensures exists t :: MaxCount(|data|) <= t < |data| && byte == data[t] && FirstCut(data, Size(|data|), MaxCount(|data|), t)
    ensures Part1Path(data) ==> exists t :: 0 <= t < |data| && byte == data[t] && FirstCut(data, Size(|data|), 0, t)
  {
    var n := |data|;
    var size := Size(n);
    var cube := BuildCube(data, size);
    var low := MaxCount(n);
    var time := SearchCut(data, cube, low);
    assert time < n;
    byte := data[time];
    assert FirstCut(data, size, low, time);
    if Part1Path(data) {
      EarlierPaths(data, size, low);
      assert FirstCut(data, size, 0, time);
    }
  }
}
