/**
 * Day 10: on a topographic map of heights 0 to 9, a depth-first search from every top (height 9)
 * descends one unit at a time; every cell it reaches has its counter raised, and the answer adds
 * up the counters of the trailheads (height 0).
 */
module Day10 {
  import opened Common

  type Grid = seq<seq<Option<nat>>>
  type Pos = (int, int)

  /** `ascii_to_height`: digits give their value, '.' gives none; anything else panics. */
  function AsciiToHeight(c: char): (h: Option<nat>)
    requires IsDigit(c) || c == '.'
    ensures h.None? <==> c == '.'
    ensures h.Some? ==> h.value <= 9 && "0123456789"[h.value] == c
  {
    if c == '.' then None else Some(c as int - 48)
  }

  /** A rectangular map with at least one cell, as the parser builds it, of heights at most 9. */
  predicate IsGrid(g: Grid)
  {
    && |g| >= 1 && |g[0]| >= 1
    && (forall r :: 0 <= r < |g| ==> |g[r]| == |g[0]|)
    && forall r, c :: 0 <= r < |g| && 0 <= c < |g[r]| && g[r][c].Some? ==> g[r][c].value <= 9
  }

  predicate InGrid(g: Grid, p: Pos)
  {
    0 <= p.0 < |g| && 0 <= p.1 < |g[0]|
  }

  function At(g: Grid, p: Pos): Option<nat>
    requires IsGrid(g) && InGrid(g, p)
  {
    g[p.0][p.1]
  }

  predicate Adjacent(p: Pos, q: Pos)
  {
    || (p.0 == q.0 && (q.1 == p.1 + 1 || q.1 == p.1 - 1))
    || (p.1 == q.1 && (q.0 == p.0 + 1 || q.0 == p.0 - 1))
  }

  /** A unit descent: from a cell of height `h >= 1` to an orthogonal neighbour of height `h - 1`. */
  predicate Step(g: Grid, p: Pos, q: Pos)
  {
    && IsGrid(g) && InGrid(g, p) && InGrid(g, q) && Adjacent(p, q)
    && At(g, p).Some? && At(g, p).value >= 1 && At(g, q) == Some(At(g, p).value - 1)
  }

  ghost predicate IsDescent(g: Grid, path: seq<Pos>)
  {
    |path| >= 1 && InGrid(g, path[0]) && forall i :: 0 <= i < |path| - 1 ==> Step(g, path[i], path[i + 1])
  }

  /** `p` can be reached from `t` by unit descents. */
  ghost predicate Reaches(g: Grid, t: Pos, p: Pos)
  {
    exists path :: IsDescent(g, path) && path[0] == t && path[|path| - 1] == p
  }

  /** Along a descent the height drops by exactly one per cell. */
  lemma {:induction false} DescentHeights(g: Grid, path: seq<Pos>, i: nat)
    requires IsGrid(g) && IsDescent(g, path) && i < |path| && At(g, path[0]).Some?
    ensures InGrid(g, path[i]) && At(g, path[i]) == Some(At(g, path[0]).value - i)
  {
    if i > 0 {
      DescentHeights(g, path, i - 1);
    }
  }

  /** So a top reaches a trailhead only along a hiking trail of exactly ten cells, 9 down to 0. */
  lemma TrailLength(g: Grid, path: seq<Pos>)
    requires IsGrid(g) && IsDescent(g, path)
    requires At(g, path[0]) == Some(9) && InGrid(g, path[|path| - 1]) && At(g, path[|path| - 1]) == Some(0)
    ensures |path| == 10
    ensures forall i :: 0 <= i < |path| ==> InGrid(g, path[i]) && At(g, path[i]) == Some(9 - i)
  {
    DescentHeights(g, path, |path| - 1);
    forall i | 0 <= i < |path|
      ensures InGrid(g, path[i]) && At(g, path[i]) == Some(9 - i)
    {
      DescentHeights(g, path, i);
    }
  }

  lemma ReachesSelf(g: Grid, t: Pos)
    requires InGrid(g, t)
    ensures Reaches(g, t, t)
  {
    assert IsDescent(g, [t]);
  }

  lemma ReachesStep(g: Grid, t: Pos, p: Pos, q: Pos)
    requires Reaches(g, t, p) && Step(g, p, q)
    ensures Reaches(g, t, q)
  {
    var path :| IsDescent(g, path) && path[0] == t && path[|path| - 1] == p;
    var longer := path + [q];
    assert forall i :: 0 <= i < |longer| - 1 ==> Step(g, longer[i], longer[i + 1]) by {
      forall i | 0 <= i < |longer| - 1
        ensures Step(g, longer[i], longer[i + 1])
      {
        if i < |path| - 1 {
          assert longer[i] == path[i] && longer[i + 1] == path[i + 1];
        }
      }
    }
    assert IsDescent(g, longer);
  }

  // ---------------------------------------------------------------------------------------------
  // One depth-first search from a top.

  type Item = (Pos, nat)

  /** The pushes after visiting `p` at height `h >= 1`: up, down, left, right, when one unit lower. */
  function Successors(g: Grid, p: Pos, h: nat): seq<Item>
    requires IsGrid(g) && InGrid(g, p) && h >= 1
  {
    var target := h - 1;
    var up := if p.0 > 0 && At(g, (p.0 - 1, p.1)) == Some(target) then [((p.0 - 1, p.1), target)] else [];
    var down := if p.0 < |g| - 1 && At(g, (p.0 + 1, p.1)) == Some(target) then [((p.0 + 1, p.1), target)] else [];
    var left := if p.1 > 0 && At(g, (p.0, p.1 - 1)) == Some(target) then [((p.0, p.1 - 1), target)] else [];
    var right := if p.1 < |g[0]| - 1 && At(g, (p.0, p.1 + 1)) == Some(target) then [((p.0, p.1 + 1), target)] else [];
    up + down + left + right
  }

  /** The cells waiting on the pile. */
  function Pending(pile: seq<Item>): set<Pos>
  {
    set k | 0 <= k < |pile| :: pile[k].0
  }

  /** Each pushed cell is one unit descent away, and every unit descent from `p` is pushed. */
  lemma SuccessorsMeaning(g: Grid, p: Pos, h: nat)
    requires IsGrid(g) && InGrid(g, p) && At(g, p) == Some(h) && h >= 1
    ensures forall k :: 0 <= k < |Successors(g, p, h)| ==>
      Step(g, p, Successors(g, p, h)[k].0) && Successors(g, p, h)[k].1 == h - 1
    ensures forall q :: Step(g, p, q) ==> q in Pending(Successors(g, p, h))
  {
    SuccessorsComplete(g, p, h);
  }

  lemma SuccessorsComplete(g: Grid, p: Pos, h: nat)
    requires IsGrid(g) && InGrid(g, p) && At(g, p) == Some(h) && h >= 1
    ensures forall q :: Step(g, p, q) ==> q in Pending(Successors(g, p, h))
  {
    var s := Successors(g, p, h);
    forall q | Step(g, p, q)
      ensures q in Pending(s)
    {
      var target := h - 1;
      var up := if p.0 > 0 && At(g, (p.0 - 1, p.1)) == Some(target) then [((p.0 - 1, p.1), target)] else [];
      var down := if p.0 < |g| - 1 && At(g, (p.0 + 1, p.1)) == Some(target) then [((p.0 + 1, p.1), target)] else [];
      var left := if p.1 > 0 && At(g, (p.0, p.1 - 1)) == Some(target) then [((p.0, p.1 - 1), target)] else [];
      var right := if p.1 < |g[0]| - 1 && At(g, (p.0, p.1 + 1)) == Some(target) then [((p.0, p.1 + 1), target)] else [];
      assert s == up + down + left + right;
      if q == (p.0 - 1, p.1) {
        assert s[0] == (q, target);
      } else if q == (p.0 + 1, p.1) {
        assert s[|up|] == (q, target);
      } else if q == (p.0, p.1 - 1) {
        assert s[|up| + |down|] == (q, target);
      } else {
        assert s[|up| + |down| + |left|] == (q, target);
      }
    }
  }

  lemma PendingAppend(a: seq<Item>, b: seq<Item>)
    ensures Pending(a + b) == Pending(a) + Pending(b)
  {
    forall q | q in Pending(a + b)
      ensures q in Pending(a) + Pending(b)
    {
      var k :| 0 <= k < |a + b| && (a + b)[k].0 == q;
      if k >= |a| {
        assert b[k - |a|].0 == q;
      }
    }
    forall q | q in Pending(a) + Pending(b)
      ensures q in Pending(a + b)
    {
      if q in Pending(a) {
        var k :| 0 <= k < |a| && a[k].0 == q;
        assert (a + b)[k].0 == q;
      } else {
        var k :| 0 <= k < |b| && b[k].0 == q;
        assert (a + b)[|a| + k].0 == q;
      }
    }
  }

  ghost function AllCells(g: Grid): set<Pos>
  {
    set r, c | 0 <= r < |g| && 0 <= c < |g[0]| :: (r, c)
  }

  /**
   * The search state of a search from top `t`: visited cells and piled cells are reachable from
   * `t` and piled with their height; every unit descent out of a visited cell ends in a visited or
   * piled cell; `t` itself is visited or piled.
   */
  ghost predicate Searching(g: Grid, t: Pos, visited: set<Pos>, pile: seq<Item>)
  {
    && IsGrid(g)
    && (forall p :: p in visited ==> InGrid(g, p) && Reaches(g, t, p))
    && (forall k :: 0 <= k < |pile| ==>
          InGrid(g, pile[k].0) && At(g, pile[k].0) == Some(pile[k].1) && Reaches(g, t, pile[k].0))
    && (forall p, q :: p in visited && Step(g, p, q) ==> q in visited || q in Pending(pile))
    && (t in visited || t in Pending(pile))
  }

  /** A finished search has visited exactly the cells reachable from the top. */
  lemma SearchedAll(g: Grid, t: Pos, visited: set<Pos>)
    requires Searching(g, t, visited, [])
    ensures forall p :: p in visited <==> InGrid(g, p) && Reaches(g, t, p)
  {
    forall p | InGrid(g, p) && Reaches(g, t, p)
      ensures p in visited
    {
      var path :| IsDescent(g, path) && path[0] == t && path[|path| - 1] == p;
      ClosedAlong(g, t, visited, path, |path| - 1);
    }
  }

  lemma {:induction false} ClosedAlong(g: Grid, t: Pos, visited: set<Pos>, path: seq<Pos>, i: nat)
    requires Searching(g, t, visited, []) && IsDescent(g, path) && path[0] == t && i < |path|
    ensures path[i] in visited
  {
    if i > 0 {
      ClosedAlong(g, t, visited, path, i - 1);
      assert Step(g, path[i - 1], path[i]);
    }
  }

  /** The visited array and the visited set agree, and each counter rose once per visited cell. */
  ghost predicate Tallied(g: Grid, marks: array2<bool>, counters: array2<nat>, base: seq<seq<nat>>,
                          visited: set<Pos>)
    reads marks, counters
  {
    && IsGrid(g) && marks.Length0 == counters.Length0 == |base| == |g|
    && marks.Length1 == counters.Length1 == |g[0]|
    && (forall r :: 0 <= r < |g| ==> |base[r]| == |g[0]|)
    && forall r, c :: 0 <= r < |g| && 0 <= c < |g[0]| ==>
         && (marks[r, c] <==> (r, c) in visited)
         && counters[r, c] == base[r][c] + (if (r, c) in visited then 1 else 0)
  }

  function Snapshot(a: array2<nat>): (s: seq<seq<nat>>)
    reads a
    ensures |s| == a.Length0 && forall r :: 0 <= r < |s| ==> |s[r]| == a.Length1
    ensures forall r, c :: 0 <= r < a.Length0 && 0 <= c < a.Length1 ==> s[r][c] == a[r, c]
  {
    seq(a.Length0, r requires 0 <= r < a.Length0 reads a => seq(a.Length1, c requires 0 <= c < a.Length1 reads a => a[r, c]))
  }

  /** Popping a cell that was already visited keeps the search state. */
  lemma PopVisited(g: Grid, t: Pos, visited: set<Pos>, pile: seq<Item>)
    requires pile != [] && Searching(g, t, visited, pile) && pile[|pile| - 1].0 in visited
    ensures Searching(g, t, visited, pile[..|pile| - 1])
  {
    var rest := pile[..|pile| - 1];
    assert pile == rest + [pile[|pile| - 1]];
    PendingAppend(rest, [pile[|pile| - 1]]);
    assert Pending([pile[|pile| - 1]]) == {pile[|pile| - 1].0};
  }

  /** Visiting a trailhead (height 0) keeps the search state: no descent leaves it. */
  lemma VisitBottom(g: Grid, t: Pos, visited: set<Pos>, pile: seq<Item>)
    requires pile != [] && Searching(g, t, visited, pile) && pile[|pile| - 1].1 == 0
    ensures Searching(g, t, visited + {pile[|pile| - 1].0}, pile[..|pile| - 1])
  {
    var rest := pile[..|pile| - 1];
    assert pile == rest + [pile[|pile| - 1]];
    PendingAppend(rest, [pile[|pile| - 1]]);
    assert Pending([pile[|pile| - 1]]) == {pile[|pile| - 1].0};
  }

  /** The cells piled after visiting `p` are reachable, piled with their height, and cover every descent. */
  lemma PushedItems(g: Grid, t: Pos, p: Pos, h: nat)
    requires IsGrid(g) && InGrid(g, p) && At(g, p) == Some(h) && h >= 1 && Reaches(g, t, p)
    ensures forall k :: 0 <= k < |Successors(g, p, h)| ==>
      var item := Successors(g, p, h)[k];
      InGrid(g, item.0) && At(g, item.0) == Some(item.1) && Reaches(g, t, item.0)
    ensures forall q :: Step(g, p, q) ==> q in Pending(Successors(g, p, h))
  {
    SuccessorsMeaning(g, p, h);
    var next := Successors(g, p, h);
    forall k | 0 <= k < |next|
      ensures Reaches(g, t, next[k].0)
    {
      ReachesStep(g, t, p, next[k].0);
    }
  }

  /** Visiting a higher cell and piling its unit descents keeps the search state. */
  lemma VisitAndPush(g: Grid, t: Pos, visited: set<Pos>, pile: seq<Item>)
    requires pile != [] && Searching(g, t, visited, pile) && pile[|pile| - 1].1 >= 1
    ensures InGrid(g, pile[|pile| - 1].0)
    ensures Searching(g, t, visited + {pile[|pile| - 1].0},
                      pile[..|pile| - 1] + Successors(g, pile[|pile| - 1].0, pile[|pile| - 1].1))
  {
    var (p, h) := pile[|pile| - 1];
    var rest := pile[..|pile| - 1];
    assert pile == rest + [(p, h)];
    PendingAppend(rest, [(p, h)]);
    assert Pending([(p, h)]) == {p};
    PushedItems(g, t, p, h);
    var next := Successors(g, p, h);
    PendingAppend(rest, next);
    var pile' := rest + next;
    forall k | 0 <= k < |pile'|
      ensures InGrid(g, pile'[k].0) && At(g, pile'[k].0) == Some(pile'[k].1) && Reaches(g, t, pile'[k].0)
    {
      if k >= |rest| {
        assert pile'[k] == next[k - |rest|];
      }
    }
  }

  /** `reachable_tops_counters[(row, col)] += 1; visited[(row, col)] = true;` */
  method Mark(g: Grid, marks: array2<bool>, counters: array2<nat>, ghost base: seq<seq<nat>>,
              ghost visited: set<Pos>, p: Pos)
    modifies marks, counters
    requires Tallied(g, marks, counters, base, visited) && InGrid(g, p) && p !in visited
    ensures Tallied(g, marks, counters, base, visited + {p})
  {
    counters[p.0, p.1] := counters[p.0, p.1] + 1;
    marks[p.0, p.1] := true;
  }

  lemma VisitedShrinks(g: Grid, visited: set<Pos>, p: Pos)
    requires visited <= AllCells(g) && p in AllCells(g) && p !in visited
    ensures |AllCells(g) - (visited + {p})| < |AllCells(g) - visited|
  {
    assert AllCells(g) - visited == (AllCells(g) - (visited + {p})) + {p};
  }

  /** One pop of `while let Some(((row, col), height)) = dfs_pile.pop()`. */
  method Visit(g: Grid, t: Pos, marks: array2<bool>, counters: array2<nat>, ghost base: seq<seq<nat>>,
               pile: seq<Item>, ghost visited: set<Pos>)
    returns (pile': seq<Item>, ghost visited': set<Pos>)
    modifies marks, counters
    requires pile != [] && visited <= AllCells(g)
    requires Searching(g, t, visited, pile) && Tallied(g, marks, counters, base, visited)
    ensures Searching(g, t, visited', pile') && Tallied(g, marks, counters, base, visited')
    ensures visited' <= AllCells(g)
    ensures || (visited' == visited && |pile'| < |pile|)
            || |AllCells(g) - visited'| < |AllCells(g) - visited|
  {
    var item := pile[|pile| - 1];
    var p := item.0;
    pile' := pile[..|pile| - 1];
    if marks[p.0, p.1] {
      visited' := visited;
      PopVisited(g, t, visited, pile);
      return;
    }
    Mark(g, marks, counters, base, visited, p);
    visited' := visited + {p};
    assert p in AllCells(g);
    VisitedShrinks(g, visited, p);
    if item.1 == 0 {
      VisitBottom(g, t, visited, pile);
      return;
    }
    VisitAndPush(g, t, visited, pile);
    pile' := pile' + Successors(g, p, item.1);
  }

  /**
   * The search from top `t` with a fresh visited array: afterwards the counters of exactly the
   * cells reachable from `t` have risen by one.
   */
  method Explore(g: Grid, t: Pos, counters: array2<nat>)
    modifies counters
    requires IsGrid(g) && InGrid(g, t) && At(g, t) == Some(9)
    requires counters.Length0 == |g| && counters.Length1 == |g[0]|
    ensures forall r, c :: 0 <= r < |g| && 0 <= c < |g[0]| ==>
      counters[r, c] == old(counters[r, c]) + (if Reaches(g, t, (r, c)) then 1 else 0)
  {
    ghost var base := Snapshot(counters);
    var pile: seq<Item> := [(t, 9)];
    var marks := new bool[|g|, |g[0]|]((_, _) => false);
    ghost var visited: set<Pos> := {};
    ReachesSelf(g, t);
    assert Pending(pile) == {t} by {
      assert pile[0].0 == t;
    }
    while pile != []
      invariant Searching(g, t, visited, pile) && Tallied(g, marks, counters, base, visited)
      invariant visited <= AllCells(g)
      decreases |AllCells(g) - visited|, |pile|
    {
      pile, visited := Visit(g, t, marks, counters, base, pile, visited);
    }
    SearchedAll(g, t, visited);
    SearchTallied(g, t, marks, counters, base, visited);
  }

  lemma SearchTallied(g: Grid, t: Pos, marks: array2<bool>, counters: array2<nat>, base: seq<seq<nat>>,
                      visited: set<Pos>)
    requires Tallied(g, marks, counters, base, visited)
    requires forall p :: p in visited <==> InGrid(g, p) && Reaches(g, t, p)
    ensures forall r, c :: 0 <= r < |g| && 0 <= c < |g[0]| ==>
      counters[r, c] == base[r][c] + (if Reaches(g, t, (r, c)) then 1 else 0)
  {
    forall r, c | 0 <= r < |g| && 0 <= c < |g[0]|
      ensures counters[r, c] == base[r][c] + (if Reaches(g, t, (r, c)) then 1 else 0)
    {
      assert (r, c) in visited <==> Reaches(g, t, (r, c));
    }
  }

  // ---------------------------------------------------------------------------------------------
  // All tops, then the trailheads' sum.

  predicate Before(p: Pos, q: Pos)
  {
    p.0 < q.0 || (p.0 == q.0 && p.1 < q.1)
  }

  /** The tops before `limit` in row-major order that reach `p`. */
  ghost function TopsReaching(g: Grid, p: Pos, limit: Pos): set<Pos>
    requires IsGrid(g)
  {
    set r, c | 0 <= r < |g| && 0 <= c < |g[0]| && Before((r, c), limit) && At(g, (r, c)) == Some(9)
      && Reaches(g, (r, c), p) :: (r, c)
  }

  /** The score of a trailhead: the number of tops from which it can be reached. */
  ghost function Score(g: Grid, z: Pos): nat
    requires IsGrid(g)
  {
    |TopsReaching(g, z, (|g|, 0))|
  }

  /** Each top is counted at most once, so a score never exceeds the number of cells. */
  lemma ScoreBound(g: Grid, z: Pos)
    requires IsGrid(g)
    ensures Score(g, z) <= |AllCells(g)|
  {
    SubsetCardinality(TopsReaching(g, z, (|g|, 0)), AllCells(g));
  }

  lemma TopsReachingNext(g: Grid, p: Pos, t: Pos)
    requires IsGrid(g) && InGrid(g, t)
    ensures TopsReaching(g, p, (t.0, t.1 + 1))
      == TopsReaching(g, p, t) + (if At(g, t) == Some(9) && Reaches(g, t, p) then {t} else {})
    ensures t !in TopsReaching(g, p, t)
  {
  }

  lemma RowEnd(g: Grid, p: Pos, r: int)
    requires IsGrid(g)
    ensures TopsReaching(g, p, (r, |g[0]|)) == TopsReaching(g, p, (r + 1, 0))
  {
  }

  /** The tops in row `r` before column `c` that reach `p`, counted one cell at a time. */
  ghost function TopsInRow(g: Grid, p: Pos, r: nat, c: nat): nat
    requires IsGrid(g) && r < |g| && c <= |g[0]|
  {
    if c == 0 then 0
    else TopsInRow(g, p, r, c - 1) + (if g[r][c - 1] == Some(9) && Reaches(g, (r, c - 1), p) then 1 else 0)
  }

  /** The tops in rows before `r` that reach `p`. */
  ghost function TopsAbove(g: Grid, p: Pos, r: nat): nat
    requires IsGrid(g) && r <= |g|
  {
    if r == 0 then 0 else TopsAbove(g, p, r - 1) + TopsInRow(g, p, r - 1, |g[0]|)
  }

  /** Before the first cell no top is counted. */
  lemma TopsCountedStart(g: Grid, p: Pos)
    requires IsGrid(g)
    ensures TopsAbove(g, p, 0) + TopsInRow(g, p, 0, 0) == |TopsReaching(g, p, (0, 0))|
  {
    assert TopsReaching(g, p, (0, 0)) == {};
  }

  /** The end of row `r - 1` and the start of row `r` bound the same tops. */
  lemma TopsCountedNextRow(g: Grid, p: Pos, r: nat)
    requires IsGrid(g) && 1 <= r < |g|
    requires TopsAbove(g, p, r - 1) + TopsInRow(g, p, r - 1, |g[0]|)
      == |TopsReaching(g, p, (r - 1, |g[0]|))|
    ensures TopsAbove(g, p, r) + TopsInRow(g, p, r, 0) == |TopsReaching(g, p, (r, 0))|
  {
    RowEnd(g, p, r - 1);
  }

  /** Moving the limit past `(r, c - 1)` counts it once more exactly when it is a top reaching `p`. */
  lemma TopsCountedNextCell(g: Grid, p: Pos, r: nat, c: nat)
    requires IsGrid(g) && r < |g| && 1 <= c <= |g[0]|
    requires TopsAbove(g, p, r) + TopsInRow(g, p, r, c - 1) == |TopsReaching(g, p, (r, c - 1))|
    ensures TopsAbove(g, p, r) + TopsInRow(g, p, r, c) == |TopsReaching(g, p, (r, c))|
  {
    TopsReachingNext(g, p, (r, c - 1));
  }

  /** The cell-by-cell count agrees with the number of tops before `(r, c)` reaching `p`. */
  lemma {:induction false} TopsCounted(g: Grid, p: Pos, r: nat, c: nat)
    requires IsGrid(g) && r < |g| && c <= |g[0]|
    ensures TopsAbove(g, p, r) + TopsInRow(g, p, r, c) == |TopsReaching(g, p, (r, c))|
    decreases r, c
  {
    if c == 0 {
      if r == 0 {
        TopsCountedStart(g, p);
      } else {
        TopsCounted(g, p, r - 1, |g[0]|);
        TopsCountedNextRow(g, p, r);
      }
    } else {
      TopsCounted(g, p, r, c - 1);
      TopsCountedNextCell(g, p, r, c);
    }
  }

  /** The score is the cell-by-cell count over the whole map. */
  lemma ScoreCounted(g: Grid, z: Pos)
    requires IsGrid(g)
    ensures Score(g, z) == TopsAbove(g, z, |g|)
  {
    TopsCounted(g, z, |g| - 1, |g[0]|);
    RowEnd(g, z, |g| - 1);
  }

  ghost predicate CountsBefore(g: Grid, counters: array2<nat>, r: nat, c: nat)
    requires IsGrid(g) && r < |g| && c <= |g[0]|
    reads counters
  {
    && counters.Length0 == |g| && counters.Length1 == |g[0]|
    && forall r', c' :: 0 <= r' < |g| && 0 <= c' < |g[0]| ==>
         counters[r', c'] == TopsAbove(g, (r', c'), r) + TopsInRow(g, (r', c'), r, c)
  }

  /** Processing the cell `(r, c)`: a top runs its search, any other cell changes nothing. */
  method ProcessCell(g: Grid, counters: array2<nat>, r: nat, c: nat)
    modifies counters
    requires IsGrid(g) && r < |g| && c < |g[0]| && CountsBefore(g, counters, r, c)
    ensures CountsBefore(g, counters, r, c + 1)
  {
    if g[r][c] == Some(9) {
      Explore(g, (r, c), counters);
    }
  }

  /**
   * The top loop of `day_10_part_1`: afterwards each counter holds the number of tops from which
   * its cell can be reached, which is the cell's score.
   */
  method CountReachingTops(g: Grid) returns (counters: array2<nat>)
    requires IsGrid(g)
    ensures counters.Length0 == |g| && counters.Length1 == |g[0]|
    ensures forall r, c :: 0 <= r < |g| && 0 <= c < |g[0]| ==> counters[r, c] == Score(g, (r, c))
  {
    counters := new nat[|g|, |g[0]|]((_, _) => 0);
    for r := 0 to |g|
      invariant counters.Length0 == |g| && counters.Length1 == |g[0]|
      invariant forall r', c' :: 0 <= r' < |g| && 0 <= c' < |g[0]| ==>
        counters[r', c'] == TopsAbove(g, (r', c'), r)
    {
      for c := 0 to |g[0]|
        invariant CountsBefore(g, counters, r, c)
      {
        ProcessCell(g, counters, r, c);
      }
    }
    forall r, c | 0 <= r < |g| && 0 <= c < |g[0]|
      ensures counters[r, c] == Score(g, (r, c))
    {
      ScoreCounted(g, (r, c));
    }
  }

  /** The scores of the trailheads in rows before `r`, plus those in row `r` before column `c`. */
  ghost function ScoreRow(g: Grid, r: nat, c: nat): nat
    requires IsGrid(g) && r < |g| && c <= |g[0]|
  {
    if c == 0 then 0
    else ScoreRow(g, r, c - 1) + (if g[r][c - 1] == Some(0) then Score(g, (r, c - 1)) else 0)
  }

  ghost function ScoreRows(g: Grid, r: nat): nat
    requires IsGrid(g) && r <= |g|
  {
    if r == 0 then 0 else ScoreRows(g, r - 1) + ScoreRow(g, r - 1, |g[0]|)
  }

  /** `day_10_part_1` on the parsed map: the sum of the trailheads' scores. */
  method Part1(g: Grid) returns (total: nat)
    requires IsGrid(g)
    ensures total == ScoreRows(g, |g|)
  {
    var counters := CountReachingTops(g);
    total := 0;
    for r := 0 to |g|
      invariant total == ScoreRows(g, r)
    {
      for c := 0 to |g[0]|
        invariant total == ScoreRows(g, r) + ScoreRow(g, r, c)
      {
        if g[r][c] == Some(0) {
          total := total + counters[r, c];
        }
      }
    }
  }
}
