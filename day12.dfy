/**
 * Day 12: a map of garden plots labelled by letters. Every 4-connected region of equal letters is
 * measured by a depth-first flood fill: its area is its number of plots and its perimeter its
 * number of fence sides (a plot side on the edge of the map or against another letter). The
 * price adds up area times perimeter over all regions.
 */
module Day12 {
  import opened Common

  type Grid = seq<seq<char>>
  type Pos = (int, int)

  /** A rectangular map with at least one plot, as the parser builds it. */
  predicate IsGrid(g: Grid)
  {
    |g| >= 1 && |g[0]| >= 1 && forall r :: 0 <= r < |g| ==> |g[r]| == |g[0]|
  }

  predicate InGrid(g: Grid, p: Pos)
  {
    0 <= p.0 < |g| && 0 <= p.1 < |g[0]|
  }

  function At(g: Grid, p: Pos): char
    requires IsGrid(g) && InGrid(g, p)
  {
    g[p.0][p.1]
  }

  /** The neighbour in direction `d`: 0 up, 1 down, 2 left, 3 right (the order the fill checks). */
  function Neighbor(p: Pos, d: int): Pos
  {
    if d == 0 then (p.0 - 1, p.1)
    else if d == 1 then (p.0 + 1, p.1)
    else if d == 2 then (p.0, p.1 - 1)
    else (p.0, p.1 + 1)
  }

  predicate Adjacent(p: Pos, q: Pos)
  {
    q == Neighbor(p, 0) || q == Neighbor(p, 1) || q == Neighbor(p, 2) || q == Neighbor(p, 3)
  }

  /** Two orthogonally adjacent plots of the map with the same letter. */
  predicate Step(g: Grid, p: Pos, q: Pos)
  {
    IsGrid(g) && InGrid(g, p) && InGrid(g, q) && Adjacent(p, q) && At(g, p) == At(g, q)
  }

  ghost predicate IsWalk(g: Grid, path: seq<Pos>)
  {
    |path| >= 1 && InGrid(g, path[0]) && forall i :: 0 <= i < |path| - 1 ==> Step(g, path[i], path[i + 1])
  }

  /** `p` lies in the region of `t`: a walk over equal letters leads from `t` to `p`. */
  ghost predicate Connected(g: Grid, t: Pos, p: Pos)
  {
    exists path :: IsWalk(g, path) && path[0] == t && path[|path| - 1] == p
  }

  lemma ConnectedSelf(g: Grid, t: Pos)
    requires InGrid(g, t)
    ensures Connected(g, t, t)
  {
    assert IsWalk(g, [t]);
  }

  lemma ConnectedStep(g: Grid, t: Pos, p: Pos, q: Pos)
    requires Connected(g, t, p) && Step(g, p, q)
    ensures Connected(g, t, q)
  {
    var path :| IsWalk(g, path) && path[0] == t && path[|path| - 1] == p;
    var longer := path + [q];
    assert forall i :: 0 <= i < |longer| - 1 ==> Step(g, longer[i], longer[i + 1]) by {
      forall i | 0 <= i < |longer| - 1
        ensures Step(g, longer[i], longer[i + 1])
      {
        if i < |path| - 1 {
          assert longer[i] == path[i] && longer[i + 1] == path[i + 1];
        }
      }
    }
    assert IsWalk(g, longer);
  }

  /** A set of plots that no step over equal letters leaves. */
  ghost predicate Closed(g: Grid, s: set<Pos>)
  {
    forall p, q :: p in s && Step(g, p, q) ==> q in s
  }

  /** Since steps go both ways, a closed set holds either all of a region or none of it. */
  lemma ConnectedClosed(g: Grid, s: set<Pos>, t: Pos, p: Pos)
    requires IsGrid(g) && Closed(g, s) && Connected(g, t, p)
    ensures t in s <==> p in s
  {
    var path :| IsWalk(g, path) && path[0] == t && path[|path| - 1] == p;
    if t in s {
      ForwardAlong(g, s, path, |path| - 1);
    }
    if p in s {
      BackwardAlong(g, s, path, 0);
    }
  }

  lemma {:induction false} ForwardAlong(g: Grid, s: set<Pos>, path: seq<Pos>, i: nat)
    requires Closed(g, s) && IsWalk(g, path) && path[0] in s && i < |path|
    ensures path[i] in s
  {
    if i > 0 {
      ForwardAlong(g, s, path, i - 1);
      assert Step(g, path[i - 1], path[i]);
    }
  }

  lemma {:induction false} BackwardAlong(g: Grid, s: set<Pos>, path: seq<Pos>, i: nat)
    requires IsGrid(g) && Closed(g, s) && IsWalk(g, path) && path[|path| - 1] in s && i < |path|
    ensures path[i] in s
    decreases |path| - i
  {
    if i < |path| - 1 {
      BackwardAlong(g, s, path, i + 1);
      assert Step(g, path[i], path[i + 1]);
      assert Step(g, path[i + 1], path[i]);
    }
  }

  /** Every plot of a region carries the letter of the region's seed. */
  lemma ConnectedLetter(g: Grid, t: Pos, p: Pos)
    requires IsGrid(g) && Connected(g, t, p)
    ensures InGrid(g, t) && InGrid(g, p) && At(g, p) == At(g, t)
  {
    var path :| IsWalk(g, path) && path[0] == t && path[|path| - 1] == p;
    LetterAlong(g, path, |path| - 1);
  }

  lemma {:induction false} LetterAlong(g: Grid, path: seq<Pos>, i: nat)
    requires IsGrid(g) && IsWalk(g, path) && i < |path|
    ensures InGrid(g, path[i]) && At(g, path[i]) == At(g, path[0])
  {
    if i > 0 {
      LetterAlong(g, path, i - 1);
      assert Step(g, path[i - 1], path[i]);
    }
  }

  ghost function AllCells(g: Grid): set<Pos>
  {
    set r, c | 0 <= r < |g| && 0 <= c < |g[0]| :: (r, c)
  }

  /** The region of `t`: the plots connected to it. */
  ghost function Region(g: Grid, t: Pos): set<Pos>
  {
    set r, c | 0 <= r < |g| && 0 <= c < |g[0]| && Connected(g, t, (r, c)) :: (r, c)
  }

  /** Side `d` of `p` needs a fence: beyond it lies the edge of the map or another letter. */
  predicate Fence(g: Grid, p: Pos, d: int)
  {
    !Step(g, p, Neighbor(p, d))
  }

  /** The fence sides around a set of plots, as (plot, direction) pairs. */
  ghost function Fences(g: Grid, s: set<Pos>): set<(Pos, int)>
  {
    set p, d | p in s && 0 <= d < 4 && Fence(g, p, d) :: (p, d)
  }

  ghost function Area(g: Grid, t: Pos): nat
  {
    |Region(g, t)|
  }

  ghost function Perimeter(g: Grid, t: Pos): nat
  {
    |Fences(g, Region(g, t))|
  }

  /** The fence sides of the first `n` directions of `p`. */
  ghost function SidesOf(g: Grid, p: Pos, n: int): set<(Pos, int)>
  {
    set d | 0 <= d < n && Fence(g, p, d) :: (p, d)
  }

  lemma SidesOfBound(g: Grid, p: Pos)
    ensures |SidesOf(g, p, 4)| <= 4
  {
    SubsetCardinality(SidesOf(g, p, 4), {(p, 0), (p, 1), (p, 2), (p, 3)});
  }

  lemma FencesAdd(g: Grid, s: set<Pos>, p: Pos)
    ensures Fences(g, s + {p}) == Fences(g, s) + SidesOf(g, p, 4)
  {
  }

  /** A plot has four sides, so a perimeter is at most four times the area. */
  lemma {:induction false} FencesBound(g: Grid, s: set<Pos>)
    ensures |Fences(g, s)| <= 4 * |s|
    decreases |s|
  {
    if s != {} {
      var p :| p in s;
      var rest := s - {p};
      FencesBound(g, rest);
      FencesAdd(g, rest, p);
      assert rest + {p} == s;
      SidesOfBound(g, p);
    }
  }

  lemma PerimeterBound(g: Grid, t: Pos)
    ensures Perimeter(g, t) <= 4 * Area(g, t)
  {
    FencesBound(g, Region(g, t));
  }

  // ---------------------------------------------------------------------------------------------
  // One flood fill.

  function Pending(pile: seq<Pos>): set<Pos>
  {
    set k | 0 <= k < |pile| :: pile[k]
  }

  lemma PendingAppend(a: seq<Pos>, b: seq<Pos>)
    ensures Pending(a + b) == Pending(a) + Pending(b)
  {
    forall q | q in Pending(a + b)
      ensures q in Pending(a) + Pending(b)
    {
      var k :| 0 <= k < |a + b| && (a + b)[k] == q;
      if k >= |a| {
        assert b[k - |a|] == q;
      }
    }
    forall q | q in Pending(a) + Pending(b)
      ensures q in Pending(a + b)
    {
      if q in Pending(a) {
        var k :| 0 <= k < |a| && a[k] == q;
        assert (a + b)[k] == q;
      } else {
        var k :| 0 <= k < |b| && b[k] == q;
        assert (a + b)[|a| + k] == q;
      }
    }
  }

  /**
   * The state of the fill from seed `t`: filled and piled plots lie in the region, every step out
   * of a filled plot ends in a filled or piled plot, and the seed is filled or piled.
   */
  ghost predicate Searching(g: Grid, t: Pos, filled: set<Pos>, pile: seq<Pos>)
  {
    && IsGrid(g)
    && (forall p :: p in filled ==> InGrid(g, p) && Connected(g, t, p))
    && (forall k :: 0 <= k < |pile| ==> InGrid(g, pile[k]) && Connected(g, t, pile[k]))
    && (forall p, q :: p in filled && Step(g, p, q) ==> q in filled || q in Pending(pile))
    && (t in filled || t in Pending(pile))
  }

  /** The visited array marks exactly the set `s`. */
  ghost predicate MarksExactly(g: Grid, marks: array2<bool>, s: set<Pos>)
    requires IsGrid(g)
    reads marks
  {
    && marks.Length0 == |g| && marks.Length1 == |g[0]|
    && forall r, c {:trigger marks[r, c]} :: 0 <= r < |g| && 0 <= c < |g[0]| ==> (marks[r, c] <==> (r, c) in s)
  }

  /** The visited array marks the plots of earlier regions and those filled so far. */
  ghost predicate Marked(g: Grid, marks: array2<bool>, prior: set<Pos>, filled: set<Pos>)
    reads marks
  {
    && IsGrid(g) && marks.Length0 == |g| && marks.Length1 == |g[0]|
    && forall r, c :: 0 <= r < |g| && 0 <= c < |g[0]| ==> (marks[r, c] <==> (r, c) in prior || (r, c) in filled)
  }

  /** `area` counts the filled plots and `borders` their fence sides. */
  ghost predicate Tally(g: Grid, filled: set<Pos>, fences: set<(Pos, int)>, area: nat, borders: nat)
  {
    fences == Fences(g, filled) && area == |filled| && borders == |fences| && borders <= 4 * area
  }

  lemma SearchedAll(g: Grid, t: Pos, filled: set<Pos>)
    requires Searching(g, t, filled, [])
    ensures filled == Region(g, t)
  {
    forall p | p in Region(g, t)
      ensures p in filled
    {
      var path :| IsWalk(g, path) && path[0] == t && path[|path| - 1] == p;
      assert Closed(g, filled);
      ForwardAlong(g, filled, path, |path| - 1);
    }
  }

  lemma PopFilled(g: Grid, t: Pos, filled: set<Pos>, pile: seq<Pos>)
    requires pile != [] && Searching(g, t, filled, pile) && pile[|pile| - 1] in filled
    ensures Searching(g, t, filled, pile[..|pile| - 1])
  {
    var rest := pile[..|pile| - 1];
    assert pile == rest + [pile[|pile| - 1]];
    PendingAppend(rest, [pile[|pile| - 1]]);
    assert Pending([pile[|pile| - 1]]) == {pile[|pile| - 1]};
  }

  /**
   * One side of `p` during a fill: a fence adds a border, a same-letter neighbour is piled.
   * The fill checks the four sides (up, down, left, right) one after the other.
   */
  method CheckSide(g: Grid, region: char, p: Pos, d: int, borders: nat, pile: seq<Pos>,
                   ghost fences: set<(Pos, int)>)
    returns (borders': nat, pile': seq<Pos>, ghost fences': set<(Pos, int)>)
    requires IsGrid(g) && InGrid(g, p) && At(g, p) == region && 0 <= d < 4
    requires borders == |fences| && (p, d) !in fences
    ensures Fence(g, p, d) ==> borders' == borders + 1 && pile' == pile && fences' == fences + {(p, d)}
    ensures !Fence(g, p, d) ==> borders' == borders && pile' == pile + [Neighbor(p, d)] && fences' == fences
    ensures borders' == |fences'|
  {
    var q := Neighbor(p, d);
    if 0 <= q.0 < |g| && 0 <= q.1 < |g[0]| && g[q.0][q.1] == region {
      borders', pile', fences' := borders, pile + [q], fences;
    } else {
      borders', pile', fences' := borders + 1, pile, fences + {(p, d)};
    }
  }

  /** The plots piled while checking the sides of `p`: steps out of `p`, and all of them. */
  ghost predicate PushedFrom(g: Grid, p: Pos, rest: seq<Pos>, pile: seq<Pos>, n: int)
  {
    && |rest| <= |pile| && (forall k :: 0 <= k < |rest| ==> pile[k] == rest[k])
    && (forall k :: |rest| <= k < |pile| ==> Step(g, p, pile[k]))
    && forall d :: 0 <= d < n && !Fence(g, p, d) ==> Neighbor(p, d) in Pending(pile)
  }

  lemma PushedMore(g: Grid, p: Pos, rest: seq<Pos>, pile: seq<Pos>, n: int)
    requires PushedFrom(g, p, rest, pile, n) && !Fence(g, p, n)
    ensures PushedFrom(g, p, rest, pile + [Neighbor(p, n)], n + 1)
  {
    var one := [Neighbor(p, n)];
    PendingAppend(pile, one);
    assert one[0] in Pending(one);
  }

  /** Filling `p` and piling its same-letter neighbours keeps the fill state. */
  lemma FillAndPush(g: Grid, t: Pos, filled: set<Pos>, pile: seq<Pos>, pile': seq<Pos>)
    requires pile != [] && Searching(g, t, filled, pile)
    requires PushedFrom(g, pile[|pile| - 1], pile[..|pile| - 1], pile', 4)
    ensures Searching(g, t, filled + {pile[|pile| - 1]}, pile')
  {
    var p := pile[|pile| - 1];
    var rest := pile[..|pile| - 1];
    assert pile == rest + [p];
    PendingAppend(rest, [p]);
    assert Pending([p]) == {p};
    assert pile' == rest + pile'[|rest|..];
    PendingAppend(rest, pile'[|rest|..]);
    forall k | |rest| <= k < |pile'|
      ensures InGrid(g, pile'[k]) && Connected(g, t, pile'[k])
    {
      ConnectedStep(g, t, p, pile'[k]);
    }
    forall v, q | v in filled + {p} && Step(g, v, q)
      ensures q in filled + {p} || q in Pending(pile')
    {
      if v == p {
        var d :| 0 <= d < 4 && q == Neighbor(p, d);
        assert !Fence(g, p, d);
      }
    }
  }

  lemma FilledShrinks(g: Grid, filled: set<Pos>, p: Pos)
    requires filled <= AllCells(g) && p in AllCells(g) && p !in filled
    ensures |AllCells(g) - (filled + {p})| < |AllCells(g) - filled|
  {
    assert AllCells(g) - filled == (AllCells(g) - (filled + {p})) + {p};
  }

  /** The four side checks of a freshly filled plot `p`. */
  method CheckSides(g: Grid, region: char, p: Pos, borders: nat, rest: seq<Pos>,
                    ghost fences: set<(Pos, int)>)
    returns (borders': nat, pile': seq<Pos>, ghost fences': set<(Pos, int)>)
    requires IsGrid(g) && InGrid(g, p) && At(g, p) == region
    requires borders == |fences| && forall d :: (p, d) !in fences
    ensures fences' == fences + SidesOf(g, p, 4) && borders' == |fences'| && borders' <= borders + 4
    ensures PushedFrom(g, p, rest, pile', 4)
  {
    borders', pile', fences' := borders, rest, fences;
    for d := 0 to 4
      invariant SidesChecked(g, p, rest, fences, borders, d, borders', pile', fences')
    {
      ghost var b, pl, f := borders', pile', fences';
      SidesFresh(g, p, d, fences);
      borders', pile', fences' := CheckSide(g, region, p, d, borders', pile', fences');
      SideChecked(g, p, rest, fences, borders, d, b, pl, f, borders', pile', fences');
    }
  }

  /** The loop state after checking the first `d` sides of `p`. */
  ghost predicate SidesChecked(g: Grid, p: Pos, rest: seq<Pos>, fences0: set<(Pos, int)>, borders0: nat, d: int,
                               borders: nat, pile: seq<Pos>, fences: set<(Pos, int)>)
  {
    fences == fences0 + SidesOf(g, p, d) && borders == |fences| && borders <= borders0 + d
    && PushedFrom(g, p, rest, pile, d)
  }

  lemma SideChecked(g: Grid, p: Pos, rest: seq<Pos>, fences0: set<(Pos, int)>, borders0: nat, d: nat,
                    b: nat, pl: seq<Pos>, f: set<(Pos, int)>, b': nat, pl': seq<Pos>, f': set<(Pos, int)>)
    requires SidesChecked(g, p, rest, fences0, borders0, d, b, pl, f)
    requires Fence(g, p, d) ==> b' == b + 1 && pl' == pl && f' == f + {(p, d)}
    requires !Fence(g, p, d) ==> b' == b && pl' == pl + [Neighbor(p, d)] && f' == f
    requires b' == |f'|
    ensures SidesChecked(g, p, rest, fences0, borders0, d + 1, b', pl', f')
  {
    SidesNext(g, p, d);
    if !Fence(g, p, d) {
      PushedMore(g, p, rest, pl, d);
    }
  }

  lemma SidesFresh(g: Grid, p: Pos, d: int, fences: set<(Pos, int)>)
    requires forall d' :: (p, d') !in fences
    ensures (p, d) !in fences + SidesOf(g, p, d)
  {
  }

  lemma SidesNext(g: Grid, p: Pos, d: nat)
    ensures SidesOf(g, p, d + 1) == SidesOf(g, p, d) + (if Fence(g, p, d) then {(p, d)} else {})
  {
    var next, cur := SidesOf(g, p, d + 1), SidesOf(g, p, d);
    forall x | x in next
      ensures x in cur + (if Fence(g, p, d) then {(p, d)} else {})
    {
      var e :| 0 <= e < d + 1 && Fence(g, p, e) && x == (p, e);
      if e < d {
        assert x in cur;
      }
    }
    forall x | x in cur
      ensures x in next
    {
      var e :| 0 <= e < d && Fence(g, p, e) && x == (p, e);
    }
    if Fence(g, p, d) {
      assert (p, d) in next;
    }
  }


  /** One pop of `while let Some((row, col)) = dfs_pile.pop()`. */
  method Visit(g: Grid, t: Pos, region: char, marks: array2<bool>, pile: seq<Pos>,
               ghost prior: set<Pos>, ghost filled: set<Pos>, area: nat, borders: nat,
               ghost fences: set<(Pos, int)>)
    returns (pile': seq<Pos>, ghost filled': set<Pos>, area': nat, borders': nat,
             ghost fences': set<(Pos, int)>)
    modifies marks
    requires IsGrid(g) && pile != [] && filled <= AllCells(g) && InGrid(g, t) && region == At(g, t)
    requires forall p :: Connected(g, t, p) ==> p !in prior
    requires Searching(g, t, filled, pile) && Marked(g, marks, prior, filled)
    requires Tally(g, filled, fences, area, borders)
    ensures Searching(g, t, filled', pile') && Marked(g, marks, prior, filled')
    ensures Tally(g, filled', fences', area', borders') && filled' <= AllCells(g)
    ensures || (filled' == filled && |pile'| < |pile|)
            || |AllCells(g) - filled'| < |AllCells(g) - filled|
  {
    var p := pile[|pile| - 1];
    var rest := pile[..|pile| - 1];
    if marks[p.0, p.1] {
      pile', filled', area', borders', fences' := rest, filled, area, borders, fences;
      PopFilled(g, t, filled, pile);
      return;
    }
    assert p !in filled;
    MarkFilled(g, marks, prior, filled, p);
    filled', pile', area', borders', fences' := Fill(g, t, region, pile, filled, area, borders, fences);
  }

  /** `visited[(row, col)] = true;` */
  method MarkFilled(g: Grid, marks: array2<bool>, ghost prior: set<Pos>, ghost filled: set<Pos>, p: Pos)
    modifies marks
    requires Marked(g, marks, prior, filled) && InGrid(g, p)
    ensures Marked(g, marks, prior, filled + {p})
  {
    marks[p.0, p.1] := true;
  }

  /** Filling the popped, unvisited plot: it is counted and its four sides are checked. */
  method Fill(g: Grid, t: Pos, region: char, pile: seq<Pos>, ghost filled: set<Pos>, area: nat,
              borders: nat, ghost fences: set<(Pos, int)>)
    returns (ghost filled': set<Pos>, pile': seq<Pos>, area': nat, borders': nat,
             ghost fences': set<(Pos, int)>)
    requires IsGrid(g) && pile != [] && filled <= AllCells(g) && InGrid(g, t) && region == At(g, t)
    requires Searching(g, t, filled, pile) && pile[|pile| - 1] !in filled
    requires Tally(g, filled, fences, area, borders)
    ensures filled' == filled + {pile[|pile| - 1]}
    ensures Searching(g, t, filled', pile') && Tally(g, filled', fences', area', borders')
    ensures filled' <= AllCells(g) && |AllCells(g) - filled'| < |AllCells(g) - filled|
  {
    var p := pile[|pile| - 1];
    filled' := filled + {p};
    area' := area + 1;
    assert p in AllCells(g);
    FilledShrinks(g, filled, p);
    ConnectedLetter(g, t, p);
    borders', pile', fences' := CheckSides(g, region, p, borders, pile[..|pile| - 1], fences);
    FencesAdd(g, filled, p);
    FillAndPush(g, t, filled, pile, pile');
  }

  /**
   * The flood fill from an unvisited seed `t`, with the plots of earlier regions marked: it
   * returns the area and the perimeter of `t`'s region and marks exactly that region in addition.
   */
  method FloodFill(g: Grid, t: Pos, marks: array2<bool>, ghost prior: set<Pos>)
    returns (area: nat, borders: nat)
    modifies marks
    requires IsGrid(g) && InGrid(g, t) && Closed(g, prior) && t !in prior
    requires MarksExactly(g, marks, prior)
    ensures area == Area(g, t) && borders == Perimeter(g, t) && borders <= 4 * area
    ensures MarksExactly(g, marks, prior + Region(g, t))
  {
    var region := g[t.0][t.1];
    area, borders := 0, 0;
    var pile: seq<Pos> := [t];
    ghost var filled: set<Pos> := {};
    ghost var fences: set<(Pos, int)> := {};
    forall p | Connected(g, t, p)
      ensures p !in prior
    {
      ConnectedClosed(g, prior, t, p);
    }
    ConnectedSelf(g, t);
    assert Pending(pile) == {t} by {
      assert pile[0] == t;
    }
    while pile != []
      invariant Searching(g, t, filled, pile) && Marked(g, marks, prior, filled)
      invariant Tally(g, filled, fences, area, borders) && filled <= AllCells(g)
      decreases |AllCells(g) - filled|, |pile|
    {
      pile, filled, area, borders, fences := Visit(g, t, region, marks, pile, prior, filled, area, borders, fences);
    }
    SearchedAll(g, t, filled);
  }

  // ---------------------------------------------------------------------------------------------
  // All regions, in the row-major order the seeds are met.

  predicate Before(p: Pos, q: Pos)
  {
    p.0 < q.0 || (p.0 == q.0 && p.1 < q.1)
  }

  /** The plots of the regions of the seeds before `(r, c)` in row-major order. */
  ghost function Covered(g: Grid, r: nat, c: nat): set<Pos>
    requires IsGrid(g)
    decreases r, c
  {
    if c == 0 then (if r == 0 then {} else Covered(g, r - 1, |g[0]|))
    else Covered(g, r, c - 1) + Region(g, (r, c - 1))
  }

  /** `(r, c)` lies in no region met before it: its fill prices a new region. */
  ghost predicate Leader(g: Grid, r: nat, c: nat)
    requires IsGrid(g)
  {
    (r, c) !in Covered(g, r, c)
  }

  lemma RegionClosed(g: Grid, t: Pos)
    ensures Closed(g, Region(g, t))
  {
    forall p, q | p in Region(g, t) && Step(g, p, q)
      ensures q in Region(g, t)
    {
      ConnectedStep(g, t, p, q);
    }
  }

  lemma {:induction false} CoveredClosed(g: Grid, r: nat, c: nat)
    requires IsGrid(g)
    ensures Closed(g, Covered(g, r, c))
    decreases r, c
  {
    if c == 0 {
      if r > 0 {
        CoveredClosed(g, r - 1, |g[0]|);
      }
    } else {
      CoveredClosed(g, r, c - 1);
      RegionClosed(g, (r, c - 1));
    }
  }

  /**
   * The covered plots are those connected to some seed before `(r, c)`; so a plot leads exactly
   * when no earlier plot of the map is connected to it.
   */
  lemma {:induction false} CoveredMeaning(g: Grid, r: nat, c: nat)
    requires IsGrid(g) && c <= |g[0]|
    ensures forall p :: p in Covered(g, r, c) <==>
      InGrid(g, p) && exists q :: InGrid(g, q) && Before(q, (r, c)) && Connected(g, q, p)
  {
    forall p | p in Covered(g, r, c)
      ensures InGrid(g, p) && exists q :: InGrid(g, q) && Before(q, (r, c)) && Connected(g, q, p)
    {
      var q := CoveredSeed(g, r, c, p);
    }
    forall p, q | InGrid(g, p) && InGrid(g, q) && Before(q, (r, c)) && Connected(g, q, p)
      ensures p in Covered(g, r, c)
    {
      SeedCovers(g, r, c, q, p);
    }
  }

  /** A covered plot is connected to a seed before `(r, c)`. */
  lemma {:induction false} CoveredSeed(g: Grid, r: nat, c: nat, p: Pos) returns (q: Pos)
    requires IsGrid(g) && c <= |g[0]| && p in Covered(g, r, c)
    ensures InGrid(g, p) && InGrid(g, q) && Before(q, (r, c)) && Connected(g, q, p)
    decreases r, c
  {
    if c == 0 {
      q := CoveredSeed(g, r - 1, |g[0]|, p);
    } else if p in Covered(g, r, c - 1) {
      q := CoveredSeed(g, r, c - 1, p);
    } else {
      q := (r, c - 1);
    }
  }

  /** A plot connected to a seed before `(r, c)` is covered. */
  lemma {:induction false} SeedCovers(g: Grid, r: nat, c: nat, q: Pos, p: Pos)
    requires IsGrid(g) && c <= |g[0]| && InGrid(g, p) && InGrid(g, q) && Before(q, (r, c))
    requires Connected(g, q, p)
    ensures p in Covered(g, r, c)
    decreases r, c
  {
    if c == 0 {
      SeedCovers(g, r - 1, |g[0]|, q, p);
    } else if q != (r, c - 1) {
      SeedCovers(g, r, c - 1, q, p);
    }
  }

  lemma LeaderMeaning(g: Grid, r: nat, c: nat)
    requires IsGrid(g) && InGrid(g, (r, c))
    ensures Leader(g, r, c) <==> forall q :: InGrid(g, q) && Before(q, (r, c)) ==> !Connected(g, q, (r, c))
  {
    CoveredMeaning(g, r, c);
  }

  /** A region is covered entirely by the regions before its seed, or shares no plot with them. */
  lemma CoveredRegion(g: Grid, r: nat, c: nat)
    requires IsGrid(g) && InGrid(g, (r, c))
    ensures !Leader(g, r, c) ==> Region(g, (r, c)) <= Covered(g, r, c)
    ensures Leader(g, r, c) ==> Covered(g, r, c) !! Region(g, (r, c))
  {
    var before := Covered(g, r, c);
    CoveredClosed(g, r, c);
    forall p | p in Region(g, (r, c))
      ensures p in before <==> (r, c) in before
    {
      ConnectedClosed(g, before, (r, c), p);
    }
  }

  /** Moving past a plot adds its area to the covered plots when it leads, and nothing otherwise. */
  lemma CoveredGrows(g: Grid, r: nat, c: nat)
    requires IsGrid(g) && InGrid(g, (r, c))
    ensures |Covered(g, r, c + 1)| == |Covered(g, r, c)| + (if Leader(g, r, c) then Area(g, (r, c)) else 0)
  {
    CoveredRegion(g, r, c);
    var before, region := Covered(g, r, c), Region(g, (r, c));
    if Leader(g, r, c) {
      assert |before + region| == |before| + |region|;
    } else {
      assert before + region == before;
    }
  }

  /** Past the last plot of the map, every plot is covered. */
  lemma CoveredAll(g: Grid)
    requires IsGrid(g)
    ensures Covered(g, |g| - 1, |g[0]|) == AllCells(g)
  {
    CoveredMeaning(g, |g| - 1, |g[0]|);
    forall p | p in AllCells(g)
      ensures p in Covered(g, |g| - 1, |g[0]|)
    {
      ConnectedSelf(g, p);
    }
  }

  /** The price of one region, `area * borders`. */
  function RegionPrice(area: nat, borders: nat): nat
  {
    area * borders
  }

  /** The prices of the regions led by the plots of row `r` before column `c`. */
  ghost function PriceRow(g: Grid, r: nat, c: nat): nat
    requires IsGrid(g)
  {
    if c == 0 then 0
    else
      var t := (r, c - 1);
      PriceRow(g, r, c - 1) + (if Leader(g, r, c - 1) then RegionPrice(Area(g, t), Perimeter(g, t)) else 0)
  }

  /** The total price of the regions led by the plots of the first `r` rows. */
  ghost function Price(g: Grid, r: nat): nat
    requires IsGrid(g)
  {
    if r == 0 then 0 else Price(g, r - 1) + PriceRow(g, r - 1, |g[0]|)
  }

  /** The areas of the regions led by the plots of row `r` before column `c`. */
  ghost function AreaRow(g: Grid, r: nat, c: nat): nat
    requires IsGrid(g)
  {
    if c == 0 then 0 else AreaRow(g, r, c - 1) + (if Leader(g, r, c - 1) then Area(g, (r, c - 1)) else 0)
  }

  ghost function AreaRows(g: Grid, r: nat): nat
    requires IsGrid(g)
  {
    if r == 0 then 0 else AreaRows(g, r - 1) + AreaRow(g, r - 1, |g[0]|)
  }

  /** The covered plots before `(r, c)` number the areas of the regions led before it. */
  lemma {:induction false} CoveredCount(g: Grid, r: nat, c: nat)
    requires IsGrid(g) && r < |g| && c <= |g[0]|
    ensures |Covered(g, r, c)| == AreaRows(g, r) + AreaRow(g, r, c)
    decreases r, c
  {
    if c == 0 {
      if r > 0 {
        CoveredCount(g, r - 1, |g[0]|);
        CoveredCountNextRow(g, r);
      }
    } else {
      CoveredCount(g, r, c - 1);
      CoveredCountNextCell(g, r, c);
    }
  }

  lemma CoveredCountNextCell(g: Grid, r: nat, c: nat)
    requires IsGrid(g) && r < |g| && 1 <= c <= |g[0]|
    requires |Covered(g, r, c - 1)| == AreaRows(g, r) + AreaRow(g, r, c - 1)
    ensures |Covered(g, r, c)| == AreaRows(g, r) + AreaRow(g, r, c)
  {
    CoveredGrows(g, r, c - 1);
  }

  lemma CoveredCountNextRow(g: Grid, r: nat)
    requires IsGrid(g) && 1 <= r <= |g|
    requires |Covered(g, r - 1, |g[0]|)| == AreaRows(g, r - 1) + AreaRow(g, r - 1, |g[0]|)
    ensures |Covered(g, r, 0)| == AreaRows(g, r) + AreaRow(g, r, 0)
  {
  }

  /** Every plot belongs to exactly one priced region: the areas add up to the whole map. */
  lemma AreasCoverMap(g: Grid)
    requires IsGrid(g)
    ensures AreaRows(g, |g|) == |AllCells(g)|
  {
    CoveredCount(g, |g| - 1, |g[0]|);
    CoveredAll(g);
  }

  ghost predicate PricedBefore(g: Grid, marks: array2<bool>, total: nat, r: nat, c: nat)
    requires IsGrid(g)
    reads marks
  {
    && r <= |g| && c <= |g[0]|
    && MarksExactly(g, marks, Covered(g, r, c))
    && total == Price(g, r) + PriceRow(g, r, c)
  }

  /** The body of `for ((row, col), &region) in grid.indexed_iter()`. */
  method PriceCell(g: Grid, marks: array2<bool>, total: nat, r: nat, c: nat) returns (total': nat)
    modifies marks
    requires IsGrid(g) && r < |g| && c < |g[0]| && PricedBefore(g, marks, total, r, c)
    ensures PricedBefore(g, marks, total', r, c + 1)
  {
    ghost var before := Covered(g, r, c);
    total' := total;
    if marks[r, c] {
      SkipCell(g, marks, total, r, c);
      return;
    }
    CoveredClosed(g, r, c);
    var area, borders := FloodFill(g, (r, c), marks, before);
    total' := total + RegionPrice(area, borders);
  }

  /** A visited plot belongs to an earlier region: nothing changes. */
  lemma SkipCell(g: Grid, marks: array2<bool>, total: nat, r: nat, c: nat)
    requires IsGrid(g) && r < |g| && c < |g[0]| && PricedBefore(g, marks, total, r, c) && marks[r, c]
    ensures PricedBefore(g, marks, total, r, c + 1)
  {
    var before, region := Covered(g, r, c), Region(g, (r, c));
    CoveredRegion(g, r, c);
    assert before + region == before;
  }

  lemma NothingPriced(g: Grid, marks: array2<bool>)
    requires IsGrid(g) && marks.Length0 == |g| && marks.Length1 == |g[0]|
    requires forall r, c :: 0 <= r < |g| && 0 <= c < |g[0]| ==> !marks[r, c]
    ensures PricedBefore(g, marks, 0, 0, 0)
  {
  }

  /** `day_12_part_1` on the parsed map: the sum of area times perimeter over all regions. */
  method Part1(g: Grid) returns (total: nat)
    requires IsGrid(g)
    ensures total == Price(g, |g|)
  {
    var marks := new bool[|g|, |g[0]|]((_, _) => false);
    total := 0;
    NothingPriced(g, marks);
    for r := 0 to |g|
      invariant PricedBefore(g, marks, total, r, 0)
    {
      total := PriceRowCells(g, marks, total, r);
      RowPriced(g, marks, total, r);
    }
  }

  /** The cells of row `r`, left to right. */
  method PriceRowCells(g: Grid, marks: array2<bool>, total: nat, r: nat) returns (total': nat)
    modifies marks
    requires IsGrid(g) && r < |g| && PricedBefore(g, marks, total, r, 0)
    ensures PricedBefore(g, marks, total', r, |g[0]|)
  {
    total' := total;
    for c := 0 to |g[0]|
      invariant PricedBefore(g, marks, total', r, c)
    {
      total' := PriceCell(g, marks, total', r, c);
    }
  }

  /** The end of row `r` is the start of row `r + 1`. */
  lemma RowPriced(g: Grid, marks: array2<bool>, total: nat, r: nat)
    requires IsGrid(g) && r < |g| && PricedBefore(g, marks, total, r, |g[0]|)
    ensures PricedBefore(g, marks, total, r + 1, 0)
  {
    assert Covered(g, r + 1, 0) == Covered(g, r, |g[0]|);
    assert Price(g, r + 1) == Price(g, r) + PriceRow(g, r, |g[0]|);
  }
}
