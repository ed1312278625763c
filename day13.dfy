/**
 * Day 13: claw machines with two buttons. Button A moves the claw by `(a.x, a.y)` and costs 3
 * tokens, button B by `(b.x, b.y)` and costs 1; the prize is won when the claw lands exactly on
 * the prize. The number of presses is the integer solution of a 2x2 linear system, found with
 * Cramer's rule and truncating 64-bit division, then checked by substitution.
 */
module Day13 {
  import opened Common

  datatype Button = Button(x: int, y: int)
  datatype Prize = Prize(x: int, y: int)
  datatype Problem = Problem(buttonA: Button, buttonB: Button, prize: Prize)

  /** `a_final`, the determinant of the system `a_x * a + b_x * b = x`, `a_y * a + b_y * b = y`. */
  function Determinant(p: Problem): int
  {
    p.buttonA.x * p.buttonB.y - p.buttonA.y * p.buttonB.x
  }

  /** The divisions `clicks_per_button` performs are defined: otherwise it panics. */
  predicate Divisible(p: Problem)
  {
    Determinant(p) != 0 && p.buttonB.x != 0
  }

  /** Pressing A `a` times and B `b` times puts the claw on the prize. */
  predicate Solves(p: Problem, a: int, b: int)
  {
    && p.buttonA.x * a + p.buttonB.x * b == p.prize.x
    && p.buttonA.y * a + p.buttonB.y * b == p.prize.y
  }

  /** `clicks_per_button`: Cramer's rule for A, back-substitution for B, and the exactness check. */
  function ClicksPerButton(p: Problem): (r: Option<(int, int)>)
    requires Divisible(p)
    ensures r.Some? ==> Solves(p, r.value.0, r.value.1)
  {
    var c := p.prize.x * p.buttonB.y - p.prize.y * p.buttonB.x;
    var clicksA := TruncDiv(c, Determinant(p));
    var clicksB := TruncDiv(p.prize.x - p.buttonA.x * clicksA, p.buttonB.x);
    if !Solves(p, clicksA, clicksB) then None else Some((clicksA, clicksB))
  }

  lemma MulAbs(k: int, d: int)
    ensures Abs(k * d) == Abs(k) * Abs(d)
  {
    if k < 0 && d < 0 {
      assert k * d == (-k) * (-d);
    } else if k < 0 {
      assert -(k * d) == (-k) * d;
    } else if d < 0 {
      assert -(k * d) == k * (-d);
    }
  }

  lemma DivMulCancel(m: nat, e: nat)
    requires e > 0
    ensures (m * e) / e == m
  {
    assert (m + 1) * e == m * e + e;
    DivBounds(m * e, e, m, m + 1);
  }

  /** Dividing an exact multiple gives back the factor, whatever the signs. */
  lemma TruncDivExact(k: int, d: int)
    requires d != 0
    ensures TruncDiv(k * d, d) == k
  {
    MulAbs(k, d);
    DivMulCancel(Abs(k), Abs(d));
    if k == 0 {
      assert k * d == 0;
    } else if (k < 0) == (d < 0) {
      assert k * d > 0 by {
        if k < 0 {
          assert k * d == (-k) * (-d);
        }
      }
    } else {
      assert k * d < 0 by {
        if k < 0 {
          assert -(k * d) == (-k) * d;
        } else {
          assert -(k * d) == k * (-d);
        }
      }
    }
  }

  /** Eliminating B: a solution satisfies `det * a == x * b_y - y * b_x`. */
  lemma Eliminate(p: Problem, a: int, b: int)
    requires Solves(p, a, b)
    ensures a * Determinant(p) == p.prize.x * p.buttonB.y - p.prize.y * p.buttonB.x
  {
    var ux, uy, vx, vy := p.buttonA.x, p.buttonA.y, p.buttonB.x, p.buttonB.y;
    calc {
      p.prize.x * vy - p.prize.y * vx;
      (ux * a + vx * b) * vy - (uy * a + vy * b) * vx;
      { assert (ux * a + vx * b) * vy == ux * a * vy + vx * b * vy;
        assert (uy * a + vy * b) * vx == uy * a * vx + vy * b * vx; }
      ux * a * vy - uy * a * vx;
      { assert ux * a * vy == a * (ux * vy) && uy * a * vx == a * (uy * vx); }
      a * (ux * vy - uy * vx);
    }
  }

  /**
   * With both divisions defined, `clicks_per_button` finds a pair exactly when it solves the
   * machine: it returns nothing only for machines without an integer solution.
   */
  lemma ClicksExact(p: Problem, a: int, b: int)
    requires Divisible(p)
    ensures ClicksPerButton(p) == Some((a, b)) <==> Solves(p, a, b)
  {
    if Solves(p, a, b) {
      Eliminate(p, a, b);
      TruncDivExact(a, Determinant(p));
      assert p.prize.x - p.buttonA.x * a == b * p.buttonB.x;
      TruncDivExact(b, p.buttonB.x);
    }
  }

  /** A machine with a nonzero determinant has at most one solution. */
  lemma SolutionUnique(p: Problem, a: int, b: int, a': int, b': int)
    requires Determinant(p) != 0 && Solves(p, a, b) && Solves(p, a', b')
    ensures a == a' && b == b'
  {
    Eliminate(p, a, b);
    Eliminate(p, a', b');
    assert (a - a') * Determinant(p) == 0;
    assert a == a';
    assert p.buttonB.x * (b - b') == 0 && p.buttonB.y * (b - b') == 0;
    assert p.buttonB.x != 0 || p.buttonB.y != 0;
  }

  /** `to_part_two`: the prize moves 10^13 further on both axes; the buttons stay. */
  function ToPartTwo(p: Problem): (q: Problem)
    ensures q.buttonA == p.buttonA && q.buttonB == p.buttonB
    ensures q.prize.x == p.prize.x + 10000000000000 && q.prize.y == p.prize.y + 10000000000000
  {
    Problem(p.buttonA, p.buttonB, Prize(p.prize.x + 10000000000000, p.prize.y + 10000000000000))
  }

  /** Moving the prize leaves the determinant, so part 2's machines panic exactly when part 1's do. */
  lemma ToPartTwoDivisible(p: Problem)
    ensures Divisible(ToPartTwo(p)) <==> Divisible(p)
  {
  }

  /** The tokens one machine costs: `3 * clicks_a + clicks_b` if it is solved, else nothing. */
  function Tokens(p: Problem): int
    requires Divisible(p)
  {
    match ClicksPerButton(p)
    case Some((a, b)) => 3 * a + b
    case None => 0
  }

  /** `day_13_part_1`: `filter_map(clicks_per_button).map(3 * a + b).sum()` over the machines. */
  function TotalTokens(ps: seq<Problem>): int
    requires forall i :: 0 <= i < |ps| ==> Divisible(ps[i])
  {
    if ps == [] then 0 else Tokens(ps[0]) + TotalTokens(ps[1..])
  }

  /** The total splits over a concatenation of machine lists. */
  lemma {:induction false} TotalTokensAppend(xs: seq<Problem>, ys: seq<Problem>)
    requires forall i :: 0 <= i < |xs| ==> Divisible(xs[i])
    requires forall i :: 0 <= i < |ys| ==> Divisible(ys[i])
    ensures TotalTokens(xs + ys) == TotalTokens(xs) + TotalTokens(ys)
  {
    if xs == [] {
      assert xs + ys == ys;
    } else {
      assert (xs + ys)[1..] == xs[1..] + ys;
      TotalTokensAppend(xs[1..], ys);
    }
  }

  /** A solvable machine costs `3 * a + b` for its (unique) solution `(a, b)`. */
  lemma TokensOfSolution(p: Problem, a: int, b: int)
    requires Divisible(p) && Solves(p, a, b)
    ensures Tokens(p) == 3 * a + b
  {
    ClicksExact(p, a, b);
  }

  /** `clicks_per_button` gives nothing exactly for the machines without an integer solution. */
  lemma ClicksNone(p: Problem)
    requires Divisible(p)
    ensures ClicksPerButton(p).None? <==> forall a, b :: !Solves(p, a, b)
  {
    forall a, b | Solves(p, a, b)
      ensures ClicksPerButton(p) == Some((a, b))
    {
      ClicksExact(p, a, b);
    }
  }

  function PartTwoMachines(ps: seq<Problem>): (qs: seq<Problem>)
    ensures |qs| == |ps| && forall i :: 0 <= i < |ps| ==> qs[i] == ToPartTwo(ps[i])
  {
    if ps == [] then [] else [ToPartTwo(ps[0])] + PartTwoMachines(ps[1..])
  }

  /** `day_13_part_2`: the same sum after moving every prize. */
  function Part2(ps: seq<Problem>): int
    requires forall i :: 0 <= i < |ps| ==> Divisible(ps[i])
  {
    var qs := PartTwoMachines(ps);
    assert forall i :: 0 <= i < |qs| ==> Divisible(qs[i]) by {
      forall i | 0 <= i < |qs|
        ensures Divisible(qs[i])
      {
        ToPartTwoDivisible(ps[i]);
      }
    }
    TotalTokens(qs)
  }

  function Example(): seq<Problem>
  {
    [ Problem(Button(94, 34), Button(22, 67), Prize(8400, 5400)),
      Problem(Button(26, 66), Button(67, 21), Prize(12748, 12176)),
      Problem(Button(17, 86), Button(84, 37), Prize(7870, 6450)),
      Problem(Button(69, 23), Button(27, 71), Prize(18641, 10279)) ]
  }

  lemma ExamplePart1()
    ensures TotalTokens(Example()) == 480
  {
    var e := Example();
    TokensOfSolution(e[0], 80, 40);
    TokensOfSolution(e[2], 38, 86);
  }

  lemma ExamplePart2()
    ensures Part2(Example()) == 875318608908
  {
    var e := Example();
    var qs := PartTwoMachines(e);
    TokensOfSolution(qs[1], 118679050709, 103199174542);
    TokensOfSolution(qs[3], 102851800151, 107526881786);
  }
}
