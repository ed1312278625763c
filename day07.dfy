/**
 * Day 7: can the operators +, * (and, in part 2, digit concatenation), applied left to right,
 * combine a list of numbers into the target? The search runs backwards from the target, undoing
 * the last operation at each step.
 */
module Day07 {
  import opened Common

  datatype Op = Add | Mul | Concat

  /** All operands are positive: `current % last` and `last.ilog10()` would panic on a zero. */
  predicate Positive(numbers: seq<nat>)
  {
    forall i :: 0 <= i < |numbers| ==> numbers[i] > 0
  }

  lemma PositivePrefix(numbers: seq<nat>, n: nat)
    requires Positive(numbers) && n <= |numbers|
    ensures Positive(numbers[..n])
  {
    assert forall i :: 0 <= i < n ==> numbers[..n][i] == numbers[i];
  }

  function PlaceValue(n: nat): nat
    requires n > 0
  {
    Pow10(NbDigits(n))
  }

  /** Every positive number lies strictly below its place value and at or above a tenth of it. */
  lemma {:induction false} PlaceValueBounds(n: nat)
    requires n > 0
    ensures PlaceValue(n) > n && 10 * n >= PlaceValue(n)
  {
    if n >= 10 {
      PlaceValueBounds(n / 10);
    }
  }

  /** Applying one operator, left operand first. Concatenation writes `b`'s digits after `a`'s. */
  function Apply(op: Op, a: nat, b: nat): nat
    requires b > 0
  {
    match op
    case Add => a + b
    case Mul => a * b
    case Concat => a * PlaceValue(b) + b
  }

  /** The left-to-right value of `first op[0] rest[0] op[1] rest[1] ...`. */
  function Evaluate(first: nat, rest: seq<nat>, ops: seq<Op>): nat
    requires Positive(rest) && |ops| == |rest|
  {
    if rest == [] then first
    else
      var n := |rest| - 1;
      Apply(ops[n], Evaluate(first, rest[..n], ops[..n]), rest[n])
  }

  /** Part 1 may only use + and *. */
  predicate Allowed(ops: seq<Op>, concat: bool)
  {
    concat || forall i :: 0 <= i < |ops| ==> ops[i] != Concat
  }

  /**
   * `rec_look_for_solutions`: undo the last number by subtraction (only when `current` exceeds
   * it), by division (only when it divides `current`), or, with `concat`, by dropping it as a
   * decimal suffix; with no numbers left, succeed iff `current` is `target`.
   */
  predicate Search(current: nat, target: nat, numbers: seq<nat>, concat: bool)
    requires Positive(numbers)
    decreases |numbers|
  {
    if numbers == [] then current == target
    else
      var n := |numbers| - 1;
      var last, rest := numbers[n], numbers[..n];
      PositivePrefix(numbers, n);
      || (current > last && Search(current - last, target, rest, concat))
      || (current % last == 0 && Search(Quotient(current, last), target, rest, concat))
      || (concat && current % PlaceValue(last) == last && Search(Quotient(current, PlaceValue(last)), target, rest, concat))
  }

  /**
   * The backward search with the subtraction guard `current >= last`: it also undoes a sum whose
   * left operand is 0, which only a first number 0 can produce.
   */
  predicate SearchCorrected(current: nat, target: nat, numbers: seq<nat>, concat: bool)
    requires Positive(numbers)
    decreases |numbers|
  {
    if numbers == [] then current == target
    else
      var n := |numbers| - 1;
      var last, rest := numbers[n], numbers[..n];
      PositivePrefix(numbers, n);
      || (current >= last && SearchCorrected(current - last, target, rest, concat))
      || (current % last == 0 && SearchCorrected(Quotient(current, last), target, rest, concat))
      || (concat && current % PlaceValue(last) == last && SearchCorrected(Quotient(current, PlaceValue(last)), target, rest, concat))
  }

  /** Division of naturals, as `u64` division. */
  function Quotient(a: nat, b: nat): nat
    requires b > 0
  {
    a / b
  }

  lemma SearchEmpty(current: nat, target: nat, concat: bool)
    ensures Search(current, target, [], concat) <==> current == target
  {
  }

  /** Whatever the strict guard accepts, the corrected guard accepts too. */
  lemma {:induction false} SearchIsCorrected(current: nat, target: nat, numbers: seq<nat>, concat: bool)
    requires Positive(numbers) && Search(current, target, numbers, concat)
    ensures SearchCorrected(current, target, numbers, concat)
    decreases |numbers|
  {
    if numbers != [] {
      var n := |numbers| - 1;
      var last, rest := numbers[n], numbers[..n];
      if current > last && Search(current - last, target, rest, concat) {
        SearchIsCorrected(current - last, target, rest, concat);
      } else if current % last == 0 && Search(Quotient(current, last), target, rest, concat) {
        SearchIsCorrected(Quotient(current, last), target, rest, concat);
      } else {
        SearchIsCorrected(Quotient(current, PlaceValue(last)), target, rest, concat);
      }
    }
  }

  /** From 0 no positive first number is reached: 0 only divides down to 0 again. */
  lemma {:induction false} ZeroMissesPositive(target: nat, numbers: seq<nat>, concat: bool)
    requires target > 0 && Positive(numbers)
    ensures !SearchCorrected(0, target, numbers, concat)
    decreases |numbers|
  {
    if numbers != [] {
      var n := |numbers| - 1;
      PositivePrefix(numbers, n);
      ZeroMissesPositive(target, numbers[..n], concat);
    }
  }

  /** With a positive first number the two guards agree: `current == last` leads to 0 only. */
  lemma {:induction false} SearchGuardsAgree(current: nat, target: nat, numbers: seq<nat>, concat: bool)
    requires target > 0 && Positive(numbers)
    ensures Search(current, target, numbers, concat) <==> SearchCorrected(current, target, numbers, concat)
    decreases |numbers|
  {
    if numbers != [] {
      var n := |numbers| - 1;
      var last, rest := numbers[n], numbers[..n];
      PositivePrefix(numbers, n);
      if current >= last {
        SearchGuardsAgree(current - last, target, rest, concat);
        if current == last {
          ZeroMissesPositive(target, rest, concat);
        }
      }
      SearchGuardsAgree(Quotient(current, last), target, rest, concat);
      SearchGuardsAgree(Quotient(current, PlaceValue(last)), target, rest, concat);
    }
  }

  /** A suffix in decimal: `current` ends with the digits of `last` exactly when it is `x || last`. */
  lemma ConcatSuffix(x: nat, last: nat)
    requires last > 0
    ensures (x * PlaceValue(last) + last) % PlaceValue(last) == last
    ensures Quotient(x * PlaceValue(last) + last, PlaceValue(last)) == x
  {
    PlaceValueBounds(last);
    DivModOfMultiple(x, PlaceValue(last), last);
  }

  /** Division of `x * p + r` by `p`, for `r < p`, gives back `x` and `r`. */
  lemma DivModOfMultiple(x: nat, p: nat, r: nat)
    requires r < p
    ensures (x * p + r) % p == r && Quotient(x * p + r, p) == x
  {
    var v := x * p + r;
    var q, s := v / p, v % p;
    assert q * p + s == x * p + r;
    if q > x {
      MulMonotone(q - x, p);
    } else if q < x {
      MulMonotone(x - q, p);
    }
  }

  lemma MulMonotone(k: int, p: int)
    requires k >= 1 && p >= 0
    ensures k * p >= p
  {
  }

  /** Euclidean division recombines: quotient times divisor plus remainder. */
  lemma DivModRecompose(current: nat, p: nat)
    requires p > 0
    ensures current == Quotient(current, p) * p + current % p
  {
  }

  /**
   * Soundness: a successful search yields operators that, applied to `target` and then the
   * numbers left to right, produce `current`.
   */
  lemma {:induction false} SearchSound(current: nat, target: nat, numbers: seq<nat>, concat: bool)
    returns (ops: seq<Op>)
    requires Positive(numbers) && SearchCorrected(current, target, numbers, concat)
    ensures |ops| == |numbers| && Allowed(ops, concat)
    ensures Evaluate(target, numbers, ops) == current
    decreases |numbers|
  {
    if numbers == [] {
      ops := [];
    } else {
      var n := |numbers| - 1;
      var last, rest := numbers[n], numbers[..n];
      var op;
      var before;
      if current >= last && SearchCorrected(current - last, target, rest, concat) {
        op, before := Add, current - last;
      } else if current % last == 0 && SearchCorrected(Quotient(current, last), target, rest, concat) {
        op, before := Mul, Quotient(current, last);
        DivModRecompose(current, last);
      } else {
        op, before := Concat, Quotient(current, PlaceValue(last));
        DivModRecompose(current, PlaceValue(last));
      }
      var prefix := SearchSound(before, target, rest, concat);
      ops := prefix + [op];
      assert ops[..n] == prefix;
    }
  }

  /** One operator keeps the value at least its left operand. */
  lemma ApplyAtLeastLeft(op: Op, a: nat, b: nat)
    requires b > 0
    ensures Apply(op, a, b) >= a
  {
    match op
    case Add =>
    case Mul =>
      assert a * b >= a * 1;
    case Concat =>
      assert a * PlaceValue(b) >= a * 1;
  }

  /** Every operator keeps the value at least its left operand. */
  lemma {:induction false} EvaluateAtLeastFirst(first: nat, rest: seq<nat>, ops: seq<Op>)
    requires Positive(rest) && |ops| == |rest|
    ensures Evaluate(first, rest, ops) >= first
  {
    if rest != [] {
      var n := |rest| - 1;
      PositivePrefix(rest, n);
      EvaluateAtLeastFirst(first, rest[..n], ops[..n]);
      ApplyAtLeastLeft(ops[n], Evaluate(first, rest[..n], ops[..n]), rest[n]);
    }
  }

  /**
   * Completeness: whatever allowed operators produce, the backward search from that value
   * finds, whatever the first number.
   */
  lemma {:induction false} SearchComplete(target: nat, numbers: seq<nat>, ops: seq<Op>, concat: bool)
    requires Positive(numbers) && |ops| == |numbers| && Allowed(ops, concat)
    ensures SearchCorrected(Evaluate(target, numbers, ops), target, numbers, concat)
  {
    if numbers != [] {
      var n := |numbers| - 1;
      var last, rest := numbers[n], numbers[..n];
      var prefix := ops[..n];
      assert Allowed(prefix, concat) by {
        if !concat {
          assert forall i :: 0 <= i < n ==> prefix[i] == ops[i];
        }
      }
      var x := Evaluate(target, rest, prefix);
      SearchComplete(target, rest, prefix, concat);
      var current := Evaluate(target, numbers, ops);
      match ops[n]
      case Add =>
        assert current - last == x;
      case Mul =>
        DivModOfMultiple(x, last, 0);
        assert current % last == 0 && Quotient(current, last) == x;
      case Concat =>
        assert concat;
        ConcatSuffix(x, last);
    }
  }

  /** `is_valid_case` as written: search backwards from `target` down to the first number. */
  predicate IsValidCase(target: nat, numbers: seq<nat>, concat: bool)
    requires |numbers| >= 1 && Positive(numbers[1..])
  {
    Search(target, numbers[0], numbers[1..], concat)
  }

  /** `is_valid_case` with the corrected subtraction guard. */
  predicate IsValidCaseCorrected(target: nat, numbers: seq<nat>, concat: bool)
    requires |numbers| >= 1 && Positive(numbers[1..])
  {
    SearchCorrected(target, numbers[0], numbers[1..], concat)
  }

  /**
   * A case is valid exactly when some allowed operators combine its numbers into its target,
   * for every first number, 0 included.
   */
  lemma ValidCaseMeaning(target: nat, numbers: seq<nat>, concat: bool)
    requires |numbers| >= 1 && Positive(numbers[1..])
    ensures IsValidCaseCorrected(target, numbers, concat) <==>
      exists ops :: |ops| == |numbers| - 1 && Allowed(ops, concat) && Evaluate(numbers[0], numbers[1..], ops) == target
  {
    if IsValidCaseCorrected(target, numbers, concat) {
      var ops := SearchSound(target, numbers[0], numbers[1..], concat);
    }
    forall ops | |ops| == |numbers| - 1 && Allowed(ops, concat) && Evaluate(numbers[0], numbers[1..], ops) == target
      ensures IsValidCaseCorrected(target, numbers, concat)
    {
      SearchComplete(numbers[0], numbers[1..], ops, concat);
    }
  }

  /** With a positive first number the code as written decides validity correctly. */
  lemma ValidCaseAsWritten(target: nat, numbers: seq<nat>, concat: bool)
    requires |numbers| >= 1 && numbers[0] > 0 && Positive(numbers[1..])
    ensures IsValidCase(target, numbers, concat) <==> IsValidCaseCorrected(target, numbers, concat)
  {
    SearchGuardsAgree(target, numbers[0], numbers[1..], concat);
  }

  /**
   * As written, part 1 rejects `5: 0 5` although 0 + 5 = 5: the strict guard `5 > 5` fails,
   * and division leads to 1, which is not the first number 0.
   */
  lemma ZeroFirstOperandMissed()
    ensures Evaluate(0, [5], [Add]) == 5
    ensures !IsValidCase(5, [0, 5], false)
    ensures IsValidCaseCorrected(5, [0, 5], false)
  {
    assert [0, 5][1..] == [5];
    assert [5][..0] == [];
    assert [Add][..0] == [];
    assert SearchCorrected(0, 0, [], false);
  }

  /** Allowing concatenation only adds solutions. */
  lemma {:induction false} ConcatOnlyAdds(current: nat, target: nat, numbers: seq<nat>)
    requires Positive(numbers) && SearchCorrected(current, target, numbers, false)
    ensures SearchCorrected(current, target, numbers, true)
    decreases |numbers|
  {
    if numbers != [] {
      var n := |numbers| - 1;
      var last, rest := numbers[n], numbers[..n];
      if current >= last && SearchCorrected(current - last, target, rest, false) {
        ConcatOnlyAdds(current - last, target, rest);
      } else {
        ConcatOnlyAdds(Quotient(current, last), target, rest);
      }
    }
  }

  datatype Equation = Equation(target: nat, numbers: seq<nat>)

  /** Every equation has a first number, and the operands after it are positive. */
  predicate WellFormed(equations: seq<Equation>)
  {
    forall i :: 0 <= i < |equations| ==> |equations[i].numbers| >= 1 && Positive(equations[i].numbers[1..])
  }

  /** Both parts: the sum of the targets of the valid equations. */
  function CalibrationTotal(equations: seq<Equation>, concat: bool): (total: nat)
    requires WellFormed(equations)
  {
    if equations == [] then 0
    else
      var e := equations[0];
      (if IsValidCaseCorrected(e.target, e.numbers, concat) then e.target else 0) + CalibrationTotal(equations[1..], concat)
  }

  /** Part 2's total counts every equation part 1 counts, so it is never smaller. */
  lemma {:induction false} PartTwoAtLeastPartOne(equations: seq<Equation>)
    requires WellFormed(equations)
    ensures CalibrationTotal(equations, false) <= CalibrationTotal(equations, true)
  {
    if equations != [] {
      var e := equations[0];
      if IsValidCaseCorrected(e.target, e.numbers, false) {
        ConcatOnlyAdds(e.target, e.numbers[0], e.numbers[1..]);
      }
      PartTwoAtLeastPartOne(equations[1..]);
    }
  }

  lemma ExampleCase190()
    ensures IsValidCase(190, [10, 19], false) && IsValidCase(190, [10, 19], true)
  {
    assert [10, 19][1..] == [19];
    assert [19][..0] == [];
    assert PlaceValue(19) == 100;
    assert Search(190, 10, [19], false);
    assert Search(190, 10, [19], true);
  }

  lemma ExampleCase3267()
    ensures IsValidCase(3267, [81, 40, 27], false) && IsValidCase(3267, [81, 40, 27], true)
  {
    assert [81, 40, 27][1..] == [40, 27];
    assert [40, 27][..1] == [40];
    assert [40][..0] == [];
    assert PlaceValue(27) == 100;
    assert PlaceValue(40) == 100;
    assert Search(3240, 81, [40], false);
    assert Search(3267, 81, [40, 27], false);
    assert Search(3240, 81, [40], true);
    assert Search(3267, 81, [40, 27], true);
  }

  lemma ExampleCase83()
    ensures !IsValidCase(83, [17, 5], false) && !IsValidCase(83, [17, 5], true)
  {
    assert [17, 5][1..] == [5];
    assert [5][..0] == [];
    assert PlaceValue(5) == 10;
    assert !Search(83, 17, [5], false);
    assert !Search(83, 17, [5], true);
  }

  lemma ExampleCase156()
    ensures !IsValidCase(156, [15, 6], false) && IsValidCase(156, [15, 6], true)
  {
    assert [15, 6][1..] == [6];
    assert [6][..0] == [];
    assert PlaceValue(6) == 10;
    assert !Search(156, 15, [6], false);
    assert Search(156, 15, [6], true);
  }

  lemma ExampleCase7290()
    ensures !IsValidCase(7290, [6, 8, 6, 15], false) && IsValidCase(7290, [6, 8, 6, 15], true)
  {
    assert [6, 8, 6, 15][1..] == [8, 6, 15];
    assert [8, 6, 15][..2] == [8, 6];
    assert [8, 6][..1] == [8];
    assert [8][..0] == [];
    assert PlaceValue(6) == 10;
    assert PlaceValue(8) == 10;
    assert PlaceValue(15) == 100;
    assert !Search(7269, 6, [8], false);
    assert !Search(7275, 6, [8, 6], false);
    assert !Search(480, 6, [8], false);
    assert !Search(81, 6, [8], false);
    assert !Search(486, 6, [8, 6], false);
    assert !Search(7290, 6, [8, 6, 15], false);
    assert !Search(7269, 6, [8], true);
    assert !Search(7275, 6, [8, 6], true);
    assert !Search(480, 6, [8], true);
    assert !Search(81, 6, [8], true);
    assert Search(48, 6, [8], true);
    assert Search(486, 6, [8, 6], true);
    assert Search(7290, 6, [8, 6, 15], true);
  }

  lemma ExampleCase161011()
    ensures !IsValidCase(161011, [16, 10, 13], false) && !IsValidCase(161011, [16, 10, 13], true)
  {
    assert [16, 10, 13][1..] == [10, 13];
    assert [10, 13][..1] == [10];
    assert [10][..0] == [];
    assert PlaceValue(10) == 100;
    assert PlaceValue(13) == 100;
    assert !Search(160998, 16, [10], false);
    assert !Search(161011, 16, [10, 13], false);
    assert !Search(160998, 16, [10], true);
    assert !Search(161011, 16, [10, 13], true);
  }

  lemma ExampleCase192()
    ensures !IsValidCase(192, [17, 8, 14], false) && IsValidCase(192, [17, 8, 14], true)
  {
    assert [17, 8, 14][1..] == [8, 14];
    assert [8, 14][..1] == [8];
    assert [8][..0] == [];
    assert PlaceValue(8) == 10;
    assert PlaceValue(14) == 100;
    assert !Search(178, 17, [8], false);
    assert !Search(192, 17, [8, 14], false);
    assert Search(178, 17, [8], true);
    assert Search(192, 17, [8, 14], true);
  }

  lemma ExampleCase21037()
    ensures !IsValidCase(21037, [9, 7, 18, 13], false) && !IsValidCase(21037, [9, 7, 18, 13], true)
  {
    assert [9, 7, 18, 13][1..] == [7, 18, 13];
    assert [7, 18, 13][..2] == [7, 18];
    assert [7, 18][..1] == [7];
    assert [7][..0] == [];
    assert PlaceValue(7) == 10;
    assert PlaceValue(13) == 100;
    assert PlaceValue(18) == 100;
    assert !Search(21006, 9, [7], false);
    assert !Search(1168, 9, [7], false);
    assert !Search(21024, 9, [7, 18], false);
    assert !Search(21037, 9, [7, 18, 13], false);
    assert !Search(21006, 9, [7], true);
    assert !Search(1168, 9, [7], true);
    assert !Search(21024, 9, [7, 18], true);
    assert !Search(21037, 9, [7, 18, 13], true);
  }

  lemma ExampleCase292()
    ensures IsValidCase(292, [11, 6, 16, 20], false) && IsValidCase(292, [11, 6, 16, 20], true)
  {
    assert [11, 6, 16, 20][1..] == [6, 16, 20];
    assert [6, 16, 20][..2] == [6, 16];
    assert [6, 16][..1] == [6];
    assert [6][..0] == [];
    assert PlaceValue(6) == 10;
    assert PlaceValue(16) == 100;
    assert PlaceValue(20) == 100;
    assert !Search(256, 11, [6], false);
    assert Search(17, 11, [6], false);
    assert Search(272, 11, [6, 16], false);
    assert Search(292, 11, [6, 16, 20], false);
    assert !Search(256, 11, [6], true);
    assert Search(17, 11, [6], true);
    assert Search(272, 11, [6, 16], true);
    assert Search(292, 11, [6, 16, 20], true);
  }
}
