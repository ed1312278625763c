/**
 * Day 11: a line of stones changes at each blink: a 0 becomes 1, a number with an even number of
 * digits splits into its two halves, and any other number is multiplied by 2024.
 */
module Day11 {
  import opened Common

  /** `NbDigits(m) == k` exactly when `m` has `k` digits, `0` counting as one. */
  lemma {:induction false} NbDigitsExact(m: nat, k: nat)
    requires k >= 1 && (k == 1 || Pow10(k - 1) <= m) && m < Pow10(k)
    ensures NbDigits(m) == k
    decreases k
  {
    if k > 1 {
      assert 10 * Pow10(k - 2) == Pow10(k - 1);
      NbDigitsExact(m / 10, k - 1);
    }
  }

  lemma {:induction false} Pow10Add(a: nat, b: nat)
    ensures Pow10(a + b) == Pow10(a) * Pow10(b)
  {
    if a > 0 {
      Pow10Add(a - 1, b);
      assert Pow10(a + b) == 10 * Pow10(a - 1 + b);
    }
  }

  /**
   * `split_in_two_per_digit`, defined for an even digit count only (odd panics): the high and
   * the low half of the digits.
   */
  function Split(n: nat): (halves: (nat, nat))
    requires NbDigits(n) % 2 == 0
  {
    var mask := Pow10(NbDigits(n) / 2);
    (n / mask, n % mask)
  }

  /**
   * The halves put back together give `n`, the low half is below the mask, and the high half
   * has exactly half of the digits.
   */
  lemma SplitMeaning(n: nat)
    requires NbDigits(n) % 2 == 0
    ensures var h := NbDigits(n) / 2;
      && Split(n).0 * Pow10(h) + Split(n).1 == n
      && Split(n).1 < Pow10(h)
      && NbDigits(Split(n).0) == h
  {
    var d := NbDigits(n);
    var h := d / 2;
    var mask := Pow10(h);
    NbDigitsBounds(n);
    assert n >= 1;
    Pow10Add(h - 1, h);
    Pow10Add(h, h);
    assert h - 1 + h == d - 1 && h + h == d;
    DivBounds(n, mask, Pow10(h - 1), Pow10(h));
    NbDigitsExact(n / mask, h);
  }

  /** What one stone becomes at a blink. */
  function Rewrite(n: nat): (stones: seq<nat>)
    ensures 1 <= |stones| <= 2
  {
    if n == 0 then [1]
    else if NbDigits(n) % 2 == 0 then [Split(n).0, Split(n).1]
    else [n * 2024]
  }

  /** `blink`: every stone rewritten, in order (`flat_map`). */
  function Blink(stones: seq<nat>): seq<nat>
  {
    if stones == [] then [] else Rewrite(stones[0]) + Blink(stones[1..])
  }

  /** Stones change independently: blinking a concatenation blinks each part. */
  lemma {:induction false} BlinkAppend(a: seq<nat>, b: seq<nat>)
    ensures Blink(a + b) == Blink(a) + Blink(b)
  {
    if a == [] {
      assert a + b == b;
    } else {
      assert (a + b)[1..] == a[1..] + b;
      BlinkAppend(a[1..], b);
    }
  }

  /** No stone disappears and each becomes at most two. */
  lemma {:induction false} BlinkLength(stones: seq<nat>)
    ensures |stones| <= |Blink(stones)| <= 2 * |stones|
  {
    if stones != [] {
      BlinkLength(stones[1..]);
    }
  }

  lemma Twice(x: nat, y: nat)
    ensures 2 * (x * y) == (2 * x) * y
  {
  }

  /** The stones after `k` blinks. */
  function BlinkTimes(stones: seq<nat>, k: nat): seq<nat>
  {
    if k == 0 then stones else Blink(BlinkTimes(stones, k - 1))
  }

  lemma {:induction false} BlinkTimesLength(stones: seq<nat>, k: nat)
    ensures |stones| <= |BlinkTimes(stones, k)| <= Pow2(k) * |stones|
    decreases k
  {
    if k > 0 {
      var before := BlinkTimes(stones, k - 1);
      var bound := Pow2(k - 1);
      BlinkTimesLength(stones, k - 1);
      BlinkLength(before);
      assert |BlinkTimes(stones, k)| <= 2 * (bound * |stones|);
      Twice(bound, |stones|);
    }
  }

  /** `day_11_part_1`: the number of stones after 25 blinks. */
  method Part1(stones: seq<nat>) returns (count: nat)
    ensures count == |BlinkTimes(stones, 25)|
    ensures |stones| <= count <= Pow2(25) * |stones|
  {
    var v := stones;
    for i := 0 to 25
      invariant v == BlinkTimes(stones, i)
    {
      v := Blink(v);
    }
    count := |v|;
    BlinkTimesLength(stones, 25);
  }

  lemma ExampleSplits()
    ensures Split(10) == (1, 0) && Split(21) == (2, 1) && Split(1234) == (12, 34)
    ensures Split(1234567890) == (12345, 67890) && Split(1000) == (10, 0)
  {
  }

  lemma ExampleBlink()
    ensures Blink([0, 1, 10, 99, 999]) == [1, 2024, 1, 0, 9, 9, 2021976]
  {
    assert Rewrite(10) == [1, 0] && Rewrite(99) == [9, 9];
  }
}
