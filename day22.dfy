/**
 * Day 22: monkey market secrets. Each secret is turned into the next by three rounds of shift,
 * xor and truncation to 24 bits. Part 1 sums the 2000th secret of every buyer. Part 2 looks at
 * the last decimal digit of each secret as a price, encodes every run of four price changes in
 * base 19, and for each code adds up, over the buyers, the price at the code's first occurrence;
 * the answer is the best such total.
 */
module Day22 {
  import opened Common

  /** The source's `u32`. */
  type U32 = bv32

  /** `mix`. */
  function Mix(a: U32, b: U32): U32
  {
    a ^ b
  }

  /** The low 24 bits. */
  const Mask: U32 := 0xFF_FFFF

  /** `prune`: keeps the low 24 bits. */
  function Prune(number: U32): (r: U32)
    ensures r < 0x100_0000
  {
    number & Mask
  }

  /** The low 24 bits are the remainder modulo 2^24. */
  lemma {:induction false} PruneIsRemainder(number: U32)
    ensures Prune(number) == number % 0x100_0000
  {
  }

  /** `multiply_by_64`, `divide_by_32` and `multiply_by_2048`: shifts, wrapping at 32 bits. */
  function MultiplyBy64(number: U32): U32
  {
    number << 6
  }

  function DivideBy32(number: U32): U32
  {
    number >> 5
  }

  function MultiplyBy2048(number: U32): U32
  {
    number << 11
  }

  /** The three mix-then-prune rounds of `compute_next_secret`. */
  function Round1(number: U32): U32
  {
    Prune(Mix(MultiplyBy64(number), number))
  }

  function Round2(number: U32): U32
  {
    Prune(Mix(DivideBy32(number), number))
  }

  function Round3(number: U32): (r: U32)
    ensures r < 0x100_0000
  {
    Prune(Mix(MultiplyBy2048(number), number))
  }

  /** `compute_next_secret`. */
  function NextSecret(secret: U32): (r: U32)
    ensures r < 0x100_0000
  {
    Round3(Round2(Round1(secret)))
  }

  /** The same rounds on 64 bits, where no shift loses a bit. */
  function WideRound1(number: bv64): bv64
  {
    ((number << 6) ^ number) & 0xFF_FFFF
  }

  function WideRound2(number: bv64): bv64
  {
    ((number >> 5) ^ number) & 0xFF_FFFF
  }

  function WideRound3(number: bv64): bv64
  {
    ((number << 11) ^ number) & 0xFF_FFFF
  }

  function NextSecretWide(secret: bv64): bv64
  {
    WideRound3(WideRound2(WideRound1(secret)))
  }

  /**
   * The 32-bit wrap-around of the shifts never changes a secret, because each round keeps 24 bits:
   * the three rounds that make up `NextSecret` agree with the same rounds on 64 bits.
   */
  lemma {:induction false} TruncationHarmless(secret: U32)
    ensures Round3(Round2(Round1(secret))) as bv64 == NextSecretWide(secret as bv64)
  {
    TwoRoundsWide(secret);
    ThirdRoundWide(Round2(Round1(secret)));
  }

  lemma {:induction false} TwoRoundsWide(secret: U32)
    ensures Round2(Round1(secret)) as bv64 == WideRound2(WideRound1(secret as bv64))
  {
    FirstRoundWide(secret);
    SecondRoundWide(Round1(secret));
  }

  lemma {:induction false} FirstRoundWide(x: U32)
    ensures Round1(x) as bv64 == WideRound1(x as bv64)
  {
  }

  lemma {:induction false} SecondRoundWide(x: U32)
    ensures Round2(x) as bv64 == WideRound2(x as bv64)
  {
  }

  lemma {:induction false} ThirdRoundWide(x: U32)
    ensures Round3(x) as bv64 == WideRound3(x as bv64)
  {
  }

  lemma {:induction false} MixPruneExamples()
    ensures Mix(42, 15) == 37
    ensures Prune(100000000) == 16113920
  {
  }

  /** The secret after `n` steps. */
  function Iterate(secret: U32, n: nat): U32
  {
    if n == 0 then secret else NextSecret(Iterate(secret, n - 1))
  }

  /** The ten secrets after 123 that the source's test lists. */
  lemma {:induction false} ChainFrom123()
    ensures NextSecret(123) == 15887950
    ensures NextSecret(15887950) == 16495136
    ensures NextSecret(16495136) == 527345
    ensures NextSecret(527345) == 704524
    ensures NextSecret(704524) == 1553684
    ensures NextSecret(1553684) == 12683156
    ensures NextSecret(12683156) == 11100544
    ensures NextSecret(11100544) == 12249484
    ensures NextSecret(12249484) == 7753432
    ensures NextSecret(7753432) == 5908254
  {
  }

  lemma {:induction false} IterateFrom123()
    ensures Iterate(123, 10) == 5908254
  {
    ChainFrom123();
    assert Iterate(123, 1) == 15887950;
    assert Iterate(123, 2) == 16495136;
    assert Iterate(123, 3) == 527345;
    assert Iterate(123, 4) == 704524;
    assert Iterate(123, 5) == 1553684;
    assert Iterate(123, 6) == 12683156;
    assert Iterate(123, 7) == 11100544;
    assert Iterate(123, 8) == 12249484;
    assert Iterate(123, 9) == 7753432;
  }

  // ---------------------------------------------------------------------------------------------
  // Part 1

  /** The number of steps of part 1. */
  const Steps: nat := 2000

  /** The sum of the 2000th secrets of the buyers. */
  function SumOfSecrets(seeds: seq<U32>): int
  {
    if seeds == [] then 0 else SumOfSecrets(seeds[..|seeds| - 1]) + Iterate(seeds[|seeds| - 1], Steps) as int
  }

  /** The secret after 2000 steps, as the inner loop of `day_22_part_1` computes it. */
  method SecretAfterSteps(seed: U32) returns (secret: U32)
    ensures secret == Iterate(seed, Steps)
  {
    secret := seed;
    for i := 0 to Steps
      invariant secret == Iterate(seed, i)
    {
      secret := NextSecret(secret);
    }
  }

  /** `day_22_part_1`. */
  method Part1(seeds: seq<U32>) returns (total: int)
    ensures total == SumOfSecrets(seeds)
  {
    total := 0;
    for i := 0 to |seeds|
      invariant total == SumOfSecrets(seeds[..i])
    {
      var secret := SecretAfterSteps(seeds[i]);
      total := total + secret as int;
      assert seeds[..i + 1][..i] == seeds[..i];
    }
    assert seeds[..|seeds|] == seeds;
  }

  // ---------------------------------------------------------------------------------------------
  // The base-19 code of four price changes

  /** A price change: the difference of two last digits. */
  predicate IsChange(d: int)
  {
    -9 <= d <= 9
  }

  /** The number of codes, 19^4: the source's `array_size`. */
  const CodeCount: nat := 130321

  /** `sequence_to_number`: the four changes, shifted by 9, as base-19 digits. */
  function SequenceToNumber(a: int, b: int, c: int, d: int): (n: nat)
    requires IsChange(a) && IsChange(b) && IsChange(c) && IsChange(d)
    ensures n < CodeCount
  {
    6859 * (a + 9) + 361 * (b + 9) + 19 * (c + 9) + (d + 9)
  }

  /** Four changes as one value, to state the inverse. */
  datatype Changes = Changes(a: int, b: int, c: int, d: int)

  predicate ValidChanges(x: Changes)
  {
    IsChange(x.a) && IsChange(x.b) && IsChange(x.c) && IsChange(x.d)
  }

  /** The base-19 digits of a code, shifted back by 9. */
  function NumberToSequence(n: nat): (x: Changes)
    requires n < CodeCount
    ensures ValidChanges(x)
  {
    Changes(n / 6859 - 9, n / 361 % 19 - 9, n / 19 % 19 - 9, n % 19 - 9)
  }

  /** Decoding a code gives back the four changes. */
  lemma {:induction false} NumberToSequenceInverse(x: Changes)
    requires ValidChanges(x)
    ensures NumberToSequence(SequenceToNumber(x.a, x.b, x.c, x.d)) == x
  {
    var a, b, c, d := x.a + 9, x.b + 9, x.c + 9, x.d + 9;
    var n := SequenceToNumber(x.a, x.b, x.c, x.d);
    assert n / 19 == 361 * a + 19 * b + c && n % 19 == d by {
      ModUnique(n, 19, 361 * a + 19 * b + c, d);
    }
    assert n / 361 == 19 * a + b by {
      ModUnique(n, 361, 19 * a + b, 19 * c + d);
    }
    assert n / 6859 == a by {
      ModUnique(n, 6859, a, 361 * b + 19 * c + d);
    }
    assert (361 * a + 19 * b + c) % 19 == c by {
      ModUnique(361 * a + 19 * b + c, 19, 19 * a + b, c);
    }
    assert (19 * a + b) % 19 == b by {
      ModUnique(19 * a + b, 19, a, b);
    }
  }

  /** Every code below 19^4 is the code of its decoded changes. */
  lemma {:induction false} SequenceToNumberInverse(n: nat)
    requires n < CodeCount
    ensures var x := NumberToSequence(n); SequenceToNumber(x.a, x.b, x.c, x.d) == n
  {
    var q1, d := n / 19, n % 19;
    var q2, c := q1 / 19, q1 % 19;
    var a, b := q2 / 19, q2 % 19;
    assert n / 361 == q2 by {
      ModUnique(n, 361, q2, 19 * c + d);
    }
    assert n / 6859 == a by {
      ModUnique(n, 6859, a, 361 * b + 19 * c + d);
    }
  }

  /** Different changes get different codes. */
  lemma {:induction false} SequenceToNumberInjective(x: Changes, y: Changes)
    requires ValidChanges(x) && ValidChanges(y)
    requires SequenceToNumber(x.a, x.b, x.c, x.d) == SequenceToNumber(y.a, y.b, y.c, y.d)
    ensures x == y
  {
    NumberToSequenceInverse(x);
    NumberToSequenceInverse(y);
  }

  lemma {:induction false} SequenceToNumberExample()
    ensures SequenceToNumber(9, 9, 9, 9) == 130320
    ensures SequenceToNumber(-9, -9, -9, -9) == 0
  {
  }

  /** `last_digit_base_10`: the price. */
  function LastDigit(number: U32): (d: int)
    ensures 0 <= d <= 9
  {
    number as int % 10
  }

  // ---------------------------------------------------------------------------------------------
  // Part 2

  /** The number of windows of four changes per buyer: `max_iter`. */
  const MaxIter: nat := 2000 - 3

  /** The price after `i` steps. */
  function Price(seed: U32, i: nat): int
  {
    LastDigit(Iterate(seed, i))
  }

  /** The change from step `i` to step `i + 1`. */
  function Change(seed: U32, i: nat): (d: int)
    ensures IsChange(d)
  {
    Price(seed, i + 1) - Price(seed, i)
  }

  /** The code of the window of changes ending at step `j + 4`. */
  function Key(seed: U32, j: nat): nat
  {
    SequenceToNumber(Change(seed, j), Change(seed, j + 1), Change(seed, j + 2), Change(seed, j + 3))
  }

  /** The codes of a buyer's first `n` windows. */
  function Windows(seed: U32, n: nat): (keys: seq<nat>)
    ensures |keys| == n
  {
    seq(n, j requires 0 <= j => Key(seed, j))
  }

  /** The price right after each of a buyer's first `n` windows. */
  function PricesAfter(seed: U32, n: nat): (prices: seq<int>)
    ensures |prices| == n
  {
    seq(n, j requires 0 <= j => Price(seed, j + 4))
  }

  /** The price after the first window with code `k`, if there is one: what `map` remembers. */
  function FirstPrice(keys: seq<nat>, prices: seq<int>, k: nat): Option<int>
    requires |keys| == |prices|
  {
    if keys == [] then None
    else
      var n := |keys| - 1;
      var earlier := FirstPrice(keys[..n], prices[..n], k);
      if earlier.Some? then earlier
      else if keys[n] == k then Some(prices[n])
      else None
  }

  /** Window `j` is the first with code `k`. */
  predicate IsFirst(keys: seq<nat>, k: nat, j: nat)
  {
    j < |keys| && keys[j] == k && forall j' :: 0 <= j' < j ==> keys[j'] != k
  }

  /** `FirstPrice` finds nothing exactly when no window has the code. */
  lemma {:induction false} FirstPriceNone(keys: seq<nat>, prices: seq<int>, k: nat)
    requires |keys| == |prices|
    ensures FirstPrice(keys, prices, k) == None <==> forall j :: 0 <= j < |keys| ==> keys[j] != k
  {
    if keys != [] {
      var n := |keys| - 1;
      FirstPriceNone(keys[..n], prices[..n], k);
      assert forall j :: 0 <= j < n ==> keys[..n][j] == keys[j];
    }
  }

  /** `FirstPrice` gives the price right after the earliest window with the code. */
  lemma {:induction false} FirstPriceAt(keys: seq<nat>, prices: seq<int>, k: nat, j: nat)
    requires |keys| == |prices|
    requires IsFirst(keys, k, j)
    ensures FirstPrice(keys, prices, k) == Some(prices[j])
  {
    var n := |keys| - 1;
    if j < n {
      assert IsFirst(keys[..n], k, j);
      FirstPriceAt(keys[..n], prices[..n], k, j);
    } else {
      assert forall j' :: 0 <= j' < n ==> keys[..n][j'] != k;
      FirstPriceNone(keys[..n], prices[..n], k);
    }
  }

  /** One more window: the step the loop of part 2 takes. */
  lemma {:induction false} FirstPriceSnoc(keys: seq<nat>, prices: seq<int>, i: nat, k: nat)
    requires |keys| == |prices| && i < |keys|
    ensures FirstPrice(keys[..i + 1], prices[..i + 1], k)
      == if FirstPrice(keys[..i], prices[..i], k).Some? then FirstPrice(keys[..i], prices[..i], k)
         else if keys[i] == k then Some(prices[i]) else None
  {
    assert keys[..i + 1][..i] == keys[..i];
    assert prices[..i + 1][..i] == prices[..i];
  }

  /** What one buyer adds to the total of code `k`. */
  function Gain(seed: U32, k: nat): int
  {
    Credit(FirstPrice(Windows(seed, MaxIter), PricesAfter(seed, MaxIter), k))
  }

  /** A buyer pays for code `k` the price right after the first window with that code. */
  lemma {:induction false} GainAt(seed: U32, k: nat, j: nat)
    requires IsFirst(Windows(seed, MaxIter), k, j)
    ensures Gain(seed, k) == Price(seed, j + 4)
  {
    var keys, prices := Windows(seed, MaxIter), PricesAfter(seed, MaxIter);
    FirstPriceAt(keys, prices, k, j);
    assert prices[j] == Price(seed, j + 4);
  }

  /** A buyer pays nothing for a code none of its windows has. */
  lemma {:induction false} GainNone(seed: U32, k: nat)
    requires forall j :: 0 <= j < MaxIter ==> Key(seed, j) != k
    ensures Gain(seed, k) == 0
  {
    var keys := Windows(seed, MaxIter);
    assert forall j :: 0 <= j < MaxIter ==> keys[j] != k;
    FirstPriceNone(keys, PricesAfter(seed, MaxIter), k);
  }

  /** The bananas code `k` earns over all buyers. */
  function Total(seeds: seq<U32>, k: nat): int
  {
    if seeds == [] then 0 else Total(seeds[..|seeds| - 1], k) + Gain(seeds[|seeds| - 1], k)
  }

  /** The loop state of part 2 before window `i`: the latest secret, its price and three changes. */
  predicate Rolling(seed: U32, i: nat, secret: U32, lastDigit: int, diff3To2: int, diff2To1: int, diff1To0: int)
  {
    secret == Iterate(seed, i + 3) && lastDigit == Price(seed, i + 3)
    && diff3To2 == Change(seed, i) && diff2To1 == Change(seed, i + 1) && diff1To0 == Change(seed, i + 2)
  }

  /** The three secrets and their prices computed before the loop of part 2: the state before window 0. */
  method Start(seed: U32) returns (secretG0: U32, lastDigitG0: int, diff3To2: int, diff2To1: int, diff1To0: int)
    ensures Rolling(seed, 0, secretG0, lastDigitG0, diff3To2, diff2To1, diff1To0)
  {
    var secretG3 := seed;
    var secretG2 := NextSecret(secretG3);
    var secretG1 := NextSecret(secretG2);
    secretG0 := NextSecret(secretG1);
    var lastDigitG3 := LastDigit(secretG3);
    var lastDigitG2 := LastDigit(secretG2);
    var lastDigitG1 := LastDigit(secretG1);
    lastDigitG0 := LastDigit(secretG0);
    diff3To2 := lastDigitG2 - lastDigitG3;
    diff2To1 := lastDigitG1 - lastDigitG2;
    diff1To0 := lastDigitG0 - lastDigitG1;
    assert Iterate(seed, 1) == secretG2;
    assert Iterate(seed, 2) == secretG1;
    assert Iterate(seed, 3) == secretG0;
    assert Price(seed, 0) == lastDigitG3 && Price(seed, 1) == lastDigitG2;
    assert Price(seed, 2) == lastDigitG1 && Price(seed, 3) == lastDigitG0;
  }

  /** One step of the loop of part 2: the code and the price of window `i`, and the state before window `i + 1`. */
  method Advance(ghost seed: U32, ghost i: nat, secretG0: U32, lastDigitG0: int, diff3To2: int, diff2To1: int, diff1To0: int)
    returns (next: U32, lastDigitNext: int, diff0ToNext: int, number: nat)
    requires i < MaxIter
    requires Rolling(seed, i, secretG0, lastDigitG0, diff3To2, diff2To1, diff1To0)
    ensures number == Windows(seed, MaxIter)[i] && lastDigitNext == PricesAfter(seed, MaxIter)[i]
    ensures Rolling(seed, i + 1, next, lastDigitNext, diff2To1, diff1To0, diff0ToNext)
  {
    next := NextSecret(secretG0);
    lastDigitNext := LastDigit(next);
    diff0ToNext := lastDigitNext - lastDigitG0;
    number := SequenceToNumber(diff3To2, diff2To1, diff1To0, diff0ToNext);
  }

  /** The `if map[number].is_none()` step: the first occurrence of a code records its price. */
  method Record(seen: array<Option<int>>, sums: array<int>, number: nat, price: int,
                ghost keys: seq<nat>, ghost prices: seq<int>, ghost i: nat, ghost base: seq<int>)
    requires seen.Length == CodeCount && sums.Length == CodeCount && |base| == CodeCount
    requires |keys| == |prices| && i < |keys| && keys[i] == number && prices[i] == price && number < CodeCount
    requires forall k :: 0 <= k < CodeCount ==> seen[k] == FirstPrice(keys[..i], prices[..i], k)
    requires forall k :: 0 <= k < CodeCount ==> sums[k] == base[k] + Credit(FirstPrice(keys[..i], prices[..i], k))
    modifies seen, sums
    ensures forall k :: 0 <= k < CodeCount ==> seen[k] == FirstPrice(keys[..i + 1], prices[..i + 1], k)
    ensures forall k :: 0 <= k < CodeCount ==> sums[k] == base[k] + Credit(FirstPrice(keys[..i + 1], prices[..i + 1], k))
  {
    forall k | 0 <= k < CodeCount
      ensures FirstPrice(keys[..i + 1], prices[..i + 1], k)
        == if FirstPrice(keys[..i], prices[..i], k).Some? then FirstPrice(keys[..i], prices[..i], k)
           else if number == k then Some(price) else None
    {
      FirstPriceSnoc(keys, prices, i, k);
    }
    if seen[number].None? {
      seen[number] := Some(price);
      var newSum := sums[number] + price;
      sums[number] := newSum;
    }
  }

  /** The body of the source's `for_each`: one buyer's first prices added to `sums`. */
  method AddBuyer(seed: U32, sums: array<int>)
    requires sums.Length == CodeCount
    modifies sums
    ensures forall k :: 0 <= k < CodeCount ==> sums[k] == old(sums[k]) + Gain(seed, k)
  {
    var seen := new Option<int>[CodeCount](_ => None);
    var secretG0, lastDigitG0, diff3To2, diff2To1, diff1To0 := Start(seed);
    ghost var keys := Windows(seed, MaxIter);
    ghost var prices := PricesAfter(seed, MaxIter);
    ghost var base := sums[..];
    for i := 0 to MaxIter
      invariant Rolling(seed, i, secretG0, lastDigitG0, diff3To2, diff2To1, diff1To0)
      invariant forall k :: 0 <= k < CodeCount ==> seen[k] == FirstPrice(keys[..i], prices[..i], k)
      invariant forall k :: 0 <= k < CodeCount ==> sums[k] == base[k] + Credit(FirstPrice(keys[..i], prices[..i], k))
    {
      var next, lastDigitNext, diff0ToNext, number := Advance(seed, i, secretG0, lastDigitG0, diff3To2, diff2To1, diff1To0);
      Record(seen, sums, number, lastDigitNext, keys, prices, i, base);
      secretG0 := next;
      lastDigitG0 := lastDigitNext;
      diff3To2 := diff2To1;
      diff2To1 := diff1To0;
      diff1To0 := diff0ToNext;
    }
    assert keys[..MaxIter] == keys && prices[..MaxIter] == prices;
  }

  /** The price a first occurrence adds, or nothing. */
  function Credit(p: Option<int>): int
  {
    match p
    case Some(v) => v
    case None => 0
  }

  /** The sums over the buyers, as the source's per-chunk arrays merged by `reduce`. */
  method Sums(seeds: seq<U32>) returns (sums: array<int>)
    ensures sums.Length == CodeCount
    ensures forall k :: 0 <= k < CodeCount ==> sums[k] == Total(seeds, k)
  {
    sums := new int[CodeCount](_ => 0);
    for s := 0 to |seeds|
      invariant forall k :: 0 <= k < CodeCount ==> sums[k] == Total(seeds[..s], k)
    {
      AddBuyer(seeds[s], sums);
      assert seeds[..s + 1][..s] == seeds[..s];
    }
    assert seeds[..|seeds|] == seeds;
  }

  /** `max().unwrap_or(&0)` over the sums. */
  method Max(sums: array<int>) returns (best: int)
    requires sums.Length >= 1
    ensures forall k :: 0 <= k < sums.Length ==> sums[k] <= best
    ensures exists k :: 0 <= k < sums.Length && sums[k] == best
  {
    best := sums[0];
    for i := 1 to sums.Length
      invariant forall k :: 0 <= k < i ==> sums[k] <= best
      invariant exists k :: 0 <= k < i && sums[k] == best
    {
      if sums[i] > best {
        best := sums[i];
      }
    }
  }

  /** `day_22_part_2`: the most bananas one code of four changes earns over all buyers. */
  method Part2(seeds: seq<U32>) returns (best: int)
    ensures forall k :: 0 <= k < CodeCount ==> Total(seeds, k) <= best
    ensures exists k :: 0 <= k < CodeCount && Total(seeds, k) == best
  {
    var sums := Sums(seeds);
    best := Max(sums);
  }
}
