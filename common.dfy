/** Small helpers shared by the day modules. */
module Common {

  datatype Option<T> = None | Some(value: T)

  function Abs(x: int): nat
  {
    if x < 0 then -x else x
  }

  /** Number of occurrences of `x` in `s`. */
  function Count<T(==)>(s: seq<T>, x: T): (n: nat)
    ensures n <= |s|
  {
    if s == [] then 0 else (if s[0] == x then 1 else 0) + Count(s[1..], x)
  }

  lemma {:induction false} CountIsMultiplicity<T>(s: seq<T>, x: T)
    ensures Count(s, x) == multiset(s)[x]
  {
    if s != [] {
      CountIsMultiplicity(s[1..], x);
      assert s == [s[0]] + s[1..];
    }
  }

  lemma {:induction false} CountAppend<T>(a: seq<T>, b: seq<T>, x: T)
    ensures Count(a + b, x) == Count(a, x) + Count(b, x)
  {
    if a == [] {
      assert a + b == b;
    } else {
      assert (a + b)[1..] == a[1..] + b;
      CountAppend(a[1..], b, x);
    }
  }

  function Sum(s: seq<int>): int
  {
    if s == [] then 0 else s[0] + Sum(s[1..])
  }

  lemma {:induction false} SumAppend(a: seq<int>, b: seq<int>)
    ensures Sum(a + b) == Sum(a) + Sum(b)
  {
    if a == [] {
      assert a + b == b;
    } else {
      assert (a + b)[1..] == a[1..] + b;
      SumAppend(a[1..], b);
    }
  }

  predicate IsDigit(c: char)
  {
    '0' <= c <= '9'
  }

  function DigitValue(c: char): (d: nat)
    requires IsDigit(c)
    ensures d < 10
  {
    c as int - '0' as int
  }

  predicate Distinct<T(==)>(s: seq<T>)
  {
    forall i, j :: 0 <= i < j < |s| ==> s[i] != s[j]
  }

  /** A sequence without repeats whose elements all occur in `t` is no longer than `t`. */
  lemma {:induction false} DistinctIncludedLength<T>(s: seq<T>, t: seq<T>)
    requires Distinct(s) && forall x :: x in s ==> x in t
    ensures |s| <= |t|
    decreases |t|
  {
    if s != [] {
      assert s[0] in s;
      var k :| 0 <= k < |t| && t[k] == s[0];
      var t' := t[..k] + t[k + 1..];
      forall y | y in s[1..]
        ensures y in t'
      {
        var i :| 1 <= i < |s| && s[i] == y;
        assert y in s;
        var m :| 0 <= m < |t| && t[m] == y;
        assert m != k;
        if m < k {
          assert t'[m] == y;
        } else {
          assert t'[m - 1] == y;
        }
      }
      DistinctIncludedLength(s[1..], t');
    }
  }

  lemma {:induction false} DistinctCount<T>(s: seq<T>, x: T)
    requires Distinct(s)
    ensures Count(s, x) == if x in s then 1 else 0
  {
    if s != [] {
      DistinctCount(s[1..], x);
      assert x in s <==> x == s[0] || x in s[1..];
    }
  }

  /** Two sequences without repeats holding the same elements are permutations of each other. */
  lemma DistinctSameElements<T>(a: seq<T>, b: seq<T>)
    requires Distinct(a) && Distinct(b)
    requires forall x :: x in a <==> x in b
    ensures multiset(a) == multiset(b)
  {
    forall x
      ensures multiset(a)[x] == multiset(b)[x]
    {
      CountIsMultiplicity(a, x);
      CountIsMultiplicity(b, x);
      DistinctCount(a, x);
      DistinctCount(b, x);
    }
  }

  /** A permutation of a sequence without repeats has no repeats. */
  lemma DistinctMultiset<T>(a: seq<T>, b: seq<T>)
    requires Distinct(a) && multiset(a) == multiset(b)
    ensures Distinct(b)
  {
    forall i, j | 0 <= i < j < |b|
      ensures b[i] != b[j]
    {
      if b[i] == b[j] {
        var x := b[i];
        assert b == b[..i] + [x] + b[i + 1..j] + [x] + b[j + 1..];
        assert multiset(b)[x] >= 2;
        CountIsMultiplicity(a, x);
        DistinctCount(a, x);
      }
    }
  }

  lemma {:induction false} SubsetCardinality<T>(a: set<T>, b: set<T>)
    requires a <= b
    ensures |a| <= |b|
    decreases |b|
  {
    if a != {} {
      var x :| x in a;
      SubsetCardinality(a - {x}, b - {x});
    }
  }

  function Pow2(k: nat): (p: nat)
    ensures p >= 1
  {
    if k == 0 then 1 else 2 * Pow2(k - 1)
  }

  function Pow10(k: nat): (p: nat)
    ensures p >= 1
  {
    if k == 0 then 1 else 10 * Pow10(k - 1)
  }

  /** The number of decimal digits, 0 having one (`ilog10() + 1`, and 1 for 0). */
  function NbDigits(n: nat): (k: nat)
    ensures k >= 1
  {
    if n < 10 then 1 else 1 + NbDigits(n / 10)
  }

  /** `n` has exactly `NbDigits(n)` digits: it lies below the next power of ten and, unless 0, at or above the previous. */
  lemma {:induction false} NbDigitsBounds(n: nat)
    ensures n < Pow10(NbDigits(n))
    ensures n >= 1 ==> Pow10(NbDigits(n) - 1) <= n
  {
    if n >= 10 {
      NbDigitsBounds(n / 10);
    }
  }

  /** Bounds on a product bound the quotient. */
  lemma DivBounds(n: nat, p: nat, lo: nat, hi: nat)
    requires p > 0 && lo * p <= n < hi * p
    ensures lo <= n / p < hi
  {
    var q, r := n / p, n % p;
    assert n == q * p + r && 0 <= r < p;
    if q < lo {
      MulLeft(q + 1, lo, p);
    }
    if q >= hi {
      MulLeft(hi, q, p);
    }
  }

  lemma MulLeft(a: nat, b: nat, p: nat)
    requires a <= b
    ensures a * p <= b * p
  {
  }

  /** Integer division truncating toward zero, as `/` on `i64` does. */
  function TruncDiv(n: int, d: int): (q: int)
    requires d != 0
  {
    var m := Abs(n) / Abs(d);
    if (n < 0) != (d < 0) then -m else m
  }

  /** Euclidean division is determined by its defining equation. */
  lemma ModUnique(n: int, d: int, q: int, r: int)
    requires d > 0 && n == q * d + r && 0 <= r < d
    ensures n / d == q && n % d == r
  {
    var q0, r0 := n / d, n % d;
    assert (q - q0) * d == r0 - r;
    if q - q0 >= 1 {
      MulLeft(1, q - q0, d);
    } else if q0 - q >= 1 {
      MulLeft(1, q0 - q, d);
    }
  }
}
