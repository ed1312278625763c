/** Day 1: distance between two sorted location lists, and a frequency-weighted similarity. */
module Day01 {
  import opened Common

  /** Size of the appearance-count table of part 2. */
  const Slots: nat := 100000

  predicate Sorted(s: seq<int>)
  {
    forall i, j :: 0 <= i < j < |s| ==> s[i] <= s[j]
  }

  function Lefts(pairs: seq<(int, int)>): (r: seq<int>)
    ensures |r| == |pairs|
  {
    if pairs == [] then [] else [pairs[0].0] + Lefts(pairs[1..])
  }

  function Rights(pairs: seq<(int, int)>): (r: seq<int>)
    ensures |r| == |pairs|
  {
    if pairs == [] then [] else [pairs[0].1] + Rights(pairs[1..])
  }

  /** Inserts `x` into a sorted list, keeping it sorted. */
  function Insert(x: int, s: seq<int>): (r: seq<int>)
    requires Sorted(s)
    ensures Sorted(r)
    ensures multiset(r) == multiset(s) + multiset{x}
  {
    if s == [] then [x]
    else if x <= s[0] then [x] + s
    else
      var t := Insert(x, s[1..]);
      assert s == [s[0]] + s[1..];
      HeadBelow(s[0], t, s[1..], x);
      [s[0]] + t
  }

  /** A value below all of `rest` and below `x` is below every element of a rearrangement of both. */
  lemma HeadBelow(h: int, t: seq<int>, rest: seq<int>, x: int)
    requires h <= x && forall k :: 0 <= k < |rest| ==> h <= rest[k]
    requires multiset(t) == multiset(rest) + multiset{x}
    ensures forall k :: 0 <= k < |t| ==> h <= t[k]
  {
    forall k | 0 <= k < |t|
      ensures h <= t[k]
    {
      assert t[k] in multiset(t);
      if t[k] != x {
        assert t[k] in multiset(rest);
      }
    }
  }

  /** The ascending sort that the source delegates to `sort_unstable`. */
  function SortAscending(s: seq<int>): (r: seq<int>)
    ensures Sorted(r)
    ensures multiset(r) == multiset(s)
  {
    if s == [] then []
    else
      assert s == [s[0]] + s[1..];
      Insert(s[0], SortAscending(s[1..]))
  }

  /** Two sorted lists holding the same multiset of values are equal. */
  lemma {:induction false} SortedUnique(a: seq<int>, b: seq<int>)
    requires Sorted(a) && Sorted(b)
    requires multiset(a) == multiset(b)
    ensures a == b
  {
    assert |a| == |multiset(a)| == |multiset(b)| == |b|;
    if a != [] {
      assert a == [a[0]] + a[1..];
      assert b == [b[0]] + b[1..];
      assert a[0] in multiset(b);
      assert b[0] in multiset(a);
      assert a[0] >= b[0];
      assert b[0] >= a[0];
      assert multiset(a[1..]) == multiset(a) - multiset{a[0]};
      assert multiset(b[1..]) == multiset(b) - multiset{b[0]};
      SortedUnique(a[1..], b[1..]);
    }
  }

  /** Sum of |a_i - b_i| over the pairs of a zip (the shorter list decides the length). */
  function PairwiseDistance(a: seq<int>, b: seq<int>): nat
  {
    if a == [] || b == [] then 0 else Abs(a[0] - b[0]) + PairwiseDistance(a[1..], b[1..])
  }

  /** Part 1: pair the i-th smallest left value with the i-th smallest right value. */
  function TotalDistance(pairs: seq<(int, int)>): nat
  {
    PairwiseDistance(SortAscending(Lefts(pairs)), SortAscending(Rights(pairs)))
  }

  /** The answer of part 1 depends only on the values in each column, not on their order. */
  lemma TotalDistanceColumnOrder(p: seq<(int, int)>, q: seq<(int, int)>)
    requires multiset(Lefts(p)) == multiset(Lefts(q))
    requires multiset(Rights(p)) == multiset(Rights(q))
    ensures TotalDistance(p) == TotalDistance(q)
  {
    SortedUnique(SortAscending(Lefts(p)), SortAscending(Lefts(q)));
    SortedUnique(SortAscending(Rights(p)), SortAscending(Rights(q)));
  }

  lemma {:induction false} LeftsRightsAppend(p: seq<(int, int)>, q: seq<(int, int)>)
    ensures Lefts(p + q) == Lefts(p) + Lefts(q)
    ensures Rights(p + q) == Rights(p) + Rights(q)
  {
    if p == [] {
      assert p + q == q;
    } else {
      assert (p + q)[1..] == p[1..] + q;
      LeftsRightsAppend(p[1..], q);
    }
  }

  lemma {:induction false} ColumnsAt(pairs: seq<(int, int)>, k: nat)
    requires k < |pairs|
    ensures Lefts(pairs)[k] == pairs[k].0 && Rights(pairs)[k] == pairs[k].1
  {
    if k > 0 {
      ColumnsAt(pairs[1..], k - 1);
    }
  }

  /** Permuting the input lines permutes each column. */
  lemma {:induction false} ColumnsOfPermutation(p: seq<(int, int)>, q: seq<(int, int)>)
    requires multiset(p) == multiset(q)
    ensures multiset(Lefts(p)) == multiset(Lefts(q))
    ensures multiset(Rights(p)) == multiset(Rights(q))
    decreases |p|
  {
    if p == [] {
      assert |q| == |multiset(q)| == 0;
    } else {
      var k := PermutationRemoveHead(p, q);
      var x, r := p[0], q[..k] + q[k + 1..];
      ColumnsOfPermutation(p[1..], r);
      ColumnsRemove(q, k);
      ColumnsHead(p);
    }
  }

  lemma ColumnsRemove(q: seq<(int, int)>, k: nat)
    requires k < |q|
    ensures multiset(Lefts(q)) == multiset(Lefts(q[..k] + q[k + 1..])) + multiset{q[k].0}
    ensures multiset(Rights(q)) == multiset(Rights(q[..k] + q[k + 1..])) + multiset{q[k].1}
  {
    SplitAt(q, k);
    ColumnsSplit(q[..k], q[k], q[k + 1..]);
  }

  lemma ColumnsHead(p: seq<(int, int)>)
    requires p != []
    ensures multiset(Lefts(p)) == multiset(Lefts(p[1..])) + multiset{p[0].0}
    ensures multiset(Rights(p)) == multiset(Rights(p[1..])) + multiset{p[0].1}
  {
    assert Lefts(p) == [p[0].0] + Lefts(p[1..]);
    assert Rights(p) == [p[0].1] + Rights(p[1..]);
  }

  /** Finds p's head in q and removes it from both sides of the permutation. */
  lemma PermutationRemoveHead<T>(p: seq<T>, q: seq<T>) returns (k: nat)
    requires p != [] && multiset(p) == multiset(q)
    ensures k < |q| && q[k] == p[0]
    ensures multiset(p[1..]) == multiset(q[..k] + q[k + 1..])
  {
    SplitAt(p, 0);
    assert p[0] in multiset(q);
    k :| 0 <= k < |q| && q[k] == p[0];
    SplitAt(q, k);
    assert p[..0] + p[1..] == p[1..];
    calc {
      multiset(p[1..]);
      multiset(p) - multiset{p[0]};
      multiset(q) - multiset{q[k]};
      multiset(q[..k] + q[k + 1..]);
    }
  }

  lemma SplitAt<T>(q: seq<T>, k: nat)
    requires k < |q|
    ensures q == q[..k] + [q[k]] + q[k + 1..]
    ensures multiset(q) == multiset(q[..k] + q[k + 1..]) + multiset{q[k]}
  {
    assert q == q[..k] + [q[k]] + q[k + 1..];
  }

  lemma ColumnsSplit(a: seq<(int, int)>, x: (int, int), b: seq<(int, int)>)
    ensures multiset(Lefts(a + [x] + b)) == multiset(Lefts(a + b)) + multiset{x.0}
    ensures multiset(Rights(a + [x] + b)) == multiset(Rights(a + b)) + multiset{x.1}
  {
    LeftsRightsAppend(a, b);
    LeftsRightsAppend(a + [x], b);
    LeftsRightsAppend(a, [x]);
    assert Lefts([x]) == [x.0];
    assert Rights([x]) == [x.1];
  }

  /** Reordering the input lines never changes the answer of part 1. */
  lemma LineOrderIrrelevant(p: seq<(int, int)>, q: seq<(int, int)>)
    requires multiset(p) == multiset(q)
    ensures TotalDistance(p) == TotalDistance(q)
  {
    ColumnsOfPermutation(p, q);
    TotalDistanceColumnOrder(p, q);
  }

  /** Part 2's value: each left entry weighted by how often it appears on the right. */
  function Similarity(lefts: seq<int>, rights: seq<int>): int
  {
    if lefts == [] then 0 else lefts[0] * Count(rights, lefts[0]) + Similarity(lefts[1..], rights)
  }

  lemma {:induction false} SimilarityConsRight(lefts: seq<int>, x: int, rights: seq<int>)
    ensures Similarity(lefts, [x] + rights) == x * Count(lefts, x) + Similarity(lefts, rights)
  {
    if lefts != [] {
      var l := lefts[0];
      SimilarityConsRight(lefts[1..], x, rights);
      assert ([x] + rights)[1..] == rights;
      var c := Count(rights, l);
      var d := if l == x then 1 else 0;
      assert Count([x] + rights, l) == d + c;
      assert l * (d + c) == l * d + l * c;
      assert l * d == x * (if x == l then 1 else 0);
    }
  }

  lemma {:induction false} SimilarityEmptyRight(lefts: seq<int>)
    ensures Similarity(lefts, []) == 0
  {
    if lefts != [] {
      SimilarityEmptyRight(lefts[1..]);
    }
  }

  /** The similarity score is symmetric in its two columns. */
  lemma {:induction false} SimilaritySymmetric(lefts: seq<int>, rights: seq<int>)
    ensures Similarity(lefts, rights) == Similarity(rights, lefts)
  {
    if lefts == [] {
      SimilarityEmptyRight(rights);
    } else {
      SimilaritySymmetric(lefts[1..], rights);
      assert lefts == [lefts[0]] + lefts[1..];
      SimilarityConsRight(rights, lefts[0], lefts[1..]);
    }
  }

  /**
   * Part 2: fill a table of 100000 appearance counters from the right column,
   * then sum each left value weighted by its counter.
   */
  method SimilarityScore(pairs: seq<(int, int)>) returns (score: int)
    requires forall k :: 0 <= k < |pairs| ==> 0 <= pairs[k].0 < Slots && 0 <= pairs[k].1 < Slots
    ensures score == Similarity(Lefts(pairs), Rights(pairs))
  {
    var rights := Rights(pairs);
    var lefts := Lefts(pairs);
    forall k | 0 <= k < |pairs|
      ensures 0 <= lefts[k] < Slots && 0 <= rights[k] < Slots
    {
      ColumnsAt(pairs, k);
    }
    var appearances := new nat[Slots](_ => 0);
    for k := 0 to |pairs|
      invariant forall v :: 0 <= v < Slots ==> appearances[v] == Count(rights[..k], v)
    {
      forall v | 0 <= v < Slots
        ensures Count(rights[..k + 1], v) == Count(rights[..k], v) + (if rights[k] == v then 1 else 0)
      {
        assert rights[..k + 1] == rights[..k] + [rights[k]];
        CountAppend(rights[..k], [rights[k]], v);
      }
      appearances[rights[k]] := appearances[rights[k]] + 1;
    }
    assert rights[..|pairs|] == rights;
    score := 0;
    var k := |pairs|;
    while k > 0
      invariant 0 <= k <= |pairs|
      invariant score == Similarity(lefts[k..], rights)
    {
      k := k - 1;
      assert lefts[k..][1..] == lefts[k + 1..];
      score := score + lefts[k] * appearances[lefts[k]];
    }
  }

  lemma ExamplePart1()
    ensures TotalDistance([(3, 4), (4, 3), (2, 5), (1, 3), (3, 9), (3, 3)]) == 11
  {
    ExampleColumns();
    ExampleSorted();
    SortedIs([3, 4, 2, 1, 3, 3], [1, 2, 3, 3, 3, 4]);
    SortedIs([4, 3, 5, 3, 9, 3], [3, 3, 3, 4, 5, 9]);
    ExampleDistance();
  }

  lemma ExampleColumns()
    ensures Lefts([(3, 4), (4, 3), (2, 5), (1, 3), (3, 9), (3, 3)]) == [3, 4, 2, 1, 3, 3]
    ensures Rights([(3, 4), (4, 3), (2, 5), (1, 3), (3, 9), (3, 3)]) == [4, 3, 5, 3, 9, 3]
  {
  }

  lemma ExampleSorted()
    ensures Sorted([1, 2, 3, 3, 3, 4]) && Sorted([3, 3, 3, 4, 5, 9])
    ensures multiset([3, 4, 2, 1, 3, 3]) == multiset([1, 2, 3, 3, 3, 4])
    ensures multiset([4, 3, 5, 3, 9, 3]) == multiset([3, 3, 3, 4, 5, 9])
  {
    ExampleSortedLeft();
    ExampleSortedRight();
    ExamplePermutationLeft();
    ExamplePermutationRight();
  }

  lemma ExampleSortedLeft() ensures Sorted([1, 2, 3, 3, 3, 4]) {}
  lemma ExampleSortedRight() ensures Sorted([3, 3, 3, 4, 5, 9]) {}
  lemma ExamplePermutationLeft() ensures multiset([3, 4, 2, 1, 3, 3]) == multiset([1, 2, 3, 3, 3, 4]) {}
  lemma ExamplePermutationRight() ensures multiset([4, 3, 5, 3, 9, 3]) == multiset([3, 3, 3, 4, 5, 9]) {}

  lemma ExampleDistance()
    ensures PairwiseDistance([1, 2, 3, 3, 3, 4], [3, 3, 3, 4, 5, 9]) == 11
  {
  }

  lemma SortedIs(s: seq<int>, t: seq<int>)
    requires Sorted(t) && multiset(s) == multiset(t)
    ensures SortAscending(s) == t
  {
    SortedUnique(SortAscending(s), t);
  }

  lemma ExamplePart2()
    ensures Similarity([3, 4, 2, 1, 3, 3], [4, 3, 5, 3, 9, 3]) == 31
  {
    var rights := [4, 3, 5, 3, 9, 3];
    assert Count(rights, 3) == 3 && Count(rights, 4) == 1;
    assert Count(rights, 2) == 0 && Count(rights, 1) == 0;
  }
}
