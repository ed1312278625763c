/** Day 5: page-ordering rules, update validation, and reordering with Kahn's algorithm. */
module Day05 {
  import opened Common

  /** Page numbers are `u8`. */
  type Page = x: nat | x < 256

  /** A rule `a|b`: page `a` must be printed before page `b`. */
  type Rule = (Page, Page)

  // ---------------------------------------------------------------- build_faster_rules

  /** The pages that some rule `a|p` puts before `p`, in rule order. */
  function Befores(rules: seq<Rule>, p: Page): seq<Page>
  {
    if rules == [] then []
    else
      var last := rules[|rules| - 1];
      Befores(rules[..|rules| - 1], p) + (if last.1 == p then [last.0] else [])
  }

  lemma {:induction false} BeforesMeaning(rules: seq<Rule>, a: Page, b: Page)
    ensures a in Befores(rules, b) <==> (a, b) in rules
  {
    if rules != [] {
      var init := rules[..|rules| - 1];
      BeforesMeaning(init, a, b);
      assert rules == init + [rules[|rules| - 1]];
    }
  }

  /** `build_faster_rules`: for every page, the list of pages the rules put before it. */
  method BuildFasterRules(rules: seq<Rule>) returns (faster: seq<seq<Page>>)
    ensures |faster| == 256
    ensures forall p: Page :: faster[p] == Befores(rules, p)
  {
    faster := seq(256, _ => []);
    for k := 0 to |rules|
      invariant |faster| == 256
      invariant forall p: Page :: faster[p] == Befores(rules[..k], p)
    {
      var (a, b) := rules[k];
      assert rules[..k + 1][..k] == rules[..k];
      faster := faster[b := faster[b] + [a]];
    }
    assert rules[..|rules|] == rules;
  }

  // ---------------------------------------------------------------- is_valid_update

  /** After the first `i` pages are printed, `x` is still to print: it occurs in the update but not among them. */
  predicate StillToPrint(update: seq<Page>, i: nat, x: Page)
    requires i <= |update|
  {
    x in update && x !in update[..i]
  }

  /** No page of the update has, among its required predecessors, a page still to print. */
  predicate ValidUpdate(update: seq<Page>, faster: seq<seq<Page>>)
    requires |faster| == 256
  {
    forall i, x :: 0 <= i < |update| && x in faster[update[i]] ==> !StillToPrint(update, i, x)
  }

  /** `Vec::retain(|p| p != page)`. */
  function Retain(s: seq<Page>, page: Page): (r: seq<Page>)
    ensures forall x :: x in r <==> x in s && x != page
  {
    if s == [] then []
    else (if s[0] == page then [] else [s[0]]) + Retain(s[1..], page)
  }

  /** `is_valid_update`. */
  method IsValidUpdate(update: seq<Page>, faster: seq<seq<Page>>) returns (valid: bool)
    requires |faster| == 256
    ensures valid == ValidUpdate(update, faster)
  {
    var pagesToPrint := update;
    for i := 0 to |update|
      invariant forall x :: x in pagesToPrint <==> StillToPrint(update, i, x)
      invariant forall i', x :: 0 <= i' < i && x in faster[update[i']] ==> !StillToPrint(update, i', x)
    {
      var page := update[i];
      var rules := faster[page];
      for k := 0 to |rules|
        invariant forall k' :: 0 <= k' < k ==> rules[k'] !in pagesToPrint
      {
        if rules[k] in pagesToPrint {
          assert rules[k] in faster[update[i]] && StillToPrint(update, i, rules[k]);
          return false;
        }
      }
      pagesToPrint := Retain(pagesToPrint, page);
      assert update[..i + 1] == update[..i] + [page];
    }
    return true;
  }

  /** The lists `build_faster_rules` produces, as one value. */
  function FasterRules(rules: seq<Rule>): (faster: seq<seq<Page>>)
    ensures |faster| == 256
  {
    seq(256, p requires 0 <= p < 256 => Befores(rules, p))
  }

  /**
   * For an update without repeated pages: it is valid exactly when no rule asks a page to come
   * before one that it follows (or before itself).
   */
  lemma ValidUpdateMeaning(update: seq<Page>, rules: seq<Rule>)
    requires Distinct(update)
    ensures ValidUpdate(update, FasterRules(rules)) <==>
      forall i, j :: 0 <= i <= j < |update| ==> (update[j], update[i]) !in rules
  {
    var faster := FasterRules(rules);
    if ValidUpdate(update, faster) {
      forall i, j | 0 <= i <= j < |update|
        ensures (update[j], update[i]) !in rules
      {
        if (update[j], update[i]) in rules {
          BeforesMeaning(rules, update[j], update[i]);
          assert update[j] !in update[..i];
          assert StillToPrint(update, i, update[j]);
        }
      }
    }
    if !ValidUpdate(update, faster) {
      var i, x :| 0 <= i < |update| && x in faster[update[i]] && StillToPrint(update, i, x);
      var j :| 0 <= j < |update| && update[j] == x;
      BeforesMeaning(rules, x, update[i]);
      assert (update[j], update[i]) in rules;
    }
  }

  // ---------------------------------------------------------------- kahn_algorithm

  /** A rule takes part in sorting an update only when both of its pages occur in it. */
  predicate UsedRule(r: Rule, numbers: seq<Page>)
  {
    r.0 in numbers && r.1 in numbers
  }

  /** `order` lists the update's pages, each once, with `a` before `b` for every rule `a|b`. */
  predicate TopologicalOrder(order: seq<Page>, numbers: seq<Page>, rules: seq<Rule>)
  {
    && multiset(order) == multiset(numbers)
    && forall i, j :: 0 <= i < |order| && 0 <= j < |order| && (order[i], order[j]) in rules ==> i < j
  }

  /** `graph[a]`: the targets of the used rules leaving `a`, in rule order. */
  function Successors(rules: seq<Rule>, numbers: seq<Page>, a: Page): seq<Page>
  {
    if rules == [] then []
    else
      var last := rules[|rules| - 1];
      Successors(rules[..|rules| - 1], numbers, a) + (if last.0 == a && UsedRule(last, numbers) then [last.1] else [])
  }

  /** The used rules into `v` whose source is not yet in `done`: what `in_degree[v]` counts. */
  function Pending(rules: seq<Rule>, numbers: seq<Page>, done: set<Page>, v: Page): nat
  {
    if rules == [] then 0
    else
      var last := rules[|rules| - 1];
      Pending(rules[..|rules| - 1], numbers, done, v)
        + (if last.1 == v && UsedRule(last, numbers) && last.0 !in done then 1 else 0)
  }

  lemma {:induction false} SuccessorsUsed(rules: seq<Rule>, numbers: seq<Page>, a: Page, x: Page)
    requires x in Successors(rules, numbers, a)
    ensures x in numbers
  {
    var init := rules[..|rules| - 1];
    if x in Successors(init, numbers, a) {
      SuccessorsUsed(init, numbers, a, x);
    }
  }

  /** Moving `c` into `done` releases exactly the rules leaving `c`. */
  lemma {:induction false} PendingRelease(rules: seq<Rule>, numbers: seq<Page>, done: set<Page>, c: Page, v: Page)
    requires c !in done
    ensures Pending(rules, numbers, done + {c}, v) + Count(Successors(rules, numbers, c), v)
      == Pending(rules, numbers, done, v)
  {
    if rules != [] {
      var init := rules[..|rules| - 1];
      var last := rules[|rules| - 1];
      PendingRelease(init, numbers, done, c, v);
      CountAppend(Successors(init, numbers, c), if last.0 == c && UsedRule(last, numbers) then [last.1] else [], v);
    }
  }

  /** With nothing pending into `v`, every used rule into `v` starts in `done`. */
  lemma {:induction false} PendingZero(rules: seq<Rule>, numbers: seq<Page>, done: set<Page>, v: Page, a: Page)
    requires Pending(rules, numbers, done, v) == 0
    requires (a, v) in rules && UsedRule((a, v), numbers)
    ensures a in done
  {
    var init := rules[..|rules| - 1];
    if rules[|rules| - 1] != (a, v) {
      assert rules == init + [rules[|rules| - 1]];
      PendingZero(init, numbers, done, v, a);
    }
  }

  /** Something pending into `v` is a used rule from a page outside `done`. */
  lemma {:induction false} PendingPositive(rules: seq<Rule>, numbers: seq<Page>, done: set<Page>, v: Page)
    returns (a: Page)
    requires Pending(rules, numbers, done, v) > 0
    ensures (a, v) in rules && UsedRule((a, v), numbers) && a !in done
  {
    var init := rules[..|rules| - 1];
    var last := rules[|rules| - 1];
    assert rules == init + [last];
    if last.1 == v && UsedRule(last, numbers) && last.0 !in done {
      a := last.0;
    } else {
      a := PendingPositive(init, numbers, done, v);
    }
  }

  /** The loop building `number_presence`. */
  method MarkPresence(numbers: seq<Page>) returns (presence: seq<bool>)
    ensures |presence| == 256
    ensures forall p: Page :: presence[p] == (p in numbers)
  {
    presence := seq(256, _ => false);
    for k := 0 to |numbers|
      invariant |presence| == 256
      invariant forall p: Page :: presence[p] == (p in numbers[..k])
    {
      assert numbers[..k + 1] == numbers[..k] + [numbers[k]];
      presence := presence[numbers[k] := true];
    }
    assert numbers[..|numbers|] == numbers;
  }

  /** The loop over the rules building `graph` and `in_degree`. */
  method BuildGraph(numbers: seq<Page>, rules: seq<Rule>, presence: seq<bool>)
    returns (graph: seq<seq<Page>>, inDegree: seq<nat>)
    requires |presence| == 256 && forall p: Page :: presence[p] == (p in numbers)
    ensures |graph| == 256 && |inDegree| == 256
    ensures forall p: Page :: graph[p] == Successors(rules, numbers, p)
    ensures forall p: Page :: inDegree[p] == Pending(rules, numbers, {}, p)
  {
    graph := seq(256, _ => []);
    inDegree := seq(256, _ => 0);
    for k := 0 to |rules|
      invariant |graph| == 256 && |inDegree| == 256
      invariant forall p: Page :: graph[p] == Successors(rules[..k], numbers, p)
      invariant forall p: Page :: inDegree[p] == Pending(rules[..k], numbers, {}, p)
    {
      var (a, b) := rules[k];
      assert rules[..k + 1][..k] == rules[..k];
      if presence[a] && presence[b] {
        graph := graph[a := graph[a] + [b]];
        inDegree := inDegree[b := inDegree[b] + 1];
      }
    }
    assert rules[..|rules|] == rules;
  }

  /** The initial queue: the update's pages with no pending rule, in update order. */
  function ZeroInDegree(numbers: seq<Page>, inDegree: seq<nat>): (q: seq<Page>)
    requires |inDegree| == 256
    ensures forall x :: x in q <==> x in numbers && inDegree[x] == 0
    ensures Distinct(numbers) ==> Distinct(q)
  {
    if numbers == [] then []
    else
      var rest := ZeroInDegree(numbers[1..], inDegree);
      assert Distinct(numbers) ==> numbers[0] !in numbers[1..];
      if inDegree[numbers[0]] == 0 then [numbers[0]] + rest else rest
  }

  /** Appending the popped page keeps every used rule pointing forward. */
  lemma OrderExtends(sorted: seq<Page>, c: Page, rules: seq<Rule>, numbers: seq<Page>, done: set<Page>)
    requires forall x :: x in done <==> x in sorted
    requires c !in sorted && c in numbers
    requires Pending(rules, numbers, done, c) == 0
    requires forall x :: x in sorted ==> x in numbers && Pending(rules, numbers, done, x) == 0
    requires forall i, j :: 0 <= i < |sorted| && 0 <= j < |sorted| && (sorted[i], sorted[j]) in rules ==> i < j
    ensures forall i, j :: 0 <= i < |sorted| + 1 && 0 <= j < |sorted| + 1 && ((sorted + [c])[i], (sorted + [c])[j]) in rules ==> i < j
  {
    var s := sorted + [c];
    forall i, j | 0 <= i < |s| && 0 <= j < |s| && (s[i], s[j]) in rules
      ensures i < j
    {
      if j < |sorted| {
        if i == |sorted| {
          PendingZero(rules, numbers, done, s[j], c);
        }
      } else if i == |sorted| {
        PendingZero(rules, numbers, done, c, c);
      }
    }
  }

  /** When every remaining page waits on another remaining page, a topological order rules that out: none remain. */
  lemma {:induction false} NoneRemain(order: seq<Page>, numbers: seq<Page>, rules: seq<Rule>, done: set<Page>, i: nat)
    requires TopologicalOrder(order, numbers, rules)
    requires forall x :: x in numbers && x !in done ==> exists a :: (a, x) in rules && a in numbers && a !in done
    requires i < |order|
    ensures order[i] in done
    decreases i
  {
    var x := order[i];
    assert x in multiset(numbers);
    if x !in done {
      var a :| (a, x) in rules && a in numbers && a !in done;
      assert a in multiset(order);
      var i' :| 0 <= i' < |order| && order[i'] == a;
      NoneRemain(order, numbers, rules, done, i');
    }
  }

  /** `kahn_algorithm`: the queue loop, the cycle check and the rank table. */
  method KahnAlgorithm(numbers: seq<Page>, rules: seq<Rule>, ghost order: seq<Page>)
    returns (sorted: seq<Page>, table: seq<Page>)
    requires Distinct(numbers)
    requires TopologicalOrder(order, numbers, rules)
    ensures TopologicalOrder(sorted, numbers, rules)
    ensures |table| == 256 && forall i :: 0 <= i < |sorted| ==> table[sorted[i]] == i
  {
    var presence := MarkPresence(numbers);
    var graph, inDegree := BuildGraph(numbers, rules, presence);
    var queue := ZeroInDegree(numbers, inDegree);
    sorted := [];
    ghost var done: set<Page> := {};
    while queue != []
      invariant |inDegree| == 256
      invariant forall x :: x in done <==> x in sorted
      invariant Distinct(sorted + queue)
      invariant forall x :: x in sorted + queue ==> x in numbers && inDegree[x] == 0
      invariant forall x :: x in numbers && x !in sorted && x !in queue ==> inDegree[x] > 0
      invariant forall p: Page :: inDegree[p] == Pending(rules, numbers, done, p)
      invariant forall i, j :: 0 <= i < |sorted| && 0 <= j < |sorted| && (sorted[i], sorted[j]) in rules ==> i < j
      decreases |numbers| - |sorted|
    {
      DistinctIncludedLength(sorted + queue, numbers);
      var current := queue[0];
      assert (sorted + queue)[|sorted|] == current;
      assert current !in sorted by {
        forall k | 0 <= k < |sorted|
          ensures sorted[k] != current
        {
          assert (sorted + queue)[k] == sorted[k];
        }
      }
      OrderExtends(sorted, current, rules, numbers, done);
      assert sorted + queue == (sorted + [current]) + queue[1..];
      sorted := sorted + [current];
      queue := queue[1..];
      ghost var before := done;
      done := done + {current};
      var succ := graph[current];
      forall p: Page
        ensures Pending(rules, numbers, done, p) + Count(succ, p) == Pending(rules, numbers, before, p)
      {
        PendingRelease(rules, numbers, before, current, p);
      }
      forall x | x in succ
        ensures x in numbers
      {
        SuccessorsUsed(rules, numbers, current, x);
      }
      inDegree, queue := ReleaseSuccessors(succ, inDegree, queue, sorted, numbers);
    }
    forall x | x in numbers && x !in done
      ensures exists a :: (a, x) in rules && a in numbers && a !in done
    {
      var a := PendingPositive(rules, numbers, done, x);
    }
    forall x | x in numbers
      ensures x in sorted
    {
      assert x in multiset(order);
      var i :| 0 <= i < |order| && order[i] == x;
      NoneRemain(order, numbers, rules, done, i);
    }
    assert sorted + queue == sorted;
    DistinctSameElements(sorted, numbers);
    table := RankTable(sorted);
  }

  /**
   * The loop over `graph[current]`: each successor loses one pending rule, and joins the back of
   * the queue when it has none left.
   */
  method ReleaseSuccessors(succ: seq<Page>, inDegree0: seq<nat>, queue0: seq<Page>,
                           ghost sorted: seq<Page>, ghost numbers: seq<Page>)
    returns (inDegree: seq<nat>, queue: seq<Page>)
    requires |inDegree0| == 256
    requires forall x :: x in succ ==> x in numbers
    requires forall p: Page :: Count(succ, p) <= inDegree0[p]
    requires Distinct(sorted + queue0)
    requires forall x :: x in sorted + queue0 ==> x in numbers && inDegree0[x] == 0
    requires forall x :: x in numbers && x !in sorted && x !in queue0 ==> inDegree0[x] > 0
    ensures |inDegree| == 256
    ensures forall p: Page :: inDegree[p] + Count(succ, p) == inDegree0[p]
    ensures Distinct(sorted + queue)
    ensures forall x :: x in sorted + queue ==> x in numbers && inDegree[x] == 0
    ensures forall x :: x in numbers && x !in sorted && x !in queue ==> inDegree[x] > 0
  {
    inDegree, queue := inDegree0, queue0;
    for j := 0 to |succ|
      invariant |inDegree| == 256
      invariant Distinct(sorted + queue)
      invariant forall x :: x in sorted + queue ==> x in numbers && inDegree[x] == 0
      invariant forall x :: x in numbers && x !in sorted && x !in queue ==> inDegree[x] > 0
      invariant forall p: Page :: inDegree[p] + Count(succ[..j], p) == inDegree0[p]
    {
      var next := succ[j];
      assert succ[..j + 1] == succ[..j] + [next];
      assert succ == succ[..j + 1] + succ[j + 1..];
      forall p: Page
        ensures Count(succ[..j + 1], p) == Count(succ[..j], p) + (if p == next then 1 else 0)
      {
        CountAppend(succ[..j], [next], p);
      }
      CountAppend(succ[..j + 1], succ[j + 1..], next);
      inDegree := inDegree[next := inDegree[next] - 1];
      if inDegree[next] == 0 {
        queue := queue + [next];
        assert sorted + queue == (sorted + queue[..|queue| - 1]) + [next];
      }
    }
    assert succ[..|succ|] == succ;
  }

  /** The page numbers below `n`, in increasing order. */
  function PagesBelow(n: nat): (ps: seq<Page>)
    requires n <= 256
    ensures |ps| == n && forall p: Page :: p < n ==> p in ps
  {
    if n == 0 then [] else PagesBelow(n - 1) + [n - 1]
  }

  /** The loop filling `sort_lookup_table` with each page's position in the order (a `u8`: there are at most 256 pages). */
  method RankTable(sorted: seq<Page>) returns (table: seq<Page>)
    requires Distinct(sorted)
    ensures |table| == 256 && forall i :: 0 <= i < |sorted| ==> table[sorted[i]] == i
  {
    DistinctIncludedLength(sorted, PagesBelow(256));
    table := seq(256, _ => 0);
    for i := 0 to |sorted|
      invariant |table| == 256 && forall i' :: 0 <= i' < i ==> table[sorted[i']] == i'
    {
      table := table[sorted[i] := i];
    }
  }

  // ---------------------------------------------------------------- sort_with_lookup_table

  /** `temp.iter().flatten()`: the present entries, in slot order. */
  function Flatten(slots: seq<Option<Page>>): seq<Page>
  {
    if slots == [] then []
    else
      var last := slots[|slots| - 1];
      Flatten(slots[..|slots| - 1]) + (if last.Some? then [last.value] else [])
  }

  /** Slot `r` holds only a page of rank `r`. */
  predicate RankedSlots(slots: seq<Option<Page>>, table: seq<Page>)
    requires |table| == 256
  {
    forall r :: 0 <= r < |slots| && slots[r].Some? ==> table[slots[r].value] == r
  }

  /** Flattening ranked slots gives pages of strictly increasing rank, below the number of slots. */
  lemma {:induction false} FlattenRanked(slots: seq<Option<Page>>, table: seq<Page>)
    requires |table| == 256 && RankedSlots(slots, table)
    ensures forall x :: x in Flatten(slots) <==> Some(x) in slots
    ensures forall i :: 0 <= i < |Flatten(slots)| ==> table[Flatten(slots)[i]] < |slots|
    ensures forall i, j :: 0 <= i < j < |Flatten(slots)| ==> table[Flatten(slots)[i]] < table[Flatten(slots)[j]]
  {
    if slots != [] {
      var init := slots[..|slots| - 1];
      assert slots == init + [slots[|slots| - 1]];
      FlattenRanked(init, table);
    }
  }

  /** The ranks of the pages of `data` are pairwise different. */
  predicate DistinctRanks(data: seq<Page>, table: seq<Page>)
    requires |table| == 256
  {
    forall i, j :: 0 <= i < j < |data| ==> table[data[i]] != table[data[j]]
  }

  /**
   * `sort_with_lookup_table`: the counting-sort pass. The output is in strictly increasing rank and
   * holds only pages of the input; when the ranks of the input pages differ, it is a permutation of the input.
   */
  method SortWithLookupTable(data: seq<Page>, table: seq<Page>) returns (output: seq<Page>)
    requires |table| == 256
    ensures forall i, j :: 0 <= i < j < |output| ==> table[output[i]] < table[output[j]]
    ensures forall x :: x in output ==> x in data
    ensures DistinctRanks(data, table) ==> multiset(output) == multiset(data)
  {
    var temp := new Option<Page>[256](_ => None);
    for k := 0 to |data|
      invariant forall r :: 0 <= r < 256 && temp[r].Some? ==> temp[r].value in data[..k] && table[temp[r].value] == r
      invariant DistinctRanks(data, table) ==> forall k' :: 0 <= k' < k ==> temp[table[data[k']]] == Some(data[k'])
    {
      temp[table[data[k]]] := Some(data[k]);
    }
    output := [];
    for r := 0 to 256
      invariant output == Flatten(temp[..r])
    {
      assert temp[..r + 1] == temp[..r] + [temp[r]];
      if temp[r].Some? {
        output := output + [temp[r].value];
      }
    }
    assert temp[..256] == temp[..];
    FlattenRanked(temp[..], table);
    if DistinctRanks(data, table) {
      assert Distinct(data);
      forall x
        ensures x in output <==> x in data
      {
        if x in data {
          var k :| 0 <= k < |data| && data[k] == x;
          assert temp[..][table[x]] == Some(x);
        }
      }
      DistinctSameElements(output, data);
    }
  }

  /** A strictly increasing run of `n` values in `0..n` is `0, 1, ..., n - 1`. */
  lemma {:induction false} StrictRunIsIdentity(r: seq<int>, i: nat)
    requires forall k :: 0 <= k < |r| ==> 0 <= r[k] < |r|
    requires forall k, l :: 0 <= k < l < |r| ==> r[k] < r[l]
    requires i < |r|
    ensures r[i] == i
  {
    LowerBound(r, i);
    UpperBound(r, i);
  }

  lemma {:induction false} LowerBound(r: seq<int>, i: nat)
    requires forall k :: 0 <= k < |r| ==> 0 <= r[k]
    requires forall k, l :: 0 <= k < l < |r| ==> r[k] < r[l]
    requires i < |r|
    ensures r[i] >= i
  {
    if i > 0 {
      LowerBound(r, i - 1);
    }
  }

  lemma {:induction false} UpperBound(r: seq<int>, i: nat)
    requires forall k :: 0 <= k < |r| ==> r[k] < |r|
    requires forall k, l :: 0 <= k < l < |r| ==> r[k] < r[l]
    requires i < |r|
    ensures r[i] <= i
    decreases |r| - i
  {
    if i < |r| - 1 {
      UpperBound(r, i + 1);
    }
  }

  /**
   * Sorting the update by the rank table of a Kahn order gives back exactly that order: part 2
   * reads the middle page of Kahn's order.
   */
  lemma SortedByRankIsOrder(output: seq<Page>, sorted: seq<Page>, table: seq<Page>)
    requires |table| == 256 && Distinct(sorted)
    requires forall i :: 0 <= i < |sorted| ==> table[sorted[i]] == i
    requires multiset(output) == multiset(sorted)
    requires forall i, j :: 0 <= i < j < |output| ==> table[output[i]] < table[output[j]]
    ensures output == sorted
  {
    var n := |sorted|;
    assert |output| == |multiset(output)| == n;
    RanksOfPermutation(output, sorted, table);
    var r := seq(n, i requires 0 <= i < n => table[output[i]] as int);
    forall i | 0 <= i < n
      ensures output[i] == sorted[i]
    {
      StrictRunIsIdentity(r, i);
    }
  }

  lemma RanksOfPermutation(output: seq<Page>, sorted: seq<Page>, table: seq<Page>)
    requires |table| == 256
    requires forall i :: 0 <= i < |sorted| ==> table[sorted[i]] == i
    requires multiset(output) == multiset(sorted)
    ensures forall k :: 0 <= k < |output| ==> table[output[k]] < |sorted| && sorted[table[output[k]]] == output[k]
  {
    forall k | 0 <= k < |output|
      ensures table[output[k]] < |sorted| && sorted[table[output[k]]] == output[k]
    {
      assert output[k] in multiset(sorted);
      var m :| 0 <= m < |sorted| && sorted[m] == output[k];
    }
  }

  // ---------------------------------------------------------------- the two parts

  /** `update[update.len() / 2]`. */
  function Middle(update: seq<Page>): Page
    requires |update| > 0
  {
    update[|update| / 2]
  }

  predicate NonEmpty(updates: seq<seq<Page>>)
  {
    forall k :: 0 <= k < |updates| ==> |updates[k]| > 0
  }

  /** The sum of the middle pages of the valid updates. */
  function ValidMiddleSum(updates: seq<seq<Page>>, faster: seq<seq<Page>>): nat
    requires |faster| == 256 && NonEmpty(updates)
  {
    if updates == [] then 0
    else
      var last := updates[|updates| - 1];
      ValidMiddleSum(updates[..|updates| - 1], faster) + (if ValidUpdate(last, faster) then Middle(last) else 0)
  }

  /** Part 1, given the parsed rules and updates. */
  method Part1(rules: seq<Rule>, updates: seq<seq<Page>>) returns (total: nat)
    requires NonEmpty(updates)
    ensures total == ValidMiddleSum(updates, FasterRules(rules))
  {
    var faster := BuildFasterRules(rules);
    assert faster == FasterRules(rules);
    total := 0;
    for k := 0 to |updates|
      invariant total == ValidMiddleSum(updates[..k], faster)
    {
      assert updates[..k + 1][..k] == updates[..k];
      var valid := IsValidUpdate(updates[k], faster);
      if valid {
        total := total + Middle(updates[k]);
      }
    }
    assert updates[..|updates|] == updates;
  }

  /** The invalid updates, in input order. */
  function InvalidUpdates(updates: seq<seq<Page>>, faster: seq<seq<Page>>): (r: seq<seq<Page>>)
    requires |faster| == 256
    ensures forall u :: u in r ==> u in updates
  {
    if updates == [] then []
    else
      var last := updates[|updates| - 1];
      InvalidUpdates(updates[..|updates| - 1], faster) + (if ValidUpdate(last, faster) then [] else [last])
  }

  function MiddleSum(updates: seq<seq<Page>>): nat
    requires NonEmpty(updates)
  {
    if updates == [] then 0 else MiddleSum(updates[..|updates| - 1]) + Middle(updates[|updates| - 1])
  }

  /**
   * The source panics when the rules restricted to an invalid update have a cycle; the
   * precondition excludes that case by asking for one topological order of each invalid update.
   */
  ghost predicate Sortable(updates: seq<seq<Page>>, rules: seq<Rule>)
  {
    forall k :: 0 <= k < |updates| && !ValidUpdate(updates[k], FasterRules(rules)) ==>
      exists order :: TopologicalOrder(order, updates[k], rules)
  }

  /**
   * Part 2: each invalid update is reordered by Kahn's order for its pages, and the middle pages
   * of the reordered updates are summed.
   */
  method Part2(rules: seq<Rule>, updates: seq<seq<Page>>) returns (total: nat, reordered: seq<seq<Page>>)
    requires NonEmpty(updates) && forall k :: 0 <= k < |updates| ==> Distinct(updates[k])
    requires Sortable(updates, rules)
    ensures |reordered| == |InvalidUpdates(updates, FasterRules(rules))|
    ensures forall k :: 0 <= k < |reordered| ==>
      TopologicalOrder(reordered[k], InvalidUpdates(updates, FasterRules(rules))[k], rules)
    ensures NonEmpty(reordered) && total == MiddleSum(reordered)
  {
    var faster := BuildFasterRules(rules);
    assert faster == FasterRules(rules);
    total, reordered := 0, [];
    for k := 0 to |updates|
      invariant |reordered| == |InvalidUpdates(updates[..k], faster)|
      invariant forall i :: 0 <= i < |reordered| ==>
        TopologicalOrder(reordered[i], InvalidUpdates(updates[..k], faster)[i], rules)
      invariant NonEmpty(reordered) && total == MiddleSum(reordered)
    {
      assert updates[..k + 1][..k] == updates[..k];
      var update := updates[k];
      var valid := IsValidUpdate(update, faster);
      if !valid {
        ghost var order :| TopologicalOrder(order, update, rules);
        var output := ReorderUpdate(update, rules, order);
        assert (reordered + [output])[..|reordered|] == reordered;
        reordered := reordered + [output];
        total := total + Middle(output);
      }
    }
    assert updates[..|updates|] == updates;
  }

  /** The closure of part 2 for one invalid update: Kahn's order, then the counting sort by its ranks. */
  method ReorderUpdate(update: seq<Page>, rules: seq<Rule>, ghost order: seq<Page>) returns (output: seq<Page>)
    requires |update| > 0 && Distinct(update)
    requires TopologicalOrder(order, update, rules)
    ensures |output| > 0 && TopologicalOrder(output, update, rules)
  {
    var sorted, table := KahnAlgorithm(update, rules, order);
    output := SortWithLookupTable(update, table);
    RanksDiffer(update, sorted, table);
    SortedByRankIsOrder(output, sorted, table);
    assert |output| == |multiset(update)|;
  }

  /** The rank table of a topological order tells the update's pages apart. */
  lemma RanksDiffer(update: seq<Page>, sorted: seq<Page>, table: seq<Page>)
    requires Distinct(update) && |table| == 256
    requires multiset(sorted) == multiset(update)
    requires forall i :: 0 <= i < |sorted| ==> table[sorted[i]] == i
    ensures DistinctRanks(update, table)
    ensures Distinct(sorted)
  {
    forall i, j | 0 <= i < j < |update|
      ensures table[update[i]] != table[update[j]]
    {
      assert update[i] in multiset(sorted) && update[j] in multiset(sorted);
      var a :| 0 <= a < |sorted| && sorted[a] == update[i];
      var b :| 0 <= b < |sorted| && sorted[b] == update[j];
    }
    DistinctMultiset(update, sorted);
  }
}
