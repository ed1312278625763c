/**
 * Day 25: code chronicle. The input is a list of blocks of rows five characters wide. A block
 * whose top row is all '.' is a key, one whose top row is all '#' is a lock; the height of a
 * column is the number of '#' in it over the five rows below the top row. A key fits a lock
 * when no column's heights add up to more than 5, and part 1 counts the fitting pairs.
 */
module Day25 {
  import opened Common

  /** Width of a row, and the room in a column. */
  const Width: nat := 5

  /** A row the parser accepts: five characters, each '.' or '#'. */
  predicate IsRow(r: seq<char>)
  {
    |r| == Width && forall k :: 0 <= k < |r| ==> r[k] == '.' || r[k] == '#'
  }

  predicate AreRows(rows: seq<seq<char>>)
  {
    forall j :: 0 <= j < |rows| ==> IsRow(rows[j])
  }

  /**
   * A block as the parser sees it: its top row, which decides whether it is a key or a lock,
   * and the rows that follow it up to the blank line.
   */
  datatype Block = Block(top: seq<char>, rows: seq<seq<char>>)

  /** What the row parsers can deliver: at least one row after the top row, all well formed. */
  predicate WellFormed(b: Block)
  {
    |b.rows| >= 1 && AreRows(b.rows)
  }

  const KeyTop: seq<char> := "....."
  const LockTop: seq<char> := "#####"

  /** Column `i` of some rows, top to bottom. */
  function Column(rows: seq<seq<char>>, i: nat): (col: seq<char>)
    requires AreRows(rows) && i < Width
    ensures |col| == |rows|
    ensures forall j :: 0 <= j < |rows| ==> col[j] == rows[j][i]
  {
    seq(|rows|, j requires 0 <= j < |rows| => rows[j][i])
  }

  /** The height of column `i`: how many of the rows have '#' there. */
  function Height(rows: seq<seq<char>>, i: nat): nat
    requires AreRows(rows) && i < Width
  {
    Count(Column(rows, i), '#')
  }

  /** The heights of the five columns over the first five rows. */
  function Heights(rows: seq<seq<char>>): (h: seq<nat>)
    requires AreRows(rows) && |rows| >= Width
    ensures |h| == Width
  {
    seq(Width, i requires 0 <= i < Width => Height(rows[..Width], i))
  }

  /** Every height is between 0 and 5. */
  lemma {:induction false} HeightsRange(rows: seq<seq<char>>, i: nat)
    requires AreRows(rows) && |rows| >= Width && i < Width
    ensures Heights(rows)[i] <= Width
  {
  }

  /** One for a '#', none for a '.'. */
  function Mark(c: char): nat
  {
    if c == '#' then 1 else 0
  }

  /** A row added at the bottom adds one to a column exactly when it has '#' there. */
  lemma {:induction false} HeightStep(rows: seq<seq<char>>, j: nat, i: nat)
    requires AreRows(rows) && j < |rows| && i < Width
    ensures Height(rows[..j + 1], i) == Height(rows[..j], i) + Mark(rows[j][i])
  {
    assert Column(rows[..j + 1], i) == Column(rows[..j], i) + [rows[j][i]];
    CountAppend(Column(rows[..j], i), [rows[j][i]], '#');
  }

  /**
   * The counting loop both parsers share: for each of the first five rows and each column, one
   * more for every '#'.
   */
  method CountHeights(rows: seq<seq<char>>) returns (h: seq<nat>)
    requires AreRows(rows) && |rows| >= Width
    ensures h == Heights(rows)
  {
    var counts := new nat[Width](_ => 0);
    var j := 0;
    while j < Width
      invariant 0 <= j <= Width
      invariant forall i :: 0 <= i < Width ==> counts[i] == Height(rows[..j], i)
    {
      AddRow(counts, rows[j]);
      forall i | 0 <= i < Width
        ensures counts[i] == Height(rows[..j + 1], i)
      {
        HeightStep(rows, j, i);
      }
      j := j + 1;
    }
    assert rows[..Width][..Width] == rows[..Width];
    h := counts[..];
  }

  /** The inner loop: one more in each column where the row has '#'. */
  method AddRow(counts: array<nat>, row: seq<char>)
    requires counts.Length == Width && IsRow(row)
    modifies counts
    ensures forall i :: 0 <= i < Width ==> counts[i] == old(counts[i]) + Mark(row[i])
  {
    var i := 0;
    while i < Width
      invariant 0 <= i <= Width
      invariant forall k :: 0 <= k < i ==> counts[k] == old(counts[k]) + Mark(row[k])
      invariant forall k :: i <= k < Width ==> counts[k] == old(counts[k])
    {
      if row[i] == '#' {
        counts[i] := counts[i] + 1;
      }
      i := i + 1;
    }
  }

  /** The heights of a block with no rows to count. */
  const Zeros: seq<nat> := [0, 0, 0, 0, 0]

  /**
   * The cases in which the parsers' assertions hold: a key has one row after its top row or
   * exactly six, a lock exactly six.
   */
  predicate Sound(b: Block)
  {
    && (b.top == KeyTop ==> |b.rows| <= 1 || |b.rows| == Width + 1)
    && (b.top == LockTop ==> |b.rows| == Width + 1)
  }

  /** `parse_key`: no key unless the top row is all '.'; all zeros with a single row below. */
  function KeyOf(b: Block): Option<seq<nat>>
    requires WellFormed(b) && Sound(b)
  {
    if b.top != KeyTop then None
    else if |b.rows| <= 1 then Some(Zeros)
    else Some(Heights(b.rows))
  }

  /** `parse_lock`: no lock unless the top row is all '#'. */
  function LockOf(b: Block): Option<seq<nat>>
    requires WellFormed(b) && Sound(b)
  {
    if b.top != LockTop then None else Some(Heights(b.rows))
  }

  /** Five heights, none above 5. */
  predicate InRange(h: seq<nat>)
  {
    |h| == Width && forall i :: 0 <= i < |h| ==> h[i] <= Width
  }

  /**
   * A key is parsed exactly from a block topped by "....."; it holds five heights in 0..5,
   * and column `i`'s height counts the '#' among the five rows after the top row.
   */
  lemma {:induction false} KeyOfFacts(b: Block)
    requires WellFormed(b) && Sound(b)
    ensures KeyOf(b).Some? <==> b.top == KeyTop
    ensures KeyOf(b).Some? ==> InRange(KeyOf(b).value)
    ensures KeyOf(b).Some? && |b.rows| > 1 ==>
              forall i :: 0 <= i < Width ==> KeyOf(b).value[i] == Count(Column(b.rows[..Width], i), '#')
    ensures KeyOf(b).Some? && |b.rows| <= 1 ==> forall i :: 0 <= i < Width ==> KeyOf(b).value[i] == 0
  {
    if b.top == KeyTop && |b.rows| > 1 {
      forall i | 0 <= i < Width
        ensures KeyOf(b).value[i] <= Width
      {
        HeightsRange(b.rows, i);
      }
    }
  }

  /**
   * A lock is parsed exactly from a block topped by "#####"; it holds five heights in 0..5,
   * each counting the '#' in its column among the five rows after the top row.
   */
  lemma {:induction false} LockOfFacts(b: Block)
    requires WellFormed(b) && Sound(b)
    ensures LockOf(b).Some? <==> b.top == LockTop
    ensures LockOf(b).Some? ==> InRange(LockOf(b).value)
    ensures LockOf(b).Some? ==>
              forall i :: 0 <= i < Width ==> LockOf(b).value[i] == Count(Column(b.rows[..Width], i), '#')
  {
    if b.top == LockTop {
      forall i | 0 <= i < Width
        ensures LockOf(b).value[i] <= Width
      {
        HeightsRange(b.rows, i);
      }
    }
  }

  /** `parse_key`, with its counting loop. */
  method ParseKey(b: Block) returns (key: Option<seq<nat>>)
    requires WellFormed(b) && Sound(b)
    ensures key == KeyOf(b)
  {
    if b.top != KeyTop {
      return None;
    }
    if |b.rows| <= 1 {
      return Some(Zeros);
    }
    var h := CountHeights(b.rows);
    key := Some(h);
  }

  /** `parse_lock`, with its counting loop. */
  method ParseLock(b: Block) returns (lock: Option<seq<nat>>)
    requires WellFormed(b) && Sound(b)
    ensures lock == LockOf(b)
  {
    if b.top != LockTop {
      return None;
    }
    var h := CountHeights(b.rows);
    lock := Some(h);
  }

  /** What the block parser returns: a key (tagged 0 in the source) or a lock (tagged 1). */
  datatype Item = KeyItem(heights: seq<nat>) | LockItem(heights: seq<nat>)

  /** The number of leading blocks that are keys or locks; the list parser stops at the first other. */
  function Accepted(blocks: seq<Block>): (n: nat)
    ensures n <= |blocks|
  {
    if blocks == [] || (blocks[0].top != KeyTop && blocks[0].top != LockTop) then 0
    else 1 + Accepted(blocks[1..])
  }

  /** Every accepted block is well formed and passes the parsers' assertions. */
  predicate Parsable(blocks: seq<Block>)
  {
    forall j :: 0 <= j < Accepted(blocks) <= |blocks| ==> WellFormed(blocks[j]) && Sound(blocks[j])
  }

  /** The item parsed from one accepted block: a key if it parses as one, a lock otherwise. */
  function ItemOf(b: Block): Item
    requires WellFormed(b) && Sound(b) && (b.top == KeyTop || b.top == LockTop)
  {
    match KeyOf(b)
    case Some(key) => KeyItem(key)
    case None => LockItem(LockOf(b).value)
  }

  /** `separated_list0` over the `alt` of the two parsers. */
  function Items(blocks: seq<Block>): (items: seq<Item>)
    requires Parsable(blocks)
    ensures |items| == Accepted(blocks)
  {
    if Accepted(blocks) == 0 then []
    else
      assert Parsable(blocks[1..]) by {
        forall j | 0 <= j < Accepted(blocks[1..])
          ensures WellFormed(blocks[1..][j]) && Sound(blocks[1..][j])
        {
          assert blocks[1..][j] == blocks[j + 1];
        }
      }
      [ItemOf(blocks[0])] + Items(blocks[1..])
  }

  /** The parsed items are, in order, the keys and locks of the leading accepted blocks. */
  lemma {:induction false} ItemsAt(blocks: seq<Block>, j: nat)
    requires Parsable(blocks) && j < Accepted(blocks)
    ensures WellFormed(blocks[j]) && Sound(blocks[j])
    ensures blocks[j].top == KeyTop || blocks[j].top == LockTop
    ensures blocks[j].top == KeyTop ==> Items(blocks)[j] == KeyItem(KeyOf(blocks[j]).value)
    ensures blocks[j].top == LockTop ==> Items(blocks)[j] == LockItem(LockOf(blocks[j]).value)
    decreases j
  {
    if j > 0 {
      assert blocks[1..][j - 1] == blocks[j];
      ItemsAt(blocks[1..], j - 1);
    }
  }

  /** The `(0, key)` items, in order. */
  function KeysOf(items: seq<Item>): seq<seq<nat>>
  {
    if items == [] then []
    else (if items[0].KeyItem? then [items[0].heights] else []) + KeysOf(items[1..])
  }

  /** The `(1, lock)` items, in order. */
  function LocksOf(items: seq<Item>): seq<seq<nat>>
  {
    if items == [] then []
    else (if items[0].LockItem? then [items[0].heights] else []) + LocksOf(items[1..])
  }

  /** The heights of all items, in order. */
  function HeightsOfItems(items: seq<Item>): (hs: seq<seq<nat>>)
    ensures |hs| == |items|
  {
    if items == [] then [] else [items[0].heights] + HeightsOfItems(items[1..])
  }

  /** Every item is a key or a lock, so the two lists share out the items' heights. */
  lemma {:induction false} KeysLocksPartition(items: seq<Item>)
    ensures multiset(KeysOf(items)) + multiset(LocksOf(items)) == multiset(HeightsOfItems(items))
  {
    if items != [] {
      KeysLocksPartition(items[1..]);
    }
  }

  /** The source's `Problem`. */
  datatype Problem = Problem(keys: seq<seq<nat>>, locks: seq<seq<nat>>)

  /** The closure of `parse_input_data`: pushes every key and every lock, in order. */
  method SplitItems(data: seq<Item>) returns (p: Problem)
    ensures p.keys == KeysOf(data) && p.locks == LocksOf(data)
  {
    var keys: seq<seq<nat>> := [];
    var locks: seq<seq<nat>> := [];
    var j := |data|;
    // Built from the back so that each step matches the recursion of KeysOf and LocksOf.
    while j > 0
      invariant 0 <= j <= |data|
      invariant keys == KeysOf(data[j..]) && locks == LocksOf(data[j..])
    {
      j := j - 1;
      assert data[j..][1..] == data[j + 1..];
      match data[j]
      case KeyItem(key) => keys := [key] + keys;
      case LockItem(lock) => locks := [lock] + locks;
    }
    assert data[0..] == data;
    p := Problem(keys, locks);
  }

  /** The fit test of `day_25_part_1`. */
  predicate Fits(key: seq<nat>, lock: seq<nat>)
    requires |key| == Width && |lock| == Width
  {
    && lock[0] + key[0] <= 5
    && lock[1] + key[1] <= 5
    && lock[2] + key[2] <= 5
    && lock[3] + key[3] <= 5
    && lock[4] + key[4] <= 5
  }

  /** A key fits a lock exactly when no column overfills, and which is the key does not matter. */
  lemma {:induction false} FitsIffColumns(key: seq<nat>, lock: seq<nat>)
    requires |key| == Width && |lock| == Width
    ensures Fits(key, lock) <==> forall i :: 0 <= i < Width ==> key[i] + lock[i] <= Width
    ensures Fits(key, lock) <==> Fits(lock, key)
  {
    if forall i :: 0 <= i < Width ==> key[i] + lock[i] <= Width {
      assert key[0] + lock[0] <= Width && key[1] + lock[1] <= Width && key[2] + lock[2] <= Width;
      assert key[3] + lock[3] <= Width && key[4] + lock[4] <= Width;
    }
  }

  predicate AllFive(hs: seq<seq<nat>>)
  {
    forall j :: 0 <= j < |hs| ==> |hs[j]| == Width
  }

  /** The inner `filter(..).count()`: how many locks a key fits. */
  function LocksFitting(key: seq<nat>, locks: seq<seq<nat>>): (n: nat)
    requires |key| == Width && AllFive(locks)
    ensures n <= |locks|
  {
    if locks == [] then 0
    else (if Fits(key, locks[0]) then 1 else 0) + LocksFitting(key, locks[1..])
  }

  /** The outer `map(..).sum()`: the fitting pairs, key by key. */
  function FitCount(keys: seq<seq<nat>>, locks: seq<seq<nat>>): (n: nat)
    requires AllFive(keys) && AllFive(locks)
    ensures n <= |keys| * |locks|
  {
    if keys == [] then 0
    else
      assert |keys| * |locks| == |locks| + (|keys| - 1) * |locks|;
      LocksFitting(keys[0], locks) + FitCount(keys[1..], locks)
  }

  /** The keys a lock fits: the reference count taken lock by lock. */
  function KeysFitting(lock: seq<nat>, keys: seq<seq<nat>>): nat
    requires |lock| == Width && AllFive(keys)
  {
    if keys == [] then 0
    else (if Fits(keys[0], lock) then 1 else 0) + KeysFitting(lock, keys[1..])
  }

  /** The fitting pairs, lock by lock, as a reference. */
  function FitCountByLock(locks: seq<seq<nat>>, keys: seq<seq<nat>>): nat
    requires AllFive(keys) && AllFive(locks)
  {
    if locks == [] then 0 else KeysFitting(locks[0], keys) + FitCountByLock(locks[1..], keys)
  }

  /** Taking one key off the front of the lock-by-lock count. */
  lemma {:induction false} ByLockFirstKey(locks: seq<seq<nat>>, keys: seq<seq<nat>>)
    requires AllFive(keys) && AllFive(locks) && keys != []
    ensures FitCountByLock(locks, keys) == LocksFitting(keys[0], locks) + FitCountByLock(locks, keys[1..])
  {
    if locks != [] {
      ByLockFirstKey(locks[1..], keys);
    }
  }

  /** Counting key by key and counting lock by lock give the same number of pairs. */
  lemma {:induction false} FitCountByEither(keys: seq<seq<nat>>, locks: seq<seq<nat>>)
    requires AllFive(keys) && AllFive(locks)
    ensures FitCount(keys, locks) == FitCountByLock(locks, keys)
  {
    if keys == [] {
      ByLockNoKeys(locks, keys);
    } else {
      FitCountByEither(keys[1..], locks);
      ByLockFirstKey(locks, keys);
    }
  }

  lemma {:induction false} ByLockNoKeys(locks: seq<seq<nat>>, keys: seq<seq<nat>>)
    requires AllFive(keys) && AllFive(locks) && keys == []
    ensures FitCountByLock(locks, keys) == 0
  {
    if locks != [] {
      ByLockNoKeys(locks[1..], keys);
    }
  }

  /** A key fits no lock exactly when its count is 0, and fits all exactly when it is |locks|. */
  lemma {:induction false} LocksFittingExtremes(key: seq<nat>, locks: seq<seq<nat>>)
    requires |key| == Width && AllFive(locks)
    ensures LocksFitting(key, locks) == 0 <==> forall l :: 0 <= l < |locks| ==> !Fits(key, locks[l])
    ensures LocksFitting(key, locks) == |locks| <==> forall l :: 0 <= l < |locks| ==> Fits(key, locks[l])
  {
    if locks != [] {
      LocksFittingExtremes(key, locks[1..]);
      assert forall l :: 1 <= l < |locks| ==> locks[l] == locks[1..][l - 1];
    }
  }

  /**
   * The answer is 0 exactly when no key fits any lock, and |keys| * |locks| exactly when every
   * key fits every lock.
   */
  lemma {:induction false} FitCountExtremes(keys: seq<seq<nat>>, locks: seq<seq<nat>>)
    requires AllFive(keys) && AllFive(locks)
    ensures FitCount(keys, locks) == 0 <==>
              forall k, l :: 0 <= k < |keys| && 0 <= l < |locks| ==> !Fits(keys[k], locks[l])
    ensures FitCount(keys, locks) == |keys| * |locks| <==>
              forall k, l :: 0 <= k < |keys| && 0 <= l < |locks| ==> Fits(keys[k], locks[l])
  {
    if keys != [] {
      FitCountExtremes(keys[1..], locks);
      LocksFittingExtremes(keys[0], locks);
      assert |keys| * |locks| == |locks| + (|keys| - 1) * |locks|;
      assert forall k :: 1 <= k < |keys| ==> keys[k] == keys[1..][k - 1];
    }
  }

  /** The parsed keys and locks all have five heights. */
  lemma {:induction false} ItemsFive(items: seq<Item>)
    requires forall j :: 0 <= j < |items| ==> |items[j].heights| == Width
    ensures AllFive(KeysOf(items)) && AllFive(LocksOf(items))
  {
    if items != [] {
      ItemsFive(items[1..]);
    }
  }

  /** Every parsed item has five heights. */
  lemma {:induction false} ItemsHaveFive(blocks: seq<Block>)
    requires Parsable(blocks)
    ensures forall j :: 0 <= j < |Items(blocks)| ==> |Items(blocks)[j].heights| == Width
  {
    forall j | 0 <= j < |Items(blocks)|
      ensures |Items(blocks)[j].heights| == Width
    {
      ItemsAt(blocks, j);
      KeyOfFacts(blocks[j]);
      LockOfFacts(blocks[j]);
    }
  }

  /** The problem parsed from some blocks. */
  function ProblemOf(blocks: seq<Block>): (p: Problem)
    requires Parsable(blocks)
    ensures AllFive(p.keys) && AllFive(p.locks)
  {
    ItemsHaveFive(blocks);
    ItemsFive(Items(blocks));
    Problem(KeysOf(Items(blocks)), LocksOf(Items(blocks)))
  }

  /** `parse_input_data`: the list parser, then the split into keys and locks. */
  method ParseInput(blocks: seq<Block>) returns (p: Problem)
    requires Parsable(blocks)
    ensures p == ProblemOf(blocks)
  {
    var data: seq<Item> := [];
    var j := 0;
    while j < |blocks| && (blocks[j].top == KeyTop || blocks[j].top == LockTop)
      invariant 0 <= j <= Accepted(blocks)
      invariant data == Items(blocks)[..j]
      invariant Accepted(blocks[j..]) == Accepted(blocks) - j
    {
      assert blocks[j..][1..] == blocks[j + 1..];
      var key := ParseKey(blocks[j]);
      ItemsAt(blocks, j);
      match key {
        case Some(k) =>
          data := data + [KeyItem(k)];
        case None =>
          var lock := ParseLock(blocks[j]);
          data := data + [LockItem(lock.value)];
      }
      j := j + 1;
    }
    assert data == Items(blocks);
    p := SplitItems(data);
  }

  /** `day_25_part_1`. */
  method Part1(blocks: seq<Block>) returns (answer: nat)
    requires Parsable(blocks)
    ensures answer == FitCount(ProblemOf(blocks).keys, ProblemOf(blocks).locks)
    ensures answer <= |ProblemOf(blocks).keys| * |ProblemOf(blocks).locks|
  {
    var p := ParseInput(blocks);
    answer := FitCount(p.keys, p.locks);
  }
}

/** The example of the tests: two locks, then three keys. */
module Day25Example {
  import opened Common
  import opened Day25

  function Example(): seq<Block>
  {
    [ Block("#####", [".####", ".####", ".####", ".#.#.", ".#...", "....."]),
      Block("#####", ["##.##", ".#.##", "...##", "...#.", "...#.", "....."]),
      Block(".....", ["#....", "#....", "#...#", "#.#.#", "#.###", "#####"]),
      Block(".....", [".....", "#.#..", "###..", "###.#", "###.#", "#####"]),
      Block(".....", [".....", ".....", "#....", "#.#..", "#.#.#", "#####"]) ]
  }

  /** The height of a column of five rows, spelled out row by row. */
  lemma {:induction false} HeightOfFive(rows: seq<seq<char>>, i: nat)
    requires AreRows(rows) && |rows| >= Width && i < Width
    ensures Heights(rows)[i] ==
              Mark(rows[0][i]) + Mark(rows[1][i]) + Mark(rows[2][i]) + Mark(rows[3][i]) + Mark(rows[4][i])
  {
    var col := Column(rows[..Width], i);
    assert Count(col[4..], '#') == Mark(rows[4][i]) by {
      assert col[4..][1..] == [];
    }
    assert Count(col[3..], '#') == Mark(rows[3][i]) + Count(col[4..], '#') by {
      assert col[3..][1..] == col[4..];
    }
    assert Count(col[2..], '#') == Mark(rows[2][i]) + Count(col[3..], '#') by {
      assert col[2..][1..] == col[3..];
    }
    assert Count(col[1..], '#') == Mark(rows[1][i]) + Count(col[2..], '#') by {
      assert col[1..][1..] == col[2..];
    }
  }

  /** The heights of a block of six well-formed rows, column by column. */
  lemma {:induction false} HeightsOfBlock(rows: seq<seq<char>>, h: seq<nat>)
    requires AreRows(rows) && |rows| == Width + 1 && |h| == Width
    requires forall i :: 0 <= i < Width ==>
               h[i] == Mark(rows[0][i]) + Mark(rows[1][i]) + Mark(rows[2][i]) + Mark(rows[3][i]) + Mark(rows[4][i])
    ensures Heights(rows) == h
  {
    forall i | 0 <= i < Width
      ensures Heights(rows)[i] == h[i]
    {
      HeightOfFive(rows, i);
    }
  }

  const Lock1: seq<nat> := [0, 5, 3, 4, 3]
  const Lock2: seq<nat> := [1, 2, 0, 5, 3]
  const Key1: seq<nat> := [5, 0, 2, 1, 3]
  const Key2: seq<nat> := [4, 3, 4, 0, 2]
  const Key3: seq<nat> := [3, 0, 2, 0, 1]

  lemma FirstLock()
    ensures WellFormed(Example()[0]) && Sound(Example()[0])
    ensures LockOf(Example()[0]) == Some(Lock1) && KeyOf(Example()[0]) == None
  {
    HeightsOfBlock(Example()[0].rows, Lock1);
  }

  lemma SecondLock()
    ensures WellFormed(Example()[1]) && Sound(Example()[1])
    ensures LockOf(Example()[1]) == Some(Lock2) && KeyOf(Example()[1]) == None
  {
    HeightsOfBlock(Example()[1].rows, Lock2);
  }

  lemma FirstKey()
    ensures WellFormed(Example()[2]) && Sound(Example()[2])
    ensures KeyOf(Example()[2]) == Some(Key1)
  {
    HeightsOfBlock(Example()[2].rows, Key1);
  }

  lemma SecondKey()
    ensures WellFormed(Example()[3]) && Sound(Example()[3])
    ensures KeyOf(Example()[3]) == Some(Key2)
  {
    HeightsOfBlock(Example()[3].rows, Key2);
  }

  lemma ThirdKey()
    ensures WellFormed(Example()[4]) && Sound(Example()[4])
    ensures KeyOf(Example()[4]) == Some(Key3)
  {
    HeightsOfBlock(Example()[4].rows, Key3);
  }

  /** All five blocks are accepted and parse to the locks and keys of the tests. */
  lemma ExampleItems()
    ensures Parsable(Example())
    ensures Items(Example()) == [LockItem(Lock1), LockItem(Lock2), KeyItem(Key1), KeyItem(Key2), KeyItem(Key3)]
  {
    var e := Example();
    assert Accepted(e[5..]) == 0;
    assert e[4..][1..] == e[5..];
    assert e[3..][1..] == e[4..];
    assert e[2..][1..] == e[3..];
    assert e[1..][1..] == e[2..];
    assert e[0..][1..] == e[1..];
    assert e[0..] == e;
    assert Accepted(e) == 5;
    FirstLock();
    SecondLock();
    FirstKey();
    SecondKey();
    ThirdKey();
    assert Parsable(e);
    var items := Items(e);
    ItemsAt(e, 0);
    ItemsAt(e, 1);
    ItemsAt(e, 2);
    ItemsAt(e, 3);
    ItemsAt(e, 4);
    assert items == [LockItem(Lock1), LockItem(Lock2), KeyItem(Key1), KeyItem(Key2), KeyItem(Key3)];
  }

  /** The keys and locks of the example. */
  lemma ExampleProblem()
    ensures Parsable(Example())
    ensures ProblemOf(Example()) == Problem([Key1, Key2, Key3], [Lock1, Lock2])
  {
    ExampleItems();
    var items := Items(Example());
    assert items[1..][1..][1..][1..][1..] == [];
  }

  /** The answer for the example is 3. */
  lemma ExampleAnswer()
    ensures Parsable(Example())
    ensures FitCount(ProblemOf(Example()).keys, ProblemOf(Example()).locks) == 3
  {
    ExampleProblem();
  }
}
