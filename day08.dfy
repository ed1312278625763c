/**
 * Day 8: antennas of the same frequency create an antinode at the far side of each pair; count
 * the cells of the map that hold at least one antinode.
 */
module Day08 {
  import opened Common

  type Grid = seq<seq<char>>
  type Pos = (int, int)

  /** The characters the parser accepts: ASCII letters, digits and '.'. */
  predicate ValidChar(c: char)
  {
    ('A' <= c <= 'Z') || ('a' <= c <= 'z') || ('0' <= c <= '9') || c == '.'
  }

  /** A non-empty rectangular map of accepted characters. */
  predicate IsGrid(g: Grid)
  {
    && |g| >= 1 && |g[0]| >= 1
    && (forall r :: 0 <= r < |g| ==> |g[r]| == |g[0]|)
    && (forall r, c :: 0 <= r < |g| && 0 <= c < |g[r]| ==> ValidChar(g[r][c]))
  }

  /** The number of antenna frequencies. */
  const NbKeys: nat := 62

  /** `ascii_to_key`: A-Z are 0-25, a-z are 26-51, 0-9 are 52-61, and '.' is no antenna. */
  function AsciiToKey(c: char): (k: Option<nat>)
    requires ValidChar(c)
    ensures k.None? <==> c == '.'
    ensures k.Some? ==> k.value < NbKeys
    ensures 'A' <= c <= 'Z' ==> k == Some(c as int - 'A' as int)
    ensures 'a' <= c <= 'z' ==> k == Some(c as int - 'a' as int + 26)
    ensures '0' <= c <= '9' ==> k == Some(c as int - '0' as int + 52)
  {
    if 'A' <= c <= 'Z' then Some(c as int - 65)
    else if 'a' <= c <= 'z' then Some(c as int - 97 + 26)
    else if '0' <= c <= '9' then Some(c as int - 48 + 52)
    else None
  }

  /** Distinct frequencies get distinct keys. */
  lemma AsciiToKeyInjective(c: char, d: char)
    requires ValidChar(c) && ValidChar(d) && AsciiToKey(c) == AsciiToKey(d)
    ensures c == d
  {
  }

  function KeyAt(g: Grid, p: Pos): Option<nat>
    requires IsGrid(g) && InGrid(p, |g|, |g[0]|)
  {
    AsciiToKey(g[p.0][p.1])
  }

  predicate InGrid(p: Pos, nbRows: int, nbCols: int)
  {
    0 <= p.0 < nbRows && 0 <= p.1 < nbCols
  }

  /** The cell on the far side of `a` from `b`: `a - (b - a)`. */
  function Antinode(a: Pos, b: Pos): (p: Pos)
    ensures p.0 - a.0 == a.0 - b.0 && p.1 - a.1 == a.1 - b.1
  {
    (2 * a.0 - b.0, 2 * a.1 - b.1)
  }

  /** An antinode of the map: a cell on the far side of one antenna from another of its frequency. */
  ghost predicate IsAntinode(g: Grid, p: Pos)
    requires IsGrid(g)
  {
    && InGrid(p, |g|, |g[0]|)
    && exists a: Pos, b: Pos ::
      && InGrid(a, |g|, |g[0]|) && InGrid(b, |g|, |g[0]|) && a != b
      && KeyAt(g, a).Some? && KeyAt(g, a) == KeyAt(g, b)
      && p == Antinode(a, b)
  }

  /** The cells of the map that hold an antinode. */
  ghost function AntinodeCells(g: Grid): set<Pos>
    requires IsGrid(g)
  {
    set r, c | 0 <= r < |g| && 0 <= c < |g[0]| && IsAntinode(g, (r, c)) :: (r, c)
  }

  // ---------------------------------------------------------------------------------------------
  // Grouping the antennas by frequency.

  /** Row-major order, the order of `indexed_iter`. */
  predicate Before(p: Pos, q: Pos)
  {
    p.0 < q.0 || (p.0 == q.0 && p.1 < q.1)
  }

  /** `antennas_per_key`: group `k` holds exactly the antennas of key `k`, each once. */
  ghost predicate Grouped(g: Grid, groups: seq<seq<Pos>>)
    requires IsGrid(g)
  {
    && |groups| == NbKeys
    && (forall k: nat :: k < NbKeys ==> Distinct(groups[k]))
    && forall k: nat, p: Pos :: k < NbKeys ==>
         (p in groups[k] <==> InGrid(p, |g|, |g[0]|) && KeyAt(g, p) == Some(k))
  }

  lemma DistinctSnoc<T>(s: seq<T>, x: T)
    requires Distinct(s) && x !in s
    ensures Distinct(s + [x])
  {
  }

  /** Group `k` holds exactly the antennas of key `k` among the cells before `limit`, each once. */
  ghost predicate GroupedBefore(g: Grid, groups: seq<seq<Pos>>, limit: Pos)
    requires IsGrid(g)
  {
    && |groups| == NbKeys
    && (forall k: nat :: k < NbKeys ==> Distinct(groups[k]))
    && forall k: nat, p: Pos :: k < NbKeys ==>
         (p in groups[k] <==> InGrid(p, |g|, |g[0]|) && Before(p, limit) && KeyAt(g, p) == Some(k))
  }

  /** The loop filling `antennas_per_key`: every antenna is pushed onto its key's group. */
  method GroupAntennas(g: Grid) returns (groups: seq<seq<Pos>>)
    requires IsGrid(g)
    ensures Grouped(g, groups)
  {
    groups := seq(NbKeys, _ => []);
    for r := 0 to |g|
      invariant GroupedBefore(g, groups, (r, 0))
    {
      groups := GroupRow(g, groups, r);
    }
    assert GroupedBefore(g, groups, (|g|, 0));
  }

  /** One row of that loop. */
  method GroupRow(g: Grid, groups0: seq<seq<Pos>>, r: nat) returns (groups: seq<seq<Pos>>)
    requires IsGrid(g) && r < |g| && GroupedBefore(g, groups0, (r, 0))
    ensures GroupedBefore(g, groups, (r + 1, 0))
  {
    groups := groups0;
    for c := 0 to |g[0]|
      invariant GroupedBefore(g, groups, (r, c))
    {
      var key := AsciiToKey(g[r][c]);
      if key.Some? {
        var k := key.value;
        GroupedPush(g, groups, r, c, k);
        groups := groups[k := groups[k] + [(r, c)]];
      } else {
        GroupedSkip(g, groups, r, c);
      }
    }
    ghost var lim: Pos := (r + 1, 0);
    forall k: nat, p: Pos | k < NbKeys
      ensures p in groups[k] <==> InGrid(p, |g|, |g[0]|) && Before(p, lim) && KeyAt(g, p) == Some(k)
    {
      assert InGrid(p, |g|, |g[0]|) ==> (Before(p, (r, |g[0]|)) <==> Before(p, lim));
    }
    assert GroupedBefore(g, groups, lim);
  }

  /** Pushing the antenna at `(r, c)` onto its key's group extends the grouping past it. */
  lemma GroupedPush(g: Grid, groups: seq<seq<Pos>>, r: nat, c: nat, k: nat)
    requires IsGrid(g) && r < |g| && c < |g[0]| && GroupedBefore(g, groups, (r, c))
    requires KeyAt(g, (r, c)) == Some(k)
    ensures GroupedBefore(g, groups[k := groups[k] + [(r, c)]], (r, c + 1))
  {
    assert (r, c) !in groups[k] by {
      assert !Before((r, c), (r, c));
    }
    DistinctSnoc(groups[k], (r, c));
    var next := groups[k := groups[k] + [(r, c)]];
    forall k': nat, p: Pos | k' < NbKeys
      ensures p in next[k'] <==> InGrid(p, |g|, |g[0]|) && Before(p, (r, c + 1)) && KeyAt(g, p) == Some(k')
    {
      assert Before(p, (r, c + 1)) <==> Before(p, (r, c)) || p == (r, c);
    }
  }

  /** A cell without an antenna changes no group. */
  lemma GroupedSkip(g: Grid, groups: seq<seq<Pos>>, r: nat, c: nat)
    requires IsGrid(g) && r < |g| && c < |g[0]| && GroupedBefore(g, groups, (r, c))
    requires KeyAt(g, (r, c)).None?
    ensures GroupedBefore(g, groups, (r, c + 1))
  {
    forall k: nat, p: Pos | k < NbKeys
      ensures p in groups[k] <==> InGrid(p, |g|, |g[0]|) && Before(p, (r, c + 1)) && KeyAt(g, p) == Some(k)
    {
      assert Before(p, (r, c + 1)) <==> Before(p, (r, c)) || p == (r, c);
    }
  }

  // ---------------------------------------------------------------------------------------------
  // The antinodes the marking loop visits, in its order: group by group, then ordered pairs.

  /** Pair `(i, j)` of a group contributes its antinode when it lies on the map. */
  function PairAntinode(group: seq<Pos>, i: nat, j: nat, nbRows: int, nbCols: int): set<Pos>
    requires i < |group| && j < |group|
  {
    var p := Antinode(group[i], group[j]);
    if i != j && InGrid(p, nbRows, nbCols) then {p} else {}
  }

  /** Antinodes of the pairs `(i, j')` with `j' < j`. */
  function PairsFrom(group: seq<Pos>, i: nat, j: nat, nbRows: int, nbCols: int): set<Pos>
    requires i < |group| && j <= |group|
  {
    if j == 0 then {} else PairsFrom(group, i, j - 1, nbRows, nbCols) + PairAntinode(group, i, j - 1, nbRows, nbCols)
  }

  /** Antinodes of the pairs whose first antenna comes before `i` (`permutations(2)`). */
  function GroupPairs(group: seq<Pos>, i: nat, nbRows: int, nbCols: int): set<Pos>
    requires i <= |group|
  {
    if i == 0 then {} else GroupPairs(group, i - 1, nbRows, nbCols) + PairsFrom(group, i - 1, |group|, nbRows, nbCols)
  }

  /** Antinodes of the first `k` groups. */
  function AllPairs(groups: seq<seq<Pos>>, k: nat, nbRows: int, nbCols: int): set<Pos>
    requires k <= |groups|
  {
    if k == 0 then {}
    else AllPairs(groups, k - 1, nbRows, nbCols) + GroupPairs(groups[k - 1], |groups[k - 1]|, nbRows, nbCols)
  }

  lemma {:induction false} PairsFromMember(group: seq<Pos>, i: nat, j: nat, nbRows: int, nbCols: int, p: Pos)
    requires i < |group| && j <= |group|
    ensures p in PairsFrom(group, i, j, nbRows, nbCols) <==>
      exists j' :: 0 <= j' < j && j' != i && InGrid(p, nbRows, nbCols) && p == Antinode(group[i], group[j'])
  {
    if j > 0 {
      PairsFromMember(group, i, j - 1, nbRows, nbCols, p);
    }
  }

  lemma {:induction false} GroupPairsMember(group: seq<Pos>, i: nat, nbRows: int, nbCols: int, p: Pos)
    requires i <= |group|
    ensures p in GroupPairs(group, i, nbRows, nbCols) <==>
      exists i', j' :: 0 <= i' < i && 0 <= j' < |group| && j' != i' && InGrid(p, nbRows, nbCols)
        && p == Antinode(group[i'], group[j'])
  {
    if i > 0 {
      GroupPairsMember(group, i - 1, nbRows, nbCols, p);
      PairsFromMember(group, i - 1, |group|, nbRows, nbCols, p);
    }
  }

  lemma {:induction false} AllPairsMember(groups: seq<seq<Pos>>, k: nat, nbRows: int, nbCols: int, p: Pos)
    requires k <= |groups|
    ensures p in AllPairs(groups, k, nbRows, nbCols) <==>
      exists k', i', j' :: 0 <= k' < k && 0 <= i' < |groups[k']| && 0 <= j' < |groups[k']| && j' != i'
        && InGrid(p, nbRows, nbCols) && p == Antinode(groups[k'][i'], groups[k'][j'])
  {
    if k > 0 {
      AllPairsMember(groups, k - 1, nbRows, nbCols, p);
      GroupPairsMember(groups[k - 1], |groups[k - 1]|, nbRows, nbCols, p);
    }
  }

  /** The antinodes found from the groups are exactly the antinode cells of the map. */
  lemma AllPairsAreAntinodes(g: Grid, groups: seq<seq<Pos>>)
    requires IsGrid(g) && Grouped(g, groups)
    ensures AllPairs(groups, NbKeys, |g|, |g[0]|) == AntinodeCells(g)
  {
    forall p | p in AllPairs(groups, NbKeys, |g|, |g[0]|)
      ensures p in AntinodeCells(g)
    {
      PairIsAntinode(g, groups, p);
    }
    forall p | p in AntinodeCells(g)
      ensures p in AllPairs(groups, NbKeys, |g|, |g[0]|)
    {
      AntinodeIsPair(g, groups, p);
    }
  }

  /** Each antinode found from a group belongs to two distinct antennas of one frequency. */
  lemma PairIsAntinode(g: Grid, groups: seq<seq<Pos>>, p: Pos)
    requires IsGrid(g) && Grouped(g, groups) && p in AllPairs(groups, NbKeys, |g|, |g[0]|)
    ensures p in AntinodeCells(g)
  {
    var nbRows, nbCols := |g|, |g[0]|;
    AllPairsMember(groups, NbKeys, nbRows, nbCols, p);
    var k, i, j :| 0 <= k < NbKeys && 0 <= i < |groups[k]| && 0 <= j < |groups[k]| && j != i
      && InGrid(p, nbRows, nbCols) && p == Antinode(groups[k][i], groups[k][j]);
    var a, b := groups[k][i], groups[k][j];
    assert a in groups[k] && b in groups[k];
    assert a != b by {
      assert Distinct(groups[k]);
    }
    assert IsAntinode(g, p);
  }

  /** Each antinode cell of the map is found from the group of its two antennas. */
  lemma AntinodeIsPair(g: Grid, groups: seq<seq<Pos>>, p: Pos)
    requires IsGrid(g) && Grouped(g, groups) && p in AntinodeCells(g)
    ensures p in AllPairs(groups, NbKeys, |g|, |g[0]|)
  {
    var nbRows, nbCols := |g|, |g[0]|;
    var a: Pos, b: Pos :| InGrid(a, nbRows, nbCols) && InGrid(b, nbRows, nbCols) && a != b
      && KeyAt(g, a).Some? && KeyAt(g, a) == KeyAt(g, b) && p == Antinode(a, b);
    var k := KeyAt(g, a).value;
    assert a in groups[k] && b in groups[k];
    var i :| 0 <= i < |groups[k]| && groups[k][i] == a;
    var j :| 0 <= j < |groups[k]| && groups[k][j] == b;
    AllPairsMember(groups, NbKeys, nbRows, nbCols, p);
  }

  // ---------------------------------------------------------------------------------------------
  // Marking the presence map.

  /** The presence map marks exactly the cells of `marked`. */
  ghost predicate Marks(presence: array2<bool>, marked: set<Pos>)
    reads presence
  {
    && (forall p :: p in marked ==> InGrid(p, presence.Length0, presence.Length1))
    && forall r, c :: 0 <= r < presence.Length0 && 0 <= c < presence.Length1 ==>
         (presence[r, c] <==> (r, c) in marked)
  }

  /** The inner loops over `permutations(2)` of one group. */
  method MarkGroup(presence: array2<bool>, group: seq<Pos>, ghost marked: set<Pos>)
    modifies presence
    requires Marks(presence, marked)
    ensures Marks(presence, marked + GroupPairs(group, |group|, presence.Length0, presence.Length1))
  {
    for i := 0 to |group|
      invariant Marks(presence, marked + GroupPairs(group, i, presence.Length0, presence.Length1))
    {
      MarkFrom(presence, group, i, marked + GroupPairs(group, i, presence.Length0, presence.Length1));
    }
  }

  /** The pairs whose first antenna is `group[i]`. */
  method MarkFrom(presence: array2<bool>, group: seq<Pos>, i: nat, ghost marked: set<Pos>)
    modifies presence
    requires i < |group| && Marks(presence, marked)
    ensures Marks(presence, marked + PairsFrom(group, i, |group|, presence.Length0, presence.Length1))
  {
    for j := 0 to |group|
      invariant Marks(presence, marked + PairsFrom(group, i, j, presence.Length0, presence.Length1))
    {
      if i != j {
        var p := Antinode(group[i], group[j]);
        if 0 <= p.0 && 0 <= p.1 && p.0 < presence.Length0 && p.1 < presence.Length1 {
          presence[p.0, p.1] := true;
        }
      }
    }
  }

  /** The loop over the groups: afterwards the map marks every antinode of every group. */
  method MarkAntinodes(groups: seq<seq<Pos>>, nbRows: nat, nbCols: nat) returns (presence: array2<bool>)
    ensures presence.Length0 == nbRows && presence.Length1 == nbCols
    ensures Marks(presence, AllPairs(groups, |groups|, nbRows, nbCols))
  {
    presence := new bool[nbRows, nbCols]((_, _) => false);
    for k := 0 to |groups|
      invariant Marks(presence, AllPairs(groups, k, nbRows, nbCols))
    {
      MarkGroup(presence, groups[k], AllPairs(groups, k, nbRows, nbCols));
    }
  }

  /** The final `filter(..).count()`: the number of marked cells. */
  method CountPresent(presence: array2<bool>, ghost marked: set<Pos>) returns (n: nat)
    requires Marks(presence, marked)
    ensures n == |marked| && n <= presence.Length0 * presence.Length1
  {
    n := 0;
    ghost var seen: set<Pos> := {};
    for r := 0 to presence.Length0
      invariant forall p :: p in seen <==> p in marked && p.0 < r
      invariant n == |seen| && n <= r * presence.Length1
    {
      n, seen := CountRow(presence, marked, r, n, seen);
    }
    assert seen == marked;
  }

  method CountRow(presence: array2<bool>, ghost marked: set<Pos>, r: nat, n0: nat, ghost seen0: set<Pos>)
    returns (n: nat, ghost seen: set<Pos>)
    requires Marks(presence, marked) && r < presence.Length0
    requires forall p :: p in seen0 <==> p in marked && p.0 < r
    requires n0 == |seen0| && n0 <= r * presence.Length1
    ensures forall p :: p in seen <==> p in marked && p.0 < r + 1
    ensures n == |seen| && n <= (r + 1) * presence.Length1
  {
    n, seen := n0, seen0;
    for c := 0 to presence.Length1
      invariant forall p :: p in seen <==> p in marked && (p.0 < r || (p.0 == r && p.1 < c))
      invariant n == |seen| && n <= r * presence.Length1 + c
    {
      if presence[r, c] {
        assert (r, c) !in seen;
        seen := seen + {(r, c)};
        n := n + 1;
      }
    }
  }

  /**
   * `day_08_part_1` with the bounds check on the intended axes (see the findings): the number
   * of antinode cells of the map, which is at most the number of cells.
   */
  method Part1(g: Grid) returns (count: nat)
    requires IsGrid(g)
    ensures count == |AntinodeCells(g)| && count <= |g| * |g[0]|
  {
    var groups := GroupAntennas(g);
    var presence := MarkAntinodes(groups, |g|, |g[0]|);
    count := CountPresent(presence, AllPairs(groups, |groups|, |g|, |g[0]|));
    AllPairsAreAntinodes(g, groups);
  }

  // ---------------------------------------------------------------------------------------------
  // The bounds check as written: positions are destructured as `(col, row)` although they are
  // `(row, col)`, so the row is compared with the number of columns and vice versa.

  predicate AsWrittenInGrid(p: Pos, nbRows: int, nbCols: int)
  {
    p.0 >= 0 && p.1 >= 0 && p.0 < nbCols && p.1 < nbRows
  }

  /** On a square map the swapped check is the right one, which is why the tests pass. */
  lemma SquareGridsAgree(p: Pos, n: int)
    ensures AsWrittenInGrid(p, n, n) <==> InGrid(p, n, n)
  {
  }

  /**
   * On the one-row map "aa." the antinode of (0,1) seen from (0,0) is (0,2), a cell of the map,
   * but the swapped check rejects it (the source would miss it); on maps with more columns than
   * rows the swapped check also lets through rows past the last one, where the source's
   * indexing would panic.
   */
  lemma SwappedCheckMissesAntinode()
    ensures IsGrid(["aa."]) && IsAntinode(["aa."], (0, 2))
    ensures !AsWrittenInGrid(Antinode((0, 1), (0, 0)), 1, 3)
    ensures AsWrittenInGrid((2, 0), 2, 3) && !InGrid((2, 0), 2, 3)
  {
    assert KeyAt(["aa."], (0, 1)) == KeyAt(["aa."], (0, 0)) == Some(26);
    assert (0, 2) == Antinode((0, 1), (0, 0));
  }
}
