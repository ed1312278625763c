/**
 * Day 21: typing a door code through a chain of robots. A robot at a numeric keypad is steered
 * from a directional keypad, which another robot types on, and so on. Each keypad gets a table of
 * the moves between any two keys: all horizontal moves then all vertical ones, or the reverse,
 * leaving out the order that would pass over the pad's missing corner. The shortest number of
 * presses at the top of a chain of directional pads is found by splitting a sequence after each
 * `A`, expanding every chunk in all ways and taking the cheapest expansion one level down.
 */
module Day21 {
  import opened Common

  /** A key position, row then column. */
  type Pos = (int, int)

  datatype Pad = Numeric | Directional

  /** The keys of a pad, in the order the source's `CHARS` lists them. */
  function Keys(pad: Pad): seq<char>
  {
    match pad
    case Numeric => ['0', '1', '2', '3', '4', '5', '6', '7', '8', '9', 'A']
    case Directional => ['^', 'v', '<', '>', 'A']
  }

  predicate IsKey(pad: Pad, c: char)
  {
    c in Keys(pad)
  }

  /** A string made only of keys of the pad. */
  predicate AllKeys(pad: Pad, s: string)
  {
    forall c :: c in s ==> IsKey(pad, c)
  }

  lemma {:induction false} AllKeysTail(pad: Pad, s: string)
    requires AllKeys(pad, s) && s != []
    ensures IsKey(pad, s[0]) && AllKeys(pad, s[1..])
  {
    assert s[0] in s;
    forall c | c in s[1..]
      ensures IsKey(pad, c)
    {
      assert c in s;
    }
  }

  lemma {:induction false} AllKeysDrop(pad: Pad, s: string, k: nat)
    requires AllKeys(pad, s) && k <= |s|
    ensures AllKeys(pad, s[k..])
  {
    forall c | c in s[k..]
      ensures IsKey(pad, c)
    {
      assert c in s;
    }
  }

  /** The missing corner: bottom left of the numeric pad, top left of the directional pad. */
  function Gap(pad: Pad): Pos
  {
    match pad
    case Numeric => (3, 0)
    case Directional => (0, 0)
  }

  /** The cells of the pad's rectangle: four rows of three, or two rows of three. */
  predicate InPad(pad: Pad, p: Pos)
  {
    && 0 <= p.1 <= 2
    && match pad
       case Numeric => 0 <= p.0 <= 3
       case Directional => 0 <= p.0 <= 1
  }

  /** `char_to_keypad_position` and `char_to_directional_pad_position`; other characters panic. */
  function Position(pad: Pad, c: char): (p: Pos)
    requires IsKey(pad, c)
    ensures InPad(pad, p) && p != Gap(pad)
  {
    match pad
    case Numeric =>
      if c == '0' then (3, 1)
      else if c == '1' then (2, 0)
      else if c == '2' then (2, 1)
      else if c == '3' then (2, 2)
      else if c == '4' then (1, 0)
      else if c == '5' then (1, 1)
      else if c == '6' then (1, 2)
      else if c == '7' then (0, 0)
      else if c == '8' then (0, 1)
      else if c == '9' then (0, 2)
      else (3, 2)
    case Directional =>
      if c == '^' then (0, 1)
      else if c == 'v' then (1, 1)
      else if c == '<' then (1, 0)
      else if c == '>' then (1, 2)
      else (0, 2)
  }

  /** The key on a cell of the pad other than the gap. */
  function KeyAt(pad: Pad, p: Pos): char
    requires InPad(pad, p) && p != Gap(pad)
  {
    match pad
    case Numeric =>
      if p == (3, 1) then '0' else if p == (2, 0) then '1' else if p == (2, 1) then '2'
      else if p == (2, 2) then '3' else if p == (1, 0) then '4' else if p == (1, 1) then '5'
      else if p == (1, 2) then '6' else if p == (0, 0) then '7' else if p == (0, 1) then '8'
      else if p == (0, 2) then '9' else 'A'
    case Directional =>
      if p == (0, 1) then '^' else if p == (1, 1) then 'v' else if p == (1, 0) then '<'
      else if p == (1, 2) then '>' else 'A'
  }

  /** Different keys sit on different cells: the key is read back from its position. */
  lemma {:induction false} KeyAtPosition(pad: Pad, c: char)
    requires IsKey(pad, c)
    ensures KeyAt(pad, Position(pad, c)) == c
  {
    assert c in Keys(pad);
  }

  /** The position maps are injective. */
  lemma {:induction false} PositionInjective(pad: Pad, a: char, b: char)
    requires IsKey(pad, a) && IsKey(pad, b) && Position(pad, a) == Position(pad, b)
    ensures a == b
  {
    KeyAtPosition(pad, a);
    KeyAtPosition(pad, b);
  }

  /** Every cell of the pad but the gap holds a key. */
  lemma {:induction false} PositionKeyAt(pad: Pad, p: Pos)
    requires InPad(pad, p) && p != Gap(pad)
    ensures IsKey(pad, KeyAt(pad, p)) && Position(pad, KeyAt(pad, p)) == p
  {
    match pad
    case Numeric =>
      assert p.0 == 0 || p.0 == 1 || p.0 == 2 || p.0 == 3;
    case Directional =>
      assert p.0 == 0 || p.0 == 1;
  }

  // ---------------------------------------------------------------------------------------------
  // Moves on a pad

  function Repeat(c: char, n: nat): (s: string)
  {
    seq(n, _ => c)
  }

  /** The cell a press moves the arm to; `A` presses and stays. */
  function Move(p: Pos, m: char): Pos
  {
    if m == '^' then (p.0 - 1, p.1)
    else if m == 'v' then (p.0 + 1, p.1)
    else if m == '<' then (p.0, p.1 - 1)
    else if m == '>' then (p.0, p.1 + 1)
    else p
  }

  /** `n` presses of `m` in a row. */
  function Shifted(p: Pos, m: char, n: nat): Pos
  {
    if m == '^' then (p.0 - n, p.1)
    else if m == 'v' then (p.0 + n, p.1)
    else if m == '<' then (p.0, p.1 - n)
    else if m == '>' then (p.0, p.1 + n)
    else p
  }

  /** Where a sequence of presses leaves the arm. */
  function End(p: Pos, moves: string): Pos
    decreases |moves|
  {
    if moves == [] then p else Move(End(p, moves[..|moves| - 1]), moves[|moves| - 1])
  }

  lemma {:induction false} EndAppend(p: Pos, a: string, b: string)
    ensures End(p, a + b) == End(End(p, a), b)
    decreases |b|
  {
    if b == [] {
      assert a + b == a;
    } else {
      var b' := b[..|b| - 1];
      assert (a + b)[..|a + b| - 1] == a + b';
      EndAppend(p, a, b');
    }
  }

  lemma {:induction false} EndRepeat(p: Pos, m: char, n: nat)
    ensures End(p, Repeat(m, n)) == Shifted(p, m, n)
  {
    if n > 0 {
      assert Repeat(m, n)[..n - 1] == Repeat(m, n - 1);
      EndRepeat(p, m, n - 1);
    }
  }

  /** The arm never stands on `gap`, before, during or after the presses. */
  ghost predicate Avoids(p: Pos, moves: string, gap: Pos)
  {
    forall k :: 0 <= k <= |moves| ==> End(p, moves[..k]) != gap
  }

  /** A move along one axis and then along the other, finished with `A`. */
  function TwoLegs(m1: char, n1: nat, m2: char, n2: nat): string
  {
    Repeat(m1, n1) + Repeat(m2, n2) + ['A']
  }

  /** Where a prefix of a two-leg route leaves the arm. */
  lemma {:induction false} TwoLegsPrefix(p: Pos, m1: char, n1: nat, m2: char, n2: nat, k: nat)
    requires k <= n1 + n2 + 1
    ensures End(p, TwoLegs(m1, n1, m2, n2)[..k]) ==
      if k <= n1 then Shifted(p, m1, k)
      else if k <= n1 + n2 then Shifted(Shifted(p, m1, n1), m2, k - n1)
      else Shifted(Shifted(p, m1, n1), m2, n2)
  {
    var r := TwoLegs(m1, n1, m2, n2);
    if k <= n1 {
      assert r[..k] == Repeat(m1, k);
      EndRepeat(p, m1, k);
    } else if k <= n1 + n2 {
      assert r[..k] == Repeat(m1, n1) + Repeat(m2, k - n1);
      EndAppend(p, Repeat(m1, n1), Repeat(m2, k - n1));
      EndRepeat(p, m1, n1);
      EndRepeat(Shifted(p, m1, n1), m2, k - n1);
    } else {
      assert r[..k] == Repeat(m1, n1) + Repeat(m2, n2) + ['A'];
      assert r[..k][..k - 1] == Repeat(m1, n1) + Repeat(m2, n2);
      EndAppend(p, Repeat(m1, n1), Repeat(m2, n2));
      EndRepeat(p, m1, n1);
      EndRepeat(Shifted(p, m1, n1), m2, n2);
    }
  }

  // ---------------------------------------------------------------------------------------------
  // The route tables

  function RowLetter(s: Pos, t: Pos): char
  {
    if s.0 < t.0 then 'v' else '^'
  }

  function ColLetter(s: Pos, t: Pos): char
  {
    if s.1 < t.1 then '>' else '<'
  }

  function HorizontalFirst(s: Pos, t: Pos): string
  {
    TwoLegs(ColLetter(s, t), Abs(t.1 - s.1), RowLetter(s, t), Abs(t.0 - s.0))
  }

  function VerticalFirst(s: Pos, t: Pos): string
  {
    TwoLegs(RowLetter(s, t), Abs(t.0 - s.0), ColLetter(s, t), Abs(t.1 - s.1))
  }

  /** The horizontal-first route is kept unless it starts on the gap's row and ends in its column. */
  predicate KeepsHorizontal(pad: Pad, s: Pos, t: Pos)
  {
    s.0 != Gap(pad).0 || t.1 != 0
  }

  /** The vertical-first route is kept unless it starts in the gap's column and ends on its row. */
  predicate KeepsVertical(pad: Pad, s: Pos, t: Pos)
  {
    s.1 != 0 || t.0 != Gap(pad).0
  }

  /**
   * The routes the tables hold for a pair of keys: horizontal first, then vertical first. Outside
   * the pad's keys, where the source panics, there are none.
   */
  function Routes(pad: Pad, a: char, b: char): (r: seq<string>)
    ensures IsKey(pad, a) && IsKey(pad, b) ==> 1 <= |r| <= 2
  {
    if IsKey(pad, a) && IsKey(pad, b) then RoutesBetween(pad, Position(pad, a), Position(pad, b)) else []
  }

  /** The kept orders between two cells. */
  function RoutesBetween(pad: Pad, s: Pos, t: Pos): seq<string>
  {
    (if KeepsHorizontal(pad, s, t) then [HorizontalFirst(s, t)] else [])
    + (if KeepsVertical(pad, s, t) then [VerticalFirst(s, t)] else [])
  }

  /** Every route is typed on the directional pad and holds at least the final `A`. */
  lemma {:induction false} RoutesTyped(pad: Pad, a: char, b: char)
    ensures forall i :: 0 <= i < |Routes(pad, a, b)| ==> AllKeys(Directional, Routes(pad, a, b)[i]) && |Routes(pad, a, b)[i]| >= 1
  {
    if IsKey(pad, a) && IsKey(pad, b) {
      var s, t := Position(pad, a), Position(pad, b);
      TwoLegsTyped(ColLetter(s, t), Abs(t.1 - s.1), RowLetter(s, t), Abs(t.0 - s.0));
      TwoLegsTyped(RowLetter(s, t), Abs(t.0 - s.0), ColLetter(s, t), Abs(t.1 - s.1));
    }
  }

  lemma {:induction false} TwoLegsTyped(m1: char, n1: nat, m2: char, n2: nat)
    requires IsKey(Directional, m1) && IsKey(Directional, m2)
    ensures AllKeys(Directional, TwoLegs(m1, n1, m2, n2)) && |TwoLegs(m1, n1, m2, n2)| >= 1
  {
    var r := TwoLegs(m1, n1, m2, n2);
    forall c | c in r
      ensures IsKey(Directional, c)
    {
      var k :| 0 <= k < |r| && r[k] == c;
      assert c == m1 || c == m2 || c == 'A';
    }
  }

  /** A route of length distance + 1 that ends with `A`, ends on `t` and never crosses the gap. */
  ghost predicate SoundRoute(pad: Pad, s: Pos, t: Pos, r: string)
  {
    && |r| == Abs(t.0 - s.0) + Abs(t.1 - s.1) + 1
    && r[|r| - 1] == 'A'
    && End(s, r) == t
    && Avoids(s, r, Gap(pad))
  }

  predicate Between(x: int, a: int, b: int)
  {
    (a <= x <= b) || (b <= x <= a)
  }

  /** `k` presses along a row towards column `target` stay between the two columns. */
  lemma {:induction false} ColLeg(p: Pos, target: int, k: nat)
    requires k <= Abs(target - p.1)
    ensures var q := Shifted(p, if p.1 < target then '>' else '<', k);
      q.0 == p.0 && Between(q.1, p.1, target) && (k == Abs(target - p.1) ==> q.1 == target)
  {
  }

  /** `k` presses along a column towards row `target` stay between the two rows. */
  lemma {:induction false} RowLeg(p: Pos, target: int, k: nat)
    requires k <= Abs(target - p.0)
    ensures var q := Shifted(p, if p.0 < target then 'v' else '^', k);
      q.1 == p.1 && Between(q.0, p.0, target) && (k == Abs(target - p.0) ==> q.0 == target)
  {
  }

  /** The gap lies on the pad's outermost row, so a row between two key rows is the gap's only at an end. */
  lemma {:induction false} GapRowOutermost(pad: Pad, s: Pos, t: Pos, r: int)
    requires InPad(pad, s) && InPad(pad, t) && Between(r, s.0, t.0) && r == Gap(pad).0
    ensures r == s.0 || r == t.0
  {
  }

  /** Where a prefix of the horizontal-first route leaves the arm: on the start's row, then on the target's column. */
  lemma {:induction false} HorizontalEnd(s: Pos, t: Pos, k: nat)
    requires k <= Abs(t.1 - s.1) + Abs(t.0 - s.0) + 1
    ensures var q := End(s, HorizontalFirst(s, t)[..k]);
      || (q.0 == s.0 && Between(q.1, s.1, t.1))
      || (q.1 == t.1 && Between(q.0, s.0, t.0))
    ensures k == Abs(t.1 - s.1) + Abs(t.0 - s.0) + 1 ==> End(s, HorizontalFirst(s, t)[..k]) == t
  {
    var n1, n2 := Abs(t.1 - s.1), Abs(t.0 - s.0);
    TwoLegsPrefix(s, ColLetter(s, t), n1, RowLetter(s, t), n2, k);
    if k <= n1 {
      ColLeg(s, t.1, k);
    } else {
      ColLeg(s, t.1, n1);
      RowLeg((s.0, t.1), t.0, if k <= n1 + n2 then k - n1 else n2);
    }
  }

  /** Where a prefix of the vertical-first route leaves the arm: on the start's column, then on the target's row. */
  lemma {:induction false} VerticalEnd(s: Pos, t: Pos, k: nat)
    requires k <= Abs(t.0 - s.0) + Abs(t.1 - s.1) + 1
    ensures var q := End(s, VerticalFirst(s, t)[..k]);
      || (q.1 == s.1 && Between(q.0, s.0, t.0))
      || (q.0 == t.0 && Between(q.1, s.1, t.1))
    ensures k == Abs(t.0 - s.0) + Abs(t.1 - s.1) + 1 ==> End(s, VerticalFirst(s, t)[..k]) == t
  {
    var n1, n2 := Abs(t.0 - s.0), Abs(t.1 - s.1);
    TwoLegsPrefix(s, RowLetter(s, t), n1, ColLetter(s, t), n2, k);
    if k <= n1 {
      RowLeg(s, t.0, k);
    } else {
      RowLeg(s, t.0, n1);
      ColLeg((t.0, s.1), t.1, if k <= n1 + n2 then k - n1 else n2);
    }
  }

  /** A cell on the start's row between the columns, or on the target's column between the rows, is not the gap. */
  lemma {:induction false} HorizontalMissesGap(pad: Pad, s: Pos, t: Pos, q: Pos)
    requires InPad(pad, s) && InPad(pad, t) && s != Gap(pad) && t != Gap(pad) && KeepsHorizontal(pad, s, t)
    requires (q.0 == s.0 && Between(q.1, s.1, t.1)) || (q.1 == t.1 && Between(q.0, s.0, t.0))
    ensures q != Gap(pad)
  {
    if q.1 == t.1 && Between(q.0, s.0, t.0) && q.0 == Gap(pad).0 {
      GapRowOutermost(pad, s, t, q.0);
    }
  }

  /** A cell on the start's column between the rows, or on the target's row between the columns, is not the gap. */
  lemma {:induction false} VerticalMissesGap(pad: Pad, s: Pos, t: Pos, q: Pos)
    requires InPad(pad, s) && InPad(pad, t) && s != Gap(pad) && t != Gap(pad) && KeepsVertical(pad, s, t)
    requires (q.1 == s.1 && Between(q.0, s.0, t.0)) || (q.0 == t.0 && Between(q.1, s.1, t.1))
    ensures q != Gap(pad)
  {
    if q.1 == s.1 && Between(q.0, s.0, t.0) && q.0 == Gap(pad).0 {
      GapRowOutermost(pad, s, t, q.0);
    }
  }

  /** The prefixes of the horizontal-first route miss the gap, and the whole route ends on the target. */
  lemma {:induction false} HorizontalPrefix(pad: Pad, s: Pos, t: Pos, k: nat)
    requires InPad(pad, s) && InPad(pad, t) && s != Gap(pad) && t != Gap(pad) && KeepsHorizontal(pad, s, t)
    requires k <= Abs(t.1 - s.1) + Abs(t.0 - s.0) + 1
    ensures End(s, HorizontalFirst(s, t)[..k]) != Gap(pad)
    ensures k == Abs(t.1 - s.1) + Abs(t.0 - s.0) + 1 ==> End(s, HorizontalFirst(s, t)[..k]) == t
  {
    HorizontalEnd(s, t, k);
    HorizontalMissesGap(pad, s, t, End(s, HorizontalFirst(s, t)[..k]));
  }

  /** The prefixes of the vertical-first route miss the gap, and the whole route ends on the target. */
  lemma {:induction false} VerticalPrefix(pad: Pad, s: Pos, t: Pos, k: nat)
    requires InPad(pad, s) && InPad(pad, t) && s != Gap(pad) && t != Gap(pad) && KeepsVertical(pad, s, t)
    requires k <= Abs(t.0 - s.0) + Abs(t.1 - s.1) + 1
    ensures End(s, VerticalFirst(s, t)[..k]) != Gap(pad)
    ensures k == Abs(t.0 - s.0) + Abs(t.1 - s.1) + 1 ==> End(s, VerticalFirst(s, t)[..k]) == t
  {
    VerticalEnd(s, t, k);
    VerticalMissesGap(pad, s, t, End(s, VerticalFirst(s, t)[..k]));
  }

  lemma {:induction false} HorizontalFirstSound(pad: Pad, s: Pos, t: Pos)
    requires InPad(pad, s) && InPad(pad, t) && s != Gap(pad) && t != Gap(pad) && KeepsHorizontal(pad, s, t)
    ensures SoundRoute(pad, s, t, HorizontalFirst(s, t))
  {
    var r := HorizontalFirst(s, t);
    forall k | 0 <= k <= |r|
      ensures End(s, r[..k]) != Gap(pad)
    {
      HorizontalPrefix(pad, s, t, k);
    }
    HorizontalPrefix(pad, s, t, |r|);
    assert r[..|r|] == r;
  }

  lemma {:induction false} VerticalFirstSound(pad: Pad, s: Pos, t: Pos)
    requires InPad(pad, s) && InPad(pad, t) && s != Gap(pad) && t != Gap(pad) && KeepsVertical(pad, s, t)
    ensures SoundRoute(pad, s, t, VerticalFirst(s, t))
  {
    var r := VerticalFirst(s, t);
    forall k | 0 <= k <= |r|
      ensures End(s, r[..k]) != Gap(pad)
    {
      VerticalPrefix(pad, s, t, k);
    }
    VerticalPrefix(pad, s, t, |r|);
    assert r[..|r|] == r;
  }

  /** Every route of the table leads from `a` to `b` in distance + 1 presses and never crosses the gap. */
  lemma {:induction false} RoutesSound(pad: Pad, a: char, b: char, i: nat)
    requires IsKey(pad, a) && IsKey(pad, b) && i < |Routes(pad, a, b)|
    ensures SoundRoute(pad, Position(pad, a), Position(pad, b), Routes(pad, a, b)[i])
  {
    RoutesBetweenSound(pad, Position(pad, a), Position(pad, b), i);
  }

  lemma {:induction false} RoutesBetweenSound(pad: Pad, s: Pos, t: Pos, i: nat)
    requires InPad(pad, s) && InPad(pad, t) && s != Gap(pad) && t != Gap(pad) && i < |RoutesBetween(pad, s, t)|
    ensures SoundRoute(pad, s, t, RoutesBetween(pad, s, t)[i])
  {
    if KeepsHorizontal(pad, s, t) {
      HorizontalFirstSound(pad, s, t);
    }
    if KeepsVertical(pad, s, t) {
      VerticalFirstSound(pad, s, t);
    }
  }

  /** Both orders are kept except where one would cross the gap. */
  lemma {:induction false} RoutesKeepSafe(pad: Pad, a: char, b: char)
    requires IsKey(pad, a) && IsKey(pad, b)
    ensures var s, t := Position(pad, a), Position(pad, b);
      && (Avoids(s, HorizontalFirst(s, t), Gap(pad)) ==> HorizontalFirst(s, t) in Routes(pad, a, b))
      && (Avoids(s, VerticalFirst(s, t), Gap(pad)) ==> VerticalFirst(s, t) in Routes(pad, a, b))
  {
    var s, t := Position(pad, a), Position(pad, b);
    var g := Gap(pad);
    if !KeepsHorizontal(pad, s, t) {
      var n1 := Abs(t.1 - s.1);
      TwoLegsPrefix(s, ColLetter(s, t), n1, RowLetter(s, t), Abs(t.0 - s.0), n1);
      assert End(s, HorizontalFirst(s, t)[..n1]) == g;
    }
    if !KeepsVertical(pad, s, t) {
      var n1 := Abs(t.0 - s.0);
      TwoLegsPrefix(s, RowLetter(s, t), n1, ColLetter(s, t), Abs(t.1 - s.1), n1);
      assert End(s, VerticalFirst(s, t)[..n1]) == g;
    }
  }

  /** The source's `HashMap` from a pair of keys to the routes between them. */
  type Table = map<(char, char), seq<string>>

  /** A route table: every pair of keys of the pad maps to its routes, and nothing else is in it. */
  ghost predicate PadPaths(pad: Pad, paths: Table)
  {
    && Covers(pad, paths)
    && (forall a, b :: IsKey(pad, a) && IsKey(pad, b) ==> paths[(a, b)] == Routes(pad, a, b))
    && (forall k :: k in paths ==> IsKey(pad, k.0) && IsKey(pad, k.1))
  }

  /** The table has an entry for every pair of the pad's keys, so the source's lookups succeed. */
  ghost predicate Covers(pad: Pad, paths: Table)
  {
    forall a, b :: IsKey(pad, a) && IsKey(pad, b) ==> (a, b) in paths
  }

  /** The horizontal-first loops of the builders. */
  method HorizontalFirstPath(s: Pos, t: Pos) returns (path: string)
    ensures path == HorizontalFirst(s, t)
  {
    var directionRow := if s.0 < t.0 then 1 else -1;
    var directionCol := if s.1 < t.1 then 1 else -1;
    var letterRow := if directionRow == 1 then 'v' else '^';
    var letterCol := if directionCol == 1 then '>' else '<';
    path := [];
    var row, col := s.0, s.1;
    while col != t.1
      invariant path == Repeat(letterCol, Abs(col - s.1))
      invariant if directionCol == 1 then s.1 <= col <= t.1 else t.1 <= col <= s.1
      decreases Abs(t.1 - col)
    {
      path := path + [letterCol];
      col := col + directionCol;
    }
    var cols := path;
    while row != t.0
      invariant path == cols + Repeat(letterRow, Abs(row - s.0))
      invariant if directionRow == 1 then s.0 <= row <= t.0 else t.0 <= row <= s.0
      decreases Abs(t.0 - row)
    {
      path := path + [letterRow];
      row := row + directionRow;
    }
    path := path + ['A'];
  }

  /** The vertical-first loops of the builders. */
  method VerticalFirstPath(s: Pos, t: Pos) returns (path: string)
    ensures path == VerticalFirst(s, t)
  {
    var directionRow := if s.0 < t.0 then 1 else -1;
    var directionCol := if s.1 < t.1 then 1 else -1;
    var letterRow := if directionRow == 1 then 'v' else '^';
    var letterCol := if directionCol == 1 then '>' else '<';
    path := [];
    var row, col := s.0, s.1;
    while row != t.0
      invariant path == Repeat(letterRow, Abs(row - s.0))
      invariant if directionRow == 1 then s.0 <= row <= t.0 else t.0 <= row <= s.0
      decreases Abs(t.0 - row)
    {
      path := path + [letterRow];
      row := row + directionRow;
    }
    var rows := path;
    while col != t.1
      invariant path == rows + Repeat(letterCol, Abs(col - s.1))
      invariant if directionCol == 1 then s.1 <= col <= t.1 else t.1 <= col <= s.1
      decreases Abs(t.1 - col)
    {
      path := path + [letterCol];
      col := col + directionCol;
    }
    path := path + ['A'];
  }

  /** The routes between one pair of keys, built as the body of the builders' inner loop. */
  method PairRoutes(pad: Pad, a: char, b: char) returns (routePaths: seq<string>)
    requires IsKey(pad, a) && IsKey(pad, b)
    ensures routePaths == Routes(pad, a, b)
  {
    var s, t := Position(pad, a), Position(pad, b);
    var gapRow := Gap(pad).0;
    routePaths := [];
    if s.0 != gapRow || t.1 != 0 {
      var h := HorizontalFirstPath(s, t);
      routePaths := routePaths + [h];
    }
    if s.1 != 0 || t.0 != gapRow {
      var v := VerticalFirstPath(s, t);
      routePaths := routePaths + [v];
    }
  }

  /** The table holds the right routes for each pair it holds. */
  ghost predicate HoldsRoutes(pad: Pad, paths: Table)
  {
    forall k :: k in paths ==> IsKey(pad, k.0) && IsKey(pad, k.1) && paths[k] == Routes(pad, k.0, k.1)
  }

  /** One row of the table: all pairs starting with `a`. */
  method BuildRow(pad: Pad, a: char, paths: Table) returns (paths': Table)
    requires IsKey(pad, a) && HoldsRoutes(pad, paths)
    ensures HoldsRoutes(pad, paths')
    ensures forall k :: k in paths' <==> k in paths || (k.0 == a && IsKey(pad, k.1))
  {
    var chars := Keys(pad);
    paths' := paths;
    for j := 0 to |chars|
      invariant HoldsRoutes(pad, paths')
      invariant forall k :: k in paths' <==> k in paths || (k.0 == a && k.1 in chars[..j])
    {
      var routePaths := PairRoutes(pad, a, chars[j]);
      paths' := paths'[(a, chars[j]) := routePaths];
      assert chars[..j + 1] == chars[..j] + [chars[j]];
    }
    assert chars[..|chars|] == chars;
  }

  /** `build_keypad_paths` and `build_directional_pad_paths`. */
  method BuildPadPaths(pad: Pad) returns (paths: Table)
    ensures PadPaths(pad, paths)
  {
    var chars := Keys(pad);
    paths := map[];
    for i := 0 to |chars|
      invariant HoldsRoutes(pad, paths)
      invariant forall k :: k in paths <==> k.0 in chars[..i] && IsKey(pad, k.1)
    {
      paths := BuildRow(pad, chars[i], paths);
      assert chars[..i + 1] == chars[..i] + [chars[i]];
    }
    assert chars[..|chars|] == chars;
  }

  // ---------------------------------------------------------------------------------------------
  // compute_minimum_pad_sequences

  function Concat(parts: seq<string>): string
  {
    if parts == [] then [] else parts[0] + Concat(parts[1..])
  }

  /** Every string of `e` with `c` put in front. */
  function PrefixAll(c: string, e: seq<string>): (r: seq<string>)
    ensures |r| == |e| && forall i :: 0 <= i < |e| ==> r[i] == c + e[i]
  {
    seq(|e|, i requires 0 <= i < |e| => c + e[i])
  }

  lemma {:induction false} PrefixAllAppend(c: string, a: seq<string>, b: seq<string>)
    ensures PrefixAll(c, a + b) == PrefixAll(c, a) + PrefixAll(c, b)
  {
  }

  lemma {:induction false} PrefixAllEmpty(e: seq<string>)
    ensures PrefixAll([], e) == e
  {
    forall i | 0 <= i < |e|
      ensures [] + e[i] == e[i]
    {
    }
  }

  lemma {:induction false} PrefixAllTwice(c: string, p: string, e: seq<string>)
    ensures PrefixAll(c, PrefixAll(p, e)) == PrefixAll(c + p, e)
  {
    forall i | 0 <= i < |e|
      ensures (c + p) + e[i] == c + (p + e[i])
    {
    }
  }

  /** The routes the table holds for a pair of keys, none off the table (where the source panics). */
  function Lookup(paths: Table, a: char, b: char): seq<string>
  {
    if (a, b) in paths then paths[(a, b)] else []
  }

  /**
   * The sequences `rec_compute_minimum_pad_sequence` collects for `keys` typed after `previous`:
   * one per way of choosing a route of the table for each pair, in the source's depth-first order.
   */
  function Expansions(paths: Table, keys: string, previous: char): seq<string>
    decreases |keys|, 1, 0
  {
    if keys == [] then [[]] else Branches(paths, Lookup(paths, previous, keys[0]), keys[0], keys[1..])
  }

  /** The expansions of `rest` after `next`, each with one of `routes` in front, route by route. */
  function Branches(paths: Table, routes: seq<string>, next: char, rest: string): seq<string>
    decreases |rest| + 1, 0, |routes|
  {
    if routes == [] then []
    else Branches(paths, routes[..|routes| - 1], next, rest) + PrefixAll(routes[|routes| - 1], Expansions(paths, rest, next))
  }

  /** One more route: its expansions, prefixed, come after those of the routes before it. */
  lemma {:induction false} BranchesSnoc(paths: Table, routes: seq<string>, i: nat, next: char, rest: string, current: string,
                                        results: seq<string>)
    requires i < |routes|
    ensures results + PrefixAll(current, Branches(paths, routes[..i + 1], next, rest))
      == results + PrefixAll(current, Branches(paths, routes[..i], next, rest)) + PrefixAll(current + routes[i], Expansions(paths, rest, next))
  {
    assert routes[..i + 1][..i] == routes[..i];
    PrefixAllTwice(current, routes[i], Expansions(paths, rest, next));
    PrefixAllAppend(current, Branches(paths, routes[..i], next, rest), PrefixAll(routes[i], Expansions(paths, rest, next)));
  }

  /**
   * `rec_compute_minimum_pad_sequence`: appends to `results` every expansion of `left` after
   * `previous`, each prefixed with `current`. The source's `&mut Vec` is passed in and returned.
   */
  method RecComputeMinimumPadSequence(pad: Pad, left: string, previous: char, current: string, results: seq<string>,
                                      paths: Table) returns (results': seq<string>)
    requires Covers(pad, paths) && AllKeys(pad, left) && IsKey(pad, previous)
    ensures results' == results + PrefixAll(current, Expansions(paths, left, previous))
    decreases |left|
  {
    if left == [] {
      assert PrefixAll(current, [[]]) == [current] by {
        assert current + [] == current;
      }
      return results + [current];
    }
    var next := left[0];
    AllKeysTail(pad, left);
    var nextPath := paths[(previous, next)];
    assert nextPath == Lookup(paths, previous, next);
    results' := results;
    for i := 0 to |nextPath|
      invariant results' == results + PrefixAll(current, Branches(paths, nextPath[..i], next, left[1..]))
    {
      var newPath := current + nextPath[i];
      results' := RecComputeMinimumPadSequence(pad, left[1..], next, newPath, results', paths);
      BranchesSnoc(paths, nextPath, i, next, left[1..], current, results);
    }
    assert nextPath[..|nextPath|] == nextPath;
    assert Expansions(paths, left, previous) == Branches(paths, nextPath, next, left[1..]);
  }

  /** `compute_minimum_pad_sequences`: all expansions of `sequence` starting from `A`. */
  method ComputeMinimumPadSequences(pad: Pad, sequence: string, paths: Table) returns (results: seq<string>)
    requires Covers(pad, paths) && AllKeys(pad, sequence)
    ensures results == Expansions(paths, sequence, 'A')
  {
    assert IsKey(pad, 'A');
    results := RecComputeMinimumPadSequence(pad, sequence, 'A', [], [], paths);
    PrefixAllEmpty(Expansions(paths, sequence, 'A'));
  }

  /** The key typed before the `i`-th: `previous` for the first. */
  function Before(previous: char, keys: string, i: nat): char
    requires i < |keys|
  {
    if i == 0 then previous else keys[i - 1]
  }

  /** `parts` picks, for each key, one route of the table from the key before it. */
  ghost predicate Chooses(paths: Table, keys: string, previous: char, parts: seq<string>)
  {
    |parts| == |keys| && forall i :: 0 <= i < |keys| ==> parts[i] in Lookup(paths, Before(previous, keys, i), keys[i])
  }

  /** Membership in `Branches`: one of the routes followed by one expansion of the rest. */
  lemma {:induction false} BranchesMember(paths: Table, routes: seq<string>, next: char, rest: string, s: string)
    ensures s in Branches(paths, routes, next, rest) <==>
      exists j, e :: 0 <= j < |routes| && e in Expansions(paths, rest, next) && s == routes[j] + e
    decreases |routes|
  {
    if routes != [] {
      var init, last := routes[..|routes| - 1], routes[|routes| - 1];
      var e := Expansions(paths, rest, next);
      BranchesMember(paths, init, next, rest, s);
      assert Branches(paths, routes, next, rest) == Branches(paths, init, next, rest) + PrefixAll(last, e);
      if s in PrefixAll(last, e) {
        var k :| 0 <= k < |e| && PrefixAll(last, e)[k] == s;
        assert 0 <= |routes| - 1 < |routes| && e[k] in e && s == routes[|routes| - 1] + e[k];
      }
      if exists j, x :: 0 <= j < |routes| && x in e && s == routes[j] + x {
        var j, x :| 0 <= j < |routes| && x in e && s == routes[j] + x;
        if j < |routes| - 1 {
          assert routes[j] == init[j];
        } else {
          var k :| 0 <= k < |e| && e[k] == x;
          assert PrefixAll(last, e)[k] == s;
        }
      }
    }
  }

  /** The choices for `keys` are a route for the first key and choices for the rest. */
  lemma {:induction false} ChoosesCons(paths: Table, keys: string, previous: char, parts: seq<string>)
    requires |keys| >= 1 && |parts| == |keys|
    ensures Chooses(paths, keys, previous, parts) <==>
      parts[0] in Lookup(paths, previous, keys[0]) && Chooses(paths, keys[1..], keys[0], parts[1..])
  {
    var keys', parts' := keys[1..], parts[1..];
    assert forall j :: 0 <= j < |keys'| ==> (parts'[j] == parts[j + 1] && keys'[j] == keys[j + 1] && Before(keys[0], keys', j) == Before(previous, keys, j + 1));
    if parts[0] in Lookup(paths, previous, keys[0]) && Chooses(paths, keys', keys[0], parts') {
      forall i | 0 <= i < |keys|
        ensures parts[i] in Lookup(paths, Before(previous, keys, i), keys[i])
      {
        if i > 0 {
          assert parts'[i - 1] in Lookup(paths, Before(keys[0], keys', i - 1), keys'[i - 1]);
        }
      }
    }
    if Chooses(paths, keys, previous, parts) {
      forall j | 0 <= j < |keys'|
        ensures parts'[j] in Lookup(paths, Before(keys[0], keys', j), keys'[j])
      {
        assert parts[j + 1] in Lookup(paths, Before(previous, keys, j + 1), keys[j + 1]);
      }
      assert parts[0] in Lookup(paths, Before(previous, keys, 0), keys[0]);
    }
  }

  /** The expansions are exactly the concatenations of one route choice per key. */
  lemma {:induction false} ExpansionsAreChoices(paths: Table, keys: string, previous: char, s: string)
    ensures s in Expansions(paths, keys, previous) <==> exists parts :: Chooses(paths, keys, previous, parts) && s == Concat(parts)
    decreases |keys|
  {
    if keys == [] {
      if s in Expansions(paths, keys, previous) {
        assert Chooses(paths, keys, previous, []) && s == Concat([]);
      }
    } else {
      var routes := Lookup(paths, previous, keys[0]);
      BranchesMember(paths, routes, keys[0], keys[1..], s);
      if s in Expansions(paths, keys, previous) {
        var j, e :| 0 <= j < |routes| && e in Expansions(paths, keys[1..], keys[0]) && s == routes[j] + e;
        ExpansionsAreChoices(paths, keys[1..], keys[0], e);
        var parts' :| Chooses(paths, keys[1..], keys[0], parts') && e == Concat(parts');
        var parts := [routes[j]] + parts';
        assert parts[0] == routes[j] && parts[1..] == parts';
        ChoosesCons(paths, keys, previous, parts);
        assert s == Concat(parts);
      }
      if exists parts :: Chooses(paths, keys, previous, parts) && s == Concat(parts) {
        var parts :| Chooses(paths, keys, previous, parts) && s == Concat(parts);
        ChoosesCons(paths, keys, previous, parts);
        ExpansionsAreChoices(paths, keys[1..], keys[0], Concat(parts[1..]));
        var j :| 0 <= j < |routes| && routes[j] == parts[0];
        assert s == routes[j] + Concat(parts[1..]);
      }
    }
  }

  /** Every route of the table is typed on the directional pad and holds at least the final `A`. */
  ghost predicate TypedTable(paths: Table)
  {
    forall k, i :: k in paths && 0 <= i < |paths[k]| ==> AllKeys(Directional, paths[k][i]) && |paths[k][i]| >= 1
  }

  lemma {:induction false} PadPathsTyped(pad: Pad, paths: Table)
    requires PadPaths(pad, paths)
    ensures TypedTable(paths)
  {
    forall k, i | k in paths && 0 <= i < |paths[k]|
      ensures AllKeys(Directional, paths[k][i]) && |paths[k][i]| >= 1
    {
      RoutesTyped(pad, k.0, k.1);
    }
  }

  /** Expansions are typed on the directional pad and have at least one press per key. */
  lemma {:induction false} ExpansionTyped(paths: Table, keys: string, previous: char, s: string)
    requires TypedTable(paths) && s in Expansions(paths, keys, previous)
    ensures AllKeys(Directional, s) && |s| >= |keys|
    decreases |keys|
  {
    if keys != [] {
      var routes := Lookup(paths, previous, keys[0]);
      BranchesMember(paths, routes, keys[0], keys[1..], s);
      var j, e :| 0 <= j < |routes| && e in Expansions(paths, keys[1..], keys[0]) && s == routes[j] + e;
      ExpansionTyped(paths, keys[1..], keys[0], e);
      assert AllKeys(Directional, routes[j]) && |routes[j]| >= 1;
      forall c | c in s
        ensures IsKey(Directional, c)
      {
        assert c in routes[j] || c in e;
      }
    }
  }

  /** On a pad's own table, every sequence of its keys has at least one expansion. */
  lemma {:induction false} ExpansionsNonEmpty(pad: Pad, paths: Table, keys: string, previous: char)
    requires PadPaths(pad, paths) && AllKeys(pad, keys) && IsKey(pad, previous)
    ensures |Expansions(paths, keys, previous)| >= 1
    decreases |keys|
  {
    if keys != [] {
      assert IsKey(pad, keys[0]);
      var routes := Lookup(paths, previous, keys[0]);
      assert routes == Routes(pad, previous, keys[0]);
      AllKeysTail(pad, keys);
      ExpansionsNonEmpty(pad, paths, keys[1..], keys[0]);
      var e := Expansions(paths, keys[1..], keys[0]);
      BranchesMember(paths, routes, keys[0], keys[1..], routes[0] + e[0]);
    }
  }

  /** The table a builder produces: each pair of the pad's keys with its routes. */
  function TableOf(pad: Pad): Table
  {
    map k | k in (set a, b | a in Keys(pad) && b in Keys(pad) :: (a, b)) :: Routes(pad, k.0, k.1)
  }

  /** A table is determined by the routes: both builders' results are the one `TableOf` gives. */
  lemma {:induction false} PadPathsUnique(pad: Pad, paths: Table)
    requires PadPaths(pad, paths)
    ensures paths == TableOf(pad)
  {
    var t := TableOf(pad);
    assert forall k :: k in paths <==> k in t;
    assert forall k :: k in paths ==> paths[k] == t[k];
  }

  /** From `A` to `<` only the vertical-first route is kept: the other would cross the gap. */
  lemma {:induction false} RouteFromAToLeft()
    ensures Routes(Directional, 'A', '<') == ["v<<A"]
  {
    assert IsKey(Directional, 'A') && IsKey(Directional, '<');
    var s, t := Position(Directional, 'A'), Position(Directional, '<');
    assert s == (0, 2) && t == (1, 0);
    assert !KeepsHorizontal(Directional, s, t) && KeepsVertical(Directional, s, t);
    assert Repeat('v', 1) == "v" && Repeat('<', 2) == "<<";
    assert VerticalFirst(s, t) == "v<<A";
  }

  /** From `<` back to `A` only the horizontal-first route is kept. */
  lemma {:induction false} RouteFromLeftToA()
    ensures Routes(Directional, '<', 'A') == [">>^A"]
  {
    assert IsKey(Directional, 'A') && IsKey(Directional, '<');
    var s, t := Position(Directional, '<'), Position(Directional, 'A');
    assert s == (1, 0) && t == (0, 2);
    assert KeepsHorizontal(Directional, s, t) && !KeepsVertical(Directional, s, t);
    assert Repeat('>', 2) == ">>" && Repeat('^', 1) == "^";
    assert HorizontalFirst(s, t) == ">>^A";
  }

  /** A single key has one expansion per route to it. */
  lemma {:induction false} SingleKeyExpansion(paths: Table, previous: char, key: char)
    ensures Expansions(paths, [key], previous) == Lookup(paths, previous, key)
  {
    var routes := Lookup(paths, previous, key);
    assert [key][1..] == [];
    BranchesSingle(paths, routes, key);
  }

  lemma {:induction false} BranchesSingle(paths: Table, routes: seq<string>, next: char)
    ensures Branches(paths, routes, next, []) == routes
    decreases |routes|
  {
    if routes != [] {
      var init := routes[..|routes| - 1];
      BranchesSingle(paths, init, next);
      assert Expansions(paths, [], next) == [[]];
      assert PrefixAll(routes[|routes| - 1], [[]]) == [routes[|routes| - 1]] by {
        assert routes[|routes| - 1] + [] == routes[|routes| - 1];
      }
      assert init + [routes[|routes| - 1]] == routes;
    }
  }

  /** Two keys, each reached by a single route: the one expansion is the two routes in turn. */
  lemma {:induction false} TwoKeyExpansion(paths: Table, previous: char, k1: char, k2: char, r1: string, r2: string)
    requires Lookup(paths, previous, k1) == [r1] && Lookup(paths, k1, k2) == [r2]
    ensures Expansions(paths, [k1, k2], previous) == [r1 + r2]
  {
    SingleKeyExpansion(paths, k1, k2);
    var last := Expansions(paths, [k2], k1);
    assert [k1, k2][0] == k1 && [k1, k2][1..] == [k2];
    assert Expansions(paths, [k1, k2], previous) == Branches(paths, [r1], k1, [k2]);
    assert [r1][..0] == [];
    assert PrefixAll(r1, last)[0] == r1 + r2;
  }

  lemma {:induction false} PadPathsLookup(pad: Pad, paths: Table, a: char, b: char)
    requires PadPaths(pad, paths) && IsKey(pad, a) && IsKey(pad, b)
    ensures Lookup(paths, a, b) == Routes(pad, a, b)
  {
  }

  /** The directional pad's expansion of `<A` from `A`: down-left-left, then right-right-up. */
  lemma {:induction false} ExampleExpansion(paths: Table)
    requires PadPaths(Directional, paths)
    ensures Expansions(paths, "<A", 'A') == ["v<<A>>^A"]
  {
    assert IsKey(Directional, 'A') && IsKey(Directional, '<');
    PadPathsLookup(Directional, paths, 'A', '<');
    PadPathsLookup(Directional, paths, '<', 'A');
    RouteFromAToLeft();
    RouteFromLeftToA();
    TwoKeyExpansion(paths, 'A', '<', 'A', "v<<A", ">>^A");
    ExampleExpansionText();
  }

  lemma ExampleExpansionText()
    ensures "<A" == ['<', 'A'] && "v<<A" + ">>^A" == "v<<A>>^A"
  {
  }

  // ---------------------------------------------------------------------------------------------
  // shortest_sequence

  /** The chunk `split_inclusive('A')` takes off the front: up to and including the first `A`. */
  function ChunkLength(s: string): (k: nat)
    requires |s| > 0
    ensures 1 <= k <= |s|
    ensures forall j :: 0 <= j < k - 1 ==> s[j] != 'A'
    ensures k < |s| ==> s[k - 1] == 'A'
    decreases |s|
  {
    if s[0] == 'A' || |s| == 1 then 1 else 1 + ChunkLength(s[1..])
  }

  /** `split_inclusive('A')`. */
  function SplitInclusive(s: string): (chunks: seq<string>)
    ensures Concat(chunks) == s
    ensures forall i :: 0 <= i < |chunks| ==> |chunks[i]| >= 1
    decreases |s|
  {
    if s == [] then []
    else
      var k := ChunkLength(s);
      assert s[..k] + s[k..] == s;
      [s[..k]] + SplitInclusive(s[k..])
  }

  /** No `A` before the end of the chunk, and an `A` at its end unless it is the last chunk. */
  predicate ChunkShape(chunk: string, last: bool)
  {
    && (forall j :: 0 <= j < |chunk| - 1 ==> chunk[j] != 'A')
    && (!last ==> |chunk| >= 1 && chunk[|chunk| - 1] == 'A')
  }

  lemma {:induction false} FirstChunkShape(s: string)
    requires s != []
    ensures ChunkShape(s[..ChunkLength(s)], ChunkLength(s) == |s|)
  {
    var k := ChunkLength(s);
    var chunk := s[..k];
    forall j | 0 <= j < |chunk| - 1
      ensures chunk[j] != 'A'
    {
      assert chunk[j] == s[j];
    }
  }

  /** Every chunk but the last ends with `A`, and no chunk holds an `A` before its end. */
  lemma {:induction false} SplitInclusiveChunks(s: string, i: nat)
    requires i < |SplitInclusive(s)|
    ensures ChunkShape(SplitInclusive(s)[i], i == |SplitInclusive(s)| - 1)
    decreases |s|
  {
    var k := ChunkLength(s);
    var rest := SplitInclusive(s[k..]);
    assert SplitInclusive(s) == [s[..k]] + rest;
    if i > 0 {
      SplitInclusiveChunks(s[k..], i - 1);
      assert SplitInclusive(s)[i] == rest[i - 1];
    } else {
      FirstChunkShape(s);
      assert k == |s| <==> rest == [];
    }
  }

  /** `usize::MAX`, the starting value of the source's minimum loops. */
  const UsizeMax: nat := 0xFFFF_FFFF_FFFF_FFFF

  function Min(a: nat, b: nat): nat
  {
    if b < a then b else a
  }

  /**
   * The number of presses `shortest_sequence` returns: the length itself at depth 0, and below
   * that the sum over the chunks of the cheapest expansion one level down.
   */
  function Shortest(paths: Table, keys: string, depth: nat): nat
    decreases depth, 2, 0
  {
    if depth == 0 then |keys| else ChunksTotal(paths, SplitInclusive(keys), depth)
  }

  /** The sum over `chunks` of the cheapest expansion at `depth - 1`. */
  function ChunksTotal(paths: Table, chunks: seq<string>, depth: nat): nat
    requires depth >= 1
    decreases depth, 1, |chunks|
  {
    if chunks == [] then 0
    else ChunksTotal(paths, chunks[..|chunks| - 1], depth) + MinOver(paths, Expansions(paths, chunks[|chunks| - 1], 'A'), depth)
  }

  /** The source's minimum loop: the least `Shortest` at `depth - 1` over `seqs`, from `usize::MAX`. */
  function MinOver(paths: Table, seqs: seq<string>, depth: nat): nat
    requires depth >= 1
    decreases depth, 0, |seqs|
  {
    if seqs == [] then UsizeMax
    else Min(MinOver(paths, seqs[..|seqs| - 1], depth), Shortest(paths, seqs[|seqs| - 1], depth - 1))
  }

  /** The loop's minimum is at most every candidate and, below `usize::MAX`, one of them. */
  lemma {:induction false} MinOverIsMinimum(paths: Table, seqs: seq<string>, depth: nat)
    requires depth >= 1
    ensures forall i :: 0 <= i < |seqs| ==> MinOver(paths, seqs, depth) <= Shortest(paths, seqs[i], depth - 1)
    ensures MinOver(paths, seqs, depth) == UsizeMax || exists i :: 0 <= i < |seqs| && MinOver(paths, seqs, depth) == Shortest(paths, seqs[i], depth - 1)
    decreases |seqs|
  {
    if seqs != [] {
      var init := seqs[..|seqs| - 1];
      MinOverIsMinimum(paths, init, depth);
      forall i | 0 <= i < |init|
        ensures init[i] == seqs[i]
      {
      }
    }
  }

  /** No depth needs fewer presses than the keys themselves, short of `usize::MAX`. */
  lemma {:induction false} ShortestAtLeast(paths: Table, keys: string, depth: nat)
    requires TypedTable(paths)
    ensures Shortest(paths, keys, depth) >= Min(|keys|, UsizeMax)
    decreases depth, 2, 0
  {
    if depth > 0 {
      ChunksAtLeast(paths, SplitInclusive(keys), depth);
    }
  }

  lemma {:induction false} ChunksAtLeast(paths: Table, chunks: seq<string>, depth: nat)
    requires depth >= 1 && TypedTable(paths)
    ensures ChunksTotal(paths, chunks, depth) >= Min(|Concat(chunks)|, UsizeMax)
    decreases depth, 1, |chunks|
  {
    if chunks != [] {
      var init, last := chunks[..|chunks| - 1], chunks[|chunks| - 1];
      ConcatSnoc(chunks);
      ChunksAtLeast(paths, init, depth);
      ChunkAtLeast(paths, last, depth);
      assert ChunksTotal(paths, chunks, depth) == ChunksTotal(paths, init, depth) + MinOver(paths, Expansions(paths, last, 'A'), depth);
    }
  }

  lemma {:induction false} ChunkAtLeast(paths: Table, chunk: string, depth: nat)
    requires depth >= 1 && TypedTable(paths)
    ensures MinOver(paths, Expansions(paths, chunk, 'A'), depth) >= Min(|chunk|, UsizeMax)
    decreases depth, 0, 0
  {
    var e := Expansions(paths, chunk, 'A');
    forall i | 0 <= i < |e|
      ensures Shortest(paths, e[i], depth - 1) >= Min(|chunk|, UsizeMax)
    {
      ExpansionTyped(paths, chunk, 'A', e[i]);
      ShortestAtLeast(paths, e[i], depth - 1);
    }
    MinOverAtLeast(paths, e, depth, Min(|chunk|, UsizeMax));
  }

  lemma {:induction false} MinOverAtLeast(paths: Table, seqs: seq<string>, depth: nat, bound: nat)
    requires depth >= 1 && bound <= UsizeMax
    requires forall i :: 0 <= i < |seqs| ==> Shortest(paths, seqs[i], depth - 1) >= bound
    ensures MinOver(paths, seqs, depth) >= bound
  {
    MinOverIsMinimum(paths, seqs, depth);
  }

  lemma {:induction false} ConcatSnoc(chunks: seq<string>)
    requires chunks != []
    ensures Concat(chunks) == Concat(chunks[..|chunks| - 1]) + chunks[|chunks| - 1]
    decreases |chunks|
  {
    if |chunks| > 1 {
      ConcatSnoc(chunks[1..]);
      assert chunks[1..][..|chunks[1..]| - 1] == chunks[..|chunks| - 1][1..];
    } else {
      assert chunks[..0] == [];
    }
  }

  lemma {:induction false} ChunksTotalSnoc(paths: Table, chunks: seq<string>, j: nat, depth: nat)
    requires depth >= 1 && j < |chunks|
    ensures ChunksTotal(paths, chunks[..j + 1], depth) == ChunksTotal(paths, chunks[..j], depth) + MinOver(paths, Expansions(paths, chunks[j], 'A'), depth)
  {
    assert chunks[..j + 1][..j] == chunks[..j];
  }

  lemma {:induction false} MinOverSnoc(paths: Table, seqs: seq<string>, i: nat, depth: nat)
    requires depth >= 1 && i < |seqs|
    ensures MinOver(paths, seqs[..i + 1], depth) == Min(MinOver(paths, seqs[..i], depth), Shortest(paths, seqs[i], depth - 1))
  {
    assert seqs[..i + 1][..i] == seqs[..i];
  }

  /** The chunks of a sequence of keys are sequences of keys. */
  lemma {:induction false} ChunksTyped(keys: string, j: nat)
    requires AllKeys(Directional, keys) && j < |SplitInclusive(keys)|
    ensures AllKeys(Directional, SplitInclusive(keys)[j])
    decreases |keys|
  {
    var k := ChunkLength(keys);
    if j == 0 {
      forall c | c in keys[..k]
        ensures IsKey(Directional, c)
      {
        assert c in keys;
      }
    } else {
      AllKeysDrop(Directional, keys, k);
      ChunksTyped(keys[k..], j - 1);
    }
  }

  /** `shortest_sequence`, with the memoisation left out. */
  method ShortestSequence(keys: string, depth: nat, paths: Table) returns (total: nat)
    requires Covers(Directional, paths) && TypedTable(paths) && AllKeys(Directional, keys)
    ensures total == Shortest(paths, keys, depth)
    decreases depth
  {
    if depth == 0 {
      return |keys|;
    }
    var subKeys := SplitInclusive(keys);
    total := 0;
    for j := 0 to |subKeys|
      invariant total == ChunksTotal(paths, subKeys[..j], depth)
    {
      ChunksTyped(keys, j);
      var sequences := ComputeMinimumPadSequences(Directional, subKeys[j], paths);
      var minLength := UsizeMax;
      for i := 0 to |sequences|
        invariant minLength == MinOver(paths, sequences[..i], depth)
      {
        ExpansionTyped(paths, subKeys[j], 'A', sequences[i]);
        var length := ShortestSequence(sequences[i], depth - 1, paths);
        if length < minLength {
          minLength := length;
        }
        MinOverSnoc(paths, sequences, i, depth);
      }
      assert sequences[..|sequences|] == sequences;
      total := total + minLength;
      ChunksTotalSnoc(paths, subKeys, j, depth);
    }
    assert subKeys[..|subKeys|] == subKeys;
  }

  // ---------------------------------------------------------------------------------------------
  // The codes and compute_day_21

  /** A door code: its keys, three digits and `A`, and its numeric value. */
  datatype Code = Code(keys: string, value: nat)

  /** One line of `parse_input_data`: three digits and `A`. */
  function ParseCode(line: string): (r: Option<Code>)
    ensures r.Some? <==> |line| == 4 && IsDigit(line[0]) && IsDigit(line[1]) && IsDigit(line[2]) && line[3] == 'A'
    ensures r.Some? ==> r.value.keys == line && AllKeys(Numeric, line) && r.value.value < 1000
  {
    if |line| == 4 && IsDigit(line[0]) && IsDigit(line[1]) && IsDigit(line[2]) && line[3] == 'A' then
      Some(Code(line, DigitValue(line[0]) * 100 + DigitValue(line[1]) * 10 + DigitValue(line[2])))
    else None
  }

  /** The three digits of a value below 1000, with leading zeros. */
  function Digits3(v: nat): string
    requires v < 1000
  {
    [Digit(v / 100), Digit(v / 10 % 10), Digit(v % 10)]
  }

  function Digit(d: nat): char
    requires d < 10
  {
    (48 + d) as char
  }

  /** The value is the code's digits read in decimal: writing it back gives the digits. */
  lemma {:induction false} ParseCodeValue(line: string)
    requires ParseCode(line).Some?
    ensures Digits3(ParseCode(line).value.value) == line[..3]
  {
    var a, b, c := DigitValue(line[0]), DigitValue(line[1]), DigitValue(line[2]);
    var v := a * 100 + b * 10 + c;
    assert v / 100 == a by {
      Common.ModUnique(v, 100, a, b * 10 + c);
    }
    assert v / 10 == a * 10 + b && v % 10 == c by {
      Common.ModUnique(v, 10, a * 10 + b, c);
    }
    assert (a * 10 + b) % 10 == b by {
      Common.ModUnique(a * 10 + b, 10, a, b);
    }
  }

  /** The cheapest presses for one code times its value. */
  function Complexity(keypad: Table, directional: Table, code: Code, depth: nat): nat
  {
    MinOver(directional, Expansions(keypad, code.keys, 'A'), depth + 1) * code.value
  }

  predicate ValidCodes(codes: seq<Code>)
  {
    forall i :: 0 <= i < |codes| ==> AllKeys(Numeric, codes[i].keys)
  }

  /** The sum of the complexities of the codes. */
  function TotalComplexity(keypad: Table, directional: Table, codes: seq<Code>, depth: nat): nat
  {
    if codes == [] then 0
    else TotalComplexity(keypad, directional, codes[..|codes| - 1], depth) + Complexity(keypad, directional, codes[|codes| - 1], depth)
  }

  lemma {:induction false} TotalComplexitySnoc(keypad: Table, directional: Table, codes: seq<Code>, i: nat, depth: nat)
    requires i < |codes|
    ensures TotalComplexity(keypad, directional, codes[..i + 1], depth)
      == TotalComplexity(keypad, directional, codes[..i], depth) + Complexity(keypad, directional, codes[i], depth)
  {
    assert codes[..i + 1][..i] == codes[..i];
  }

  /** The least number of presses for one code through `depth` directional pads. */
  method CodeShortest(code: Code, depth: nat, keypadPaths: Table, directionalPadPaths: Table) returns (shortest: nat)
    requires Covers(Numeric, keypadPaths) && TypedTable(keypadPaths)
    requires Covers(Directional, directionalPadPaths) && TypedTable(directionalPadPaths)
    requires AllKeys(Numeric, code.keys)
    ensures shortest == MinOver(directionalPadPaths, Expansions(keypadPaths, code.keys, 'A'), depth + 1)
  {
    shortest := UsizeMax;
    var keypadSequences := ComputeMinimumPadSequences(Numeric, code.keys, keypadPaths);
    for i := 0 to |keypadSequences|
      invariant shortest == MinOver(directionalPadPaths, keypadSequences[..i], depth + 1)
    {
      ExpansionTyped(keypadPaths, code.keys, 'A', keypadSequences[i]);
      var sequenceLength := ShortestSequence(keypadSequences[i], depth, directionalPadPaths);
      if sequenceLength < shortest {
        shortest := sequenceLength;
      }
      assert keypadSequences[..i + 1][..i] == keypadSequences[..i];
    }
    assert keypadSequences[..|keypadSequences|] == keypadSequences;
  }

  /** The two tables `compute_day_21` builds before it goes through the codes. */
  method BuildTables() returns (keypadPaths: Table, directionalPadPaths: Table)
    ensures keypadPaths == TableOf(Numeric) && directionalPadPaths == TableOf(Directional)
    ensures Covers(Numeric, keypadPaths) && TypedTable(keypadPaths)
    ensures Covers(Directional, directionalPadPaths) && TypedTable(directionalPadPaths)
  {
    keypadPaths := BuildPadPaths(Numeric);
    directionalPadPaths := BuildPadPaths(Directional);
    PadPathsTyped(Numeric, keypadPaths);
    PadPathsTyped(Directional, directionalPadPaths);
    PadPathsUnique(Numeric, keypadPaths);
    PadPathsUnique(Directional, directionalPadPaths);
  }

  /** `compute_day_21` on the parsed codes: the sum of shortest presses times value. */
  method ComputeDay21(codes: seq<Code>, depth: nat) returns (total: nat)
    requires ValidCodes(codes)
    ensures total == TotalComplexity(TableOf(Numeric), TableOf(Directional), codes, depth)
  {
    var keypadPaths, directionalPadPaths := BuildTables();
    total := 0;
    for i := 0 to |codes|
      invariant total == TotalComplexity(keypadPaths, directionalPadPaths, codes[..i], depth)
    {
      var shortest := CodeShortest(codes[i], depth, keypadPaths, directionalPadPaths);
      var value: nat := codes[i].value;
      assert shortest * value == Complexity(keypadPaths, directionalPadPaths, codes[i], depth);
      total := total + shortest * value;
      TotalComplexitySnoc(keypadPaths, directionalPadPaths, codes, i, depth);
    }
    assert codes[..|codes|] == codes;
  }

  /** `day_21_part_1`: two directional pads between the user and the numeric pad's robot. */
  method Part1(codes: seq<Code>) returns (total: nat)
    requires ValidCodes(codes)
    ensures total == TotalComplexity(TableOf(Numeric), TableOf(Directional), codes, 2)
  {
    total := ComputeDay21(codes, 2);
  }

  /** `day_21_part_2`: twenty-five directional pads. */
  method Part2(codes: seq<Code>) returns (total: nat)
    requires ValidCodes(codes)
    ensures total == TotalComplexity(TableOf(Numeric), TableOf(Directional), codes, 25)
  {
    total := ComputeDay21(codes, 25);
  }
}
