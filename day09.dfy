/**
 * Day 9: a disk map of alternating file and free-space lengths is laid out block by block, then
 * compacted by moving file blocks one at a time from the right end into the leftmost free slot,
 * and summarised by a position-weighted checksum.
 */
module Day09 {
  import opened Common

  /** One slot per block: the id of the file it holds, or none when free. */
  type Memory = seq<Option<nat>>

  function Repeat<T>(x: T, n: nat): (s: seq<T>)
    ensures |s| == n && forall k :: 0 <= k < n ==> s[k] == x
  {
    seq(n, _ => x)
  }

  /**
   * The chunks of two digits from the front, the first having file id `id`: that many blocks of
   * the file, then as many free slots as the second digit says (none for a last, lone digit).
   */
  function Layout(digits: seq<nat>, id: nat): Memory
    decreases |digits|
  {
    if digits == [] then []
    else if |digits| == 1 then Repeat(Some(id), digits[0])
    else Repeat(Some(id), digits[0]) + Repeat(None, digits[1]) + Layout(digits[2..], id + 1)
  }

  /** The file ids of the occupied slots, left to right (`flatten`). */
  function Blocks(m: Memory): (ids: seq<nat>)
    ensures |ids| <= |m|
  {
    if m == [] then [] else (if m[0].Some? then [m[0].value] else []) + Blocks(m[1..])
  }

  /** The number of free slots. */
  function Holes(m: Memory): nat
  {
    |m| - |Blocks(m)|
  }

  /** The total size of the files: the digits at even positions (`final_size`). */
  function FileSize(digits: seq<nat>): nat
    decreases |digits|
  {
    if digits == [] then 0
    else if |digits| == 1 then digits[0]
    else digits[0] + FileSize(digits[2..])
  }

  lemma {:induction false} BlocksAppend(a: Memory, b: Memory)
    ensures Blocks(a + b) == Blocks(a) + Blocks(b)
  {
    if a != [] {
      assert (a + b)[1..] == a[1..] + b;
      BlocksAppend(a[1..], b);
    } else {
      assert a + b == b;
    }
  }

  lemma {:induction false} BlocksRepeat(x: Option<nat>, n: nat)
    ensures Blocks(Repeat(x, n)) == if x.Some? then Repeat<nat>(x.value, n) else []
  {
    if n > 0 {
      assert Repeat(x, n)[1..] == Repeat(x, n - 1);
      BlocksRepeat(x, n - 1);
    }
  }

  /** The memory has one slot per digit unit, and the files occupy `final_size` of them. */
  lemma {:induction false} LayoutSize(digits: seq<nat>, id: nat)
    ensures |Layout(digits, id)| == Sum(digits)
    ensures |Blocks(Layout(digits, id))| == FileSize(digits)
    decreases |digits|
  {
    if digits == [] {
    } else if |digits| == 1 {
      BlocksRepeat(Some(id), digits[0]);
      assert digits[1..] == [];
    } else {
      LayoutSize(digits[2..], id + 1);
      var files, free := Repeat(Some(id), digits[0]), Repeat(None, digits[1]);
      BlocksAppend(files + free, Layout(digits[2..], id + 1));
      BlocksAppend(files, free);
      BlocksRepeat(Some(id), digits[0]);
      BlocksRepeat(None, digits[1]);
      assert digits[1..][1..] == digits[2..];
    }
  }

  /** The blocks of a layout: the first file's id repeated, then the blocks of the later chunks. */
  lemma BlocksLayout(digits: seq<nat>, id: nat)
    requires digits != []
    ensures Blocks(Layout(digits, id))
      == Repeat<nat>(id, digits[0]) + (if |digits| >= 2 then Blocks(Layout(digits[2..], id + 1)) else [])
  {
    var files := Repeat(Some(id), digits[0]);
    BlocksRepeat(Some(id), digits[0]);
    if |digits| >= 2 {
      var free := Repeat(None, digits[1]);
      BlocksAppend(files + free, Layout(digits[2..], id + 1));
      BlocksAppend(files, free);
      BlocksRepeat(None, digits[1]);
    }
  }

  /** Chunk `c` gives file `id + c` exactly as many blocks as its first digit. */
  lemma {:induction false} LayoutFileBlocks(digits: seq<nat>, id: nat, c: nat)
    requires 2 * c < |digits|
    ensures Count<nat>(Blocks(Layout(digits, id)), id + c) == digits[2 * c]
    decreases |digits|
  {
    BlocksLayout(digits, id);
    var later := if |digits| >= 2 then Blocks(Layout(digits[2..], id + 1)) else [];
    CountAppend<nat>(Repeat<nat>(id, digits[0]), later, id + c);
    if c == 0 {
      CountRepeat(id, digits[0]);
      if |digits| >= 2 {
        LayoutIdsAbove(digits[2..], id + 1);
      }
      CountAbsent(later, id);
    } else {
      LayoutFileBlocks(digits[2..], id + 1, c - 1);
      assert digits[2..][2 * (c - 1)] == digits[2 * c];
      CountRepeatOther(id, digits[0], id + c);
    }
  }

  lemma {:induction false} CountRepeat(x: nat, n: nat)
    ensures Count<nat>(Repeat<nat>(x, n), x) == n
  {
    if n > 0 {
      assert Repeat(x, n)[1..] == Repeat(x, n - 1);
      CountRepeat(x, n - 1);
    }
  }

  lemma {:induction false} CountRepeatOther(x: nat, n: nat, y: nat)
    requires x != y
    ensures Count<nat>(Repeat<nat>(x, n), y) == 0
  {
    if n > 0 {
      assert Repeat(x, n)[1..] == Repeat(x, n - 1);
      CountRepeatOther(x, n - 1, y);
    }
  }

  lemma {:induction false} CountAbsent(s: seq<nat>, x: nat)
    requires forall k :: 0 <= k < |s| ==> s[k] > x
    ensures Count(s, x) == 0
  {
    if s != [] {
      CountAbsent(s[1..], x);
    }
  }

  /** Later chunks only hold larger file ids. */
  lemma {:induction false} LayoutIdsAbove(digits: seq<nat>, id: nat)
    ensures forall k :: 0 <= k < |Blocks(Layout(digits, id))| ==> Blocks(Layout(digits, id))[k] >= id
    decreases |digits|
  {
    if digits != [] {
      BlocksLayout(digits, id);
      if |digits| >= 2 {
        LayoutIdsAbove(digits[2..], id + 1);
      }
    }
  }

  /** The "simple fill" loop: extend the memory chunk by chunk and add up the file sizes. */
  method BuildMemory(digits: seq<nat>) returns (memory: Memory, finalSize: nat)
    ensures memory == Layout(digits, 0) && finalSize == FileSize(digits)
  {
    memory, finalSize := [], 0;
    var pos, id := 0, 0;
    while pos < |digits|
      invariant pos <= |digits|
      invariant memory + Layout(digits[pos..], id) == Layout(digits, 0)
      invariant finalSize + FileSize(digits[pos..]) == FileSize(digits)
      decreases |digits| - pos
    {
      var filesSize := digits[pos];
      var freeSpaceSize := if pos + 1 < |digits| then digits[pos + 1] else 0;
      assert pos + 1 < |digits| ==> digits[pos..][2..] == digits[pos + 2..];
      memory := memory + Repeat(Some(id), filesSize) + Repeat(None, freeSpaceSize);
      finalSize := finalSize + filesSize;
      pos, id := if pos + 1 < |digits| then pos + 2 else pos + 1, id + 1;
    }
  }

  // ---------------------------------------------------------------------------------------------
  // What compaction computes.

  /**
   * Filling the free slots of `prefix` left to right with the ids of `supply`, in order; the
   * occupied slots keep their file.
   */
  function Fill(prefix: Memory, supply: seq<nat>): (r: Memory)
    requires Holes(prefix) <= |supply|
    ensures |r| == |prefix|
  {
    if prefix == [] then []
    else if prefix[0].Some? then [prefix[0]] + Fill(prefix[1..], supply)
    else [Some(supply[0])] + Fill(prefix[1..], supply[1..])
  }

  /** The file ids of the slots from `e` on, read from the right end leftwards. */
  function RightBlocks(m: Memory, e: nat): (ids: seq<nat>)
    requires e <= |m|
    ensures |ids| == |Blocks(m[e..])|
    decreases |m| - e
  {
    if e == |m| then []
    else
      assert m[e..] == [m[e]] + m[e + 1..];
      BlocksAppend([m[e]], m[e + 1..]);
      RightBlocks(m, e + 1) + (if m[e].Some? then [m[e].value] else [])
  }

  /** The free slots among the first `F` slots are as many as the blocks after them. */
  lemma HolesBalance(m: Memory)
    ensures Holes(m[..|Blocks(m)|]) == |RightBlocks(m, |Blocks(m)|)|
  {
    var f := |Blocks(m)|;
    assert m == m[..f] + m[f..];
    BlocksAppend(m[..f], m[f..]);
  }

  /**
   * The compacted memory: with `F` the number of file blocks, the free slots among the first
   * `F` are filled, leftmost first, with the blocks after them taken rightmost first; all slots
   * from `F` on are free.
   */
  function Compacted(m: Memory): (r: Memory)
    ensures |r| == |m|
  {
    var f := |Blocks(m)|;
    HolesBalance(m);
    Fill(m[..f], RightBlocks(m, f)) + Repeat(None, |m| - f)
  }

  lemma {:induction false} FillSnocSome(prefix: Memory, supply: seq<nat>, v: nat)
    requires Holes(prefix) <= |supply|
    ensures Blocks(prefix + [Some(v)]) == Blocks(prefix) + [v]
    ensures Fill(prefix + [Some(v)], supply) == Fill(prefix, supply) + [Some(v)]
  {
    BlocksAppend(prefix, [Some(v)]);
    if prefix != [] {
      assert (prefix + [Some(v)])[1..] == prefix[1..] + [Some(v)];
      BlocksAppend([prefix[0]], prefix[1..]);
      assert prefix == [prefix[0]] + prefix[1..];
      FillSnocSome(prefix[1..], if prefix[0].Some? then supply else supply[1..], v);
    }
  }

  lemma {:induction false} FillSnocNone(prefix: Memory, supply: seq<nat>, x: nat)
    requires Holes(prefix) == |supply|
    ensures Blocks(prefix + [None]) == Blocks(prefix)
    ensures Fill(prefix + [None], supply + [x]) == Fill(prefix, supply) + [Some(x)]
  {
    BlocksAppend(prefix, [None]);
    if prefix != [] {
      assert (prefix + [None])[1..] == prefix[1..] + [None];
      BlocksAppend([prefix[0]], prefix[1..]);
      assert prefix == [prefix[0]] + prefix[1..];
      if prefix[0].Some? {
        FillSnocNone(prefix[1..], supply, x);
      } else {
        assert (supply + [x])[1..] == supply[1..] + [x];
        FillSnocNone(prefix[1..], supply[1..], x);
      }
    }
  }

  /** Filling keeps every file block where it is and fills every free slot. */
  lemma {:induction false} FillKeeps(prefix: Memory, supply: seq<nat>)
    requires Holes(prefix) <= |supply|
    ensures forall k :: 0 <= k < |prefix| ==> Fill(prefix, supply)[k].Some?
    ensures forall k :: 0 <= k < |prefix| && prefix[k].Some? ==> Fill(prefix, supply)[k] == prefix[k]
  {
    if prefix != [] {
      var rest := if prefix[0].Some? then supply else supply[1..];
      FillKeeps(prefix[1..], rest);
      assert Fill(prefix, supply)[1..] == Fill(prefix[1..], rest);
    }
  }

  /** Filling uses up exactly the first `Holes(prefix)` ids of the supply, counted id by id. */
  lemma {:induction false} FillBlocks(prefix: Memory, supply: seq<nat>, x: nat)
    requires Holes(prefix) <= |supply|
    ensures Count(Blocks(Fill(prefix, supply)), x) == Count(Blocks(prefix), x) + Count(supply[..Holes(prefix)], x)
  {
    if prefix != [] {
      var r := Fill(prefix, supply);
      var rest := if prefix[0].Some? then supply else supply[1..];
      var h := Holes(prefix[1..]);
      FillBlocks(prefix[1..], rest, x);
      assert r[1..] == Fill(prefix[1..], rest);
      if prefix[0].Some? {
        assert Holes(prefix) == h;
        CountAppend([prefix[0].value], Blocks(r[1..]), x);
        CountAppend([prefix[0].value], Blocks(prefix[1..]), x);
      } else {
        assert Holes(prefix) == h + 1;
        assert supply[..h + 1][1..] == rest[..h];
        assert supply[..h + 1][0] == supply[0];
        assert Blocks(prefix) == Blocks(prefix[1..]);
        assert Blocks(r) == [supply[0]] + Blocks(r[1..]);
        CountAppend([supply[0]], Blocks(r[1..]), x);
      }
    }
  }

  lemma {:induction false} RightBlocksCount(m: Memory, e: nat, x: nat)
    requires e <= |m|
    ensures Count(RightBlocks(m, e), x) == Count(Blocks(m[e..]), x)
    decreases |m| - e
  {
    if e < |m| {
      RightBlocksCount(m, e + 1, x);
      var head := if m[e].Some? then [m[e].value] else [];
      assert m[e..][1..] == m[e + 1..];
      CountAppend(RightBlocks(m, e + 1), head, x);
      CountAppend(head, Blocks(m[e + 1..]), x);
    }
  }

  lemma {:induction false} BlocksAllOccupied(m: Memory)
    requires forall k :: 0 <= k < |m| ==> m[k].Some?
    ensures |Blocks(m)| == |m|
  {
    if m != [] {
      BlocksAllOccupied(m[1..]);
    }
  }

  /**
   * Compaction leaves every block of the first `F` slots in place, fills all of those slots,
   * and frees every slot from `F` on.
   */
  lemma CompactedLayout(m: Memory)
    ensures var f := |Blocks(m)|; var r := Compacted(m);
      && (forall k :: 0 <= k < f ==> r[k].Some?)
      && (forall k :: 0 <= k < f && m[k].Some? ==> r[k] == m[k])
      && (forall k :: f <= k < |m| ==> r[k].None?)
      && |Blocks(r)| == f
  {
    var f := |Blocks(m)|;
    HolesBalance(m);
    var supply := RightBlocks(m, f);
    FillKeeps(m[..f], supply);
    var filled := Fill(m[..f], supply);
    BlocksAppend(filled, Repeat(None, |m| - f));
    BlocksRepeat(None, |m| - f);
    BlocksAllOccupied(filled);
  }

  /** The blocks of the compacted memory are those of its first `F` slots, filled. */
  lemma CompactedBlocks(m: Memory)
    ensures var f := |Blocks(m)|;
      && f <= |m| && Holes(m[..f]) == |RightBlocks(m, f)|
      && Blocks(Compacted(m)) == Blocks(Fill(m[..f], RightBlocks(m, f)))
  {
    var f := |Blocks(m)|;
    HolesBalance(m);
    var filled := Fill(m[..f], RightBlocks(m, f));
    var free: Memory := Repeat(None, |m| - f);
    assert Compacted(m) == filled + free;
    assert Blocks(filled + free) == Blocks(filled) by {
      BlocksAppend(filled, free);
      BlocksRepeat(None, |m| - f);
      assert Blocks(filled) + [] == Blocks(filled);
    }
  }

  /** A file's blocks split between a prefix and the rest of the memory. */
  lemma CountSplit(m: Memory, f: nat, x: nat)
    requires f <= |m|
    ensures Count(Blocks(m), x) == Count(Blocks(m[..f]), x) + Count(Blocks(m[f..]), x)
  {
    assert m == m[..f] + m[f..];
    BlocksAppend(m[..f], m[f..]);
    CountAppend(Blocks(m[..f]), Blocks(m[f..]), x);
  }

  /** Compaction keeps every file's number of blocks. */
  lemma CompactedKeepsFiles(m: Memory, x: nat)
    ensures Count(Blocks(Compacted(m)), x) == Count(Blocks(m), x)
  {
    var f := |Blocks(m)|;
    CompactedBlocks(m);
    var supply := RightBlocks(m, f);
    FillBlocks(m[..f], supply, x);
    RightBlocksCount(m, f, x);
    assert supply[..Holes(m[..f])] == supply;
    CountSplit(m, f, x);
  }

  /** So compaction is a rearrangement of the file blocks. */
  lemma CompactedPermutes(m: Memory)
    ensures multiset(Blocks(Compacted(m))) == multiset(Blocks(m))
  {
    forall x: nat
      ensures multiset(Blocks(Compacted(m)))[x] == multiset(Blocks(m))[x]
    {
      CompactedKeepsFiles(m, x);
      CountIsMultiplicity(Blocks(Compacted(m)), x);
      CountIsMultiplicity(Blocks(m), x);
    }
    assert forall x :: multiset(Blocks(Compacted(m)))[x] == multiset(Blocks(m))[x] by {
      forall x ensures multiset(Blocks(Compacted(m)))[x] == multiset(Blocks(m))[x] {
        if x < 0 {
          assert x !in multiset(Blocks(m)) && x !in multiset(Blocks(Compacted(m)));
        }
      }
    }
  }

  // ---------------------------------------------------------------------------------------------
  // The compaction loop, in place on the memory.

  /**
   * The state of the two-index loop with `e == end + 1`: slots before `i` are filled from the
   * blocks after `e`, taken rightmost first; slots `i..e` are untouched; slots from `e` are free.
   */
  ghost predicate Compacting(s: Memory, orig: Memory, i: nat, e: nat)
  {
    && i <= e <= |orig| && |s| == |orig|
    && Holes(orig[..i]) == |RightBlocks(orig, e)|
    && s[..i] == Fill(orig[..i], RightBlocks(orig, e))
    && (forall k :: i <= k < e ==> s[k] == orig[k])
    && (forall k :: e <= k < |s| ==> s[k].None?)
  }

  /** Free slots contribute nothing to the blocks read from the right. */
  lemma {:induction false} RightBlocksSkip(m: Memory, a: nat, b: nat)
    requires a <= b <= |m| && forall k :: a <= k < b ==> m[k].None?
    ensures RightBlocks(m, a) == RightBlocks(m, b)
    decreases b - a
  {
    if a < b {
      RightBlocksSkip(m, a + 1, b);
    }
  }

  lemma BlocksSplit(m: Memory, i: nat, e: nat)
    requires i <= e <= |m|
    ensures |Blocks(m)| == |Blocks(m[..i])| + |Blocks(m[i..e])| + |Blocks(m[e..])|
  {
    assert m == m[..i] + m[i..e] + m[e..];
    BlocksAppend(m[..i] + m[i..e], m[e..]);
    BlocksAppend(m[..i], m[i..e]);
  }

  /** Filled first `F` slots followed by free slots make the compacted memory. */
  lemma CompactedFrom(s: Memory, orig: Memory, f: nat)
    requires f == |Blocks(orig)| && f <= |orig| == |s|
    requires Holes(orig[..f]) <= |RightBlocks(orig, f)|
    requires s[..f] == Fill(orig[..f], RightBlocks(orig, f))
    requires forall k :: f <= k < |s| ==> s[k].None?
    ensures s == Compacted(orig)
  {
    assert s[f..] == Repeat(None, |s| - f);
    assert s == s[..f] + s[f..];
  }

  /** Once the indices meet, the memory is the compacted one. */
  lemma CompactingDone(s: Memory, orig: Memory, i: nat, e: nat)
    requires Compacting(s, orig, i, e) && e <= i + 1
    ensures s == Compacted(orig)
  {
    var f := |Blocks(orig)|;
    var supply := RightBlocks(orig, e);
    BlocksSplit(orig, i, e);
    if e == i + 1 && orig[i].Some? {
      assert orig[i..e] == [orig[i]];
      assert f == e;
      PrefixSnoc(orig, i);
      FillSnocSome(orig[..i], supply, orig[i].value);
      PrefixSnoc(s, i);
      CompactedFrom(s, orig, f);
    } else {
      if e == i + 1 {
        assert orig[i..e] == [orig[i]];
      }
      assert f == i;
      RightBlocksSkip(orig, i, e);
      CompactedFrom(s, orig, f);
    }
  }

  /** `while memory[end].is_none() { end -= 1; if end == i { break; } }` */
  method SkipFree(memory: array<Option<nat>>, i: nat, end: nat) returns (end': nat)
    requires i < end < memory.Length
    ensures i <= end' <= end && (memory[end'].Some? || end' == i)
    ensures forall k :: end' < k <= end ==> memory[k].None?
  {
    end' := end;
    while memory[end'].None?
      invariant i < end' <= end
      invariant forall k :: end' < k <= end ==> memory[k].None?
      decreases end'
    {
      end' := end' - 1;
      if end' == i {
        break;
      }
    }
  }

  /** Taking the block at `last` fills the free slot `i` with the next id read from the right. */
  lemma MoveSupply(orig: Memory, i: nat, e: nat, last: nat)
    requires i < last < e <= |orig| && orig[i].None? && orig[last].Some?
    requires forall k :: last < k < e ==> orig[k].None?
    requires Holes(orig[..i]) == |RightBlocks(orig, e)|
    ensures Holes(orig[..i + 1]) == |RightBlocks(orig, last)|
    ensures Fill(orig[..i + 1], RightBlocks(orig, last)) == Fill(orig[..i], RightBlocks(orig, e)) + [orig[last]]
  {
    RightBlocksSkip(orig, last + 1, e);
    var supply := RightBlocks(orig, e);
    assert RightBlocks(orig, last) == supply + [orig[last].value];
    FillSnocNone(orig[..i], supply, orig[last].value);
    PrefixSnoc(orig, i);
  }

  lemma PrefixSnoc<T>(s: seq<T>, i: nat)
    requires i < |s|
    ensures s[..i + 1] == s[..i] + [s[i]]
  {
  }

  /** Moving the rightmost block `last` into the free slot `i` keeps the loop state. */
  lemma CompactingMove(s: Memory, orig: Memory, i: nat, e: nat, last: nat)
    requires Compacting(s, orig, i, e) && i < last < e
    requires s[i].None? && s[last].Some? && forall k :: last < k < e ==> s[k].None?
    ensures Compacting(s[i := s[last]][last := None], orig, i + 1, last)
  {
    var s' := s[i := s[last]][last := None];
    assert s[last] == orig[last] && s[i] == orig[i];
    MoveSupply(orig, i, e, last);
    assert s'[..i + 1] == s[..i] + [s[last]];
  }

  /** When every slot from `i` on is free, the memory is the compacted one. */
  lemma CompactingStop(s: Memory, orig: Memory, i: nat, e: nat)
    requires Compacting(s, orig, i, e) && i < e
    requires forall k :: i <= k < e ==> s[k].None?
    ensures s == Compacted(orig)
  {
    RightBlocksSkip(orig, i + 1, e);
    assert Compacting(s, orig, i, i + 1);
    CompactingDone(s, orig, i, i + 1);
  }

  /** If the indices meet on a free slot, the blocks all lie before it, so it is not slot 0. */
  lemma StopPastStart(s: Memory, orig: Memory, i: nat, e: nat)
    requires Compacting(s, orig, i, e) && i < e
    requires forall k :: i <= k < e ==> s[k].None?
    ensures |Blocks(orig)| == i
  {
    BlocksSplit(orig, i, e);
    BlocksAllFree(orig[i..e]);
  }

  /** One iteration of the compaction loop whose slot `i` is free. */
  method FillSlot(memory: array<Option<nat>>, ghost orig: Memory, i: nat, end: nat)
    returns (end': nat, stop: bool)
    modifies memory
    requires Compacting(memory[..], orig, i, end + 1) && i < end && |Blocks(orig)| >= 1
    requires memory[i].None?
    ensures stop ==> memory[..] == Compacted(orig)
    ensures !stop ==> end' < end && Compacting(memory[..], orig, i + 1, end' + 1)
  {
    var last := SkipFree(memory, i, end);
    ghost var s := memory[..];
    memory[i] := memory[last];
    memory[last] := None;
    if memory[i].None? {
      // The indices met: everything from `i` on was free and `end -= 1` takes `end` to `i - 1`.
      assert last == i;
      StopPastStart(s, orig, i, end + 1);
      end' := last - 1;
      stop := true;
      assert memory[..] == s;
      CompactingStop(s, orig, i, end + 1);
    } else {
      end' := last - 1;
      stop := false;
      assert memory[..] == s[i := s[last]][last := None];
      CompactingMove(s, orig, i, end + 1, last);
    }
  }

  /**
   * The two-index loop. A free slot at `i` receives the rightmost file block, which is then
   * freed; the indices move towards each other until they meet. The memory must hold a file
   * block or be a single slot: an empty memory underflows at `memory.len() - 1`, and a free
   * memory of two slots or more underflows at the `end -= 1` that follows the meeting at index 0.
   */
  method Compact(memory: array<Option<nat>>, ghost orig: Memory)
    modifies memory
    requires memory[..] == orig && (|Blocks(orig)| >= 1 || |orig| == 1)
    ensures memory[..] == Compacted(orig)
  {
    var i: nat := 0;
    var end: nat := memory.Length - 1;
    assert orig[..0] == [];
    while i < end
      invariant Compacting(memory[..], orig, i, end + 1)
      decreases end - i
    {
      if memory[i].None? {
        var stop;
        end, stop := FillSlot(memory, orig, i, end);
        if stop {
          return;
        }
        assert Compacting(memory[..], orig, i + 1, end + 1);
      } else {
        KeepSlot(memory[..], orig, i, end + 1);
        assert Compacting(memory[..], orig, i + 1, end + 1);
      }
      i := i + 1;
    }
    CompactingDone(memory[..], orig, i, end + 1);
  }

  /** A slot that already holds a file keeps it. */
  lemma KeepSlot(s: Memory, orig: Memory, i: nat, e: nat)
    requires Compacting(s, orig, i, e) && i + 1 < e && s[i].Some?
    ensures Compacting(s, orig, i + 1, e)
  {
    FillSnocSome(orig[..i], RightBlocks(orig, e), orig[i].value);
    assert orig[..i + 1] == orig[..i] + [orig[i]];
    assert s[..i + 1] == s[..i] + [s[i]];
  }

  // ---------------------------------------------------------------------------------------------
  // Checksum and the whole of part 1.

  /** `enumerate().map(|(i, v)| i * v).sum()` over ids starting at position `start`. */
  function WeightedSum(ids: seq<nat>, start: nat): nat
  {
    if ids == [] then 0 else start * ids[0] + WeightedSum(ids[1..], start + 1)
  }

  /** The checksum: position times file id, summed over the file blocks once flattened. */
  function Checksum(m: Memory): nat
  {
    WeightedSum(Blocks(m), 0)
  }

  /** Truncating to `F` slots drops only free slots, so the blocks stay as they are. */
  lemma {:induction false} BlocksAllFree(m: Memory)
    requires forall k :: 0 <= k < |m| ==> m[k].None?
    ensures Blocks(m) == []
  {
    if m != [] {
      BlocksAllFree(m[1..]);
    }
  }

  lemma TruncateKeepsBlocks(m: Memory)
    ensures |Blocks(m)| <= |m|
    ensures Blocks(Compacted(m)[..|Blocks(m)|]) == Blocks(Compacted(m))
  {
    var f := |Blocks(m)|;
    var r := Compacted(m);
    CompactedLayout(m);
    assert r == r[..f] + r[f..];
    BlocksAppend(r[..f], r[f..]);
    BlocksAllFree(r[f..]);
  }

  /** The disk after compaction, truncated to the `final_size` slots the files occupy. */
  function CompactedDisk(digits: seq<nat>): (r: Memory)
    ensures |r| == FileSize(digits)
  {
    LayoutSize(digits, 0);
    Compacted(Layout(digits, 0))[..FileSize(digits)]
  }

  /** `day_09_part_1` on the parsed digits, which must describe a file block or a disk of one slot. */
  method Part1(digits: seq<nat>) returns (checksum: nat)
    requires FileSize(digits) >= 1 || Sum(digits) == 1
    ensures checksum == Checksum(CompactedDisk(digits))
  {
    var layout, finalSize := BuildMemory(digits);
    LayoutSize(digits, 0);
    var memory := new Option<nat>[|layout|](k requires 0 <= k < |layout| => layout[k]);
    assert memory[..] == layout;
    Compact(memory, layout);
    var truncated := memory[..finalSize];
    checksum := Checksum(truncated);
  }

  /** The checksum read as the sum of position times id over the slots, the last slot last. */
  function PositionalSum(m: Memory): nat
    requires forall k :: 0 <= k < |m| ==> m[k].Some?
  {
    if m == [] then 0 else PositionalSum(m[..|m| - 1]) + (|m| - 1) * m[|m| - 1].value
  }

  lemma {:induction false} WeightedSumSnoc(ids: seq<nat>, x: nat, start: nat)
    ensures WeightedSum(ids + [x], start) == WeightedSum(ids, start) + (start + |ids|) * x
  {
    if ids != [] {
      assert (ids + [x])[1..] == ids[1..] + [x];
      WeightedSumSnoc(ids[1..], x, start + 1);
    }
  }

  /** On a fully occupied disk the checksum weights every slot's id by its position. */
  lemma {:induction false} ChecksumPositional(m: Memory)
    requires forall k :: 0 <= k < |m| ==> m[k].Some?
    ensures Checksum(m) == PositionalSum(m)
    decreases |m|
  {
    if m != [] {
      var init := m[..|m| - 1];
      ChecksumPositional(init);
      assert m == init + [m[|m| - 1]];
      BlocksAppend(init, [m[|m| - 1]]);
      BlocksAllOccupied(init);
      assert Blocks([m[|m| - 1]]) == [m[|m| - 1].value] + Blocks([]);
      WeightedSumSnoc(Blocks(init), m[|m| - 1].value, 0);
      assert Blocks(m) == Blocks(init) + [m[|m| - 1].value];
    }
  }

  /** The compacted, truncated disk is fully occupied, so its checksum is the positional one. */
  lemma CompactedDiskChecksum(digits: seq<nat>)
    ensures forall k :: 0 <= k < |CompactedDisk(digits)| ==> CompactedDisk(digits)[k].Some?
    ensures Checksum(CompactedDisk(digits)) == PositionalSum(CompactedDisk(digits))
  {
    LayoutSize(digits, 0);
    CompactedLayout(Layout(digits, 0));
    ChecksumPositional(CompactedDisk(digits));
  }
}
