/**
 * Day 23: a LAN party. Computers have two-letter names, coded as numbers below 26 * 26, and the
 * connections form an undirected graph whose node indices are those codes. Part 1 counts the
 * triangles with a computer whose name starts with 't'. Part 2 lists all maximal cliques with the
 * Bron–Kerbosch algorithm with pivot and prints the names of a largest one, sorted and joined by
 * commas.
 */
module Day23 {
  import opened Common

  // ---------------------------------------------------------------------------------------------
  // Identifiers

  /** A computer's two-letter name. */
  datatype Identifier = Identifier(first: char, second: char)

  /** One line of the input: an undirected connection. */
  datatype Connection = Connection(a: Identifier, b: Identifier)

  /** The number of two-letter names. */
  const CodeCount: nat := 676

  predicate IsLower(c: char)
  {
    'a' <= c <= 'z'
  }

  /** `as_u32` assumes lower-case letters. */
  predicate ValidIdentifier(id: Identifier)
  {
    IsLower(id.first) && IsLower(id.second)
  }

  /** `Identifier::as_u32`: the name as a base-26 number. */
  function AsU32(id: Identifier): (code: nat)
    requires ValidIdentifier(id)
    ensures code < CodeCount
  {
    (id.first as int - 'a' as int) * 26 + (id.second as int - 'a' as int)
  }

  /** `Identifier::from_u32`: the base-26 digits of a code as letters. */
  function FromU32(value: nat): (id: Identifier)
    requires value < CodeCount
    ensures ValidIdentifier(id)
  {
    Identifier((value / 26 + 'a' as int) as char, (value % 26 + 'a' as int) as char)
  }

  /** Decoding the code of a name gives the name back. */
  lemma {:induction false} FromAsU32(id: Identifier)
    requires ValidIdentifier(id)
    ensures FromU32(AsU32(id)) == id
  {
    var hi, lo := id.first as int - 'a' as int, id.second as int - 'a' as int;
    ModUnique(AsU32(id), 26, hi, lo);
  }

  /** Encoding the name of a code gives the code back. */
  lemma {:induction false} AsFromU32(value: nat)
    requires value < CodeCount
    ensures AsU32(FromU32(value)) == value
  {
  }

  /** The derived ordering of `Identifier`: by first letter, then by second. */
  predicate IdentifierLess(x: Identifier, y: Identifier)
  {
    x.first < y.first || (x.first == y.first && x.second < y.second)
  }

  /** The codes are ordered as the names are, so sorting codes sorts names. */
  lemma {:induction false} AsU32Ordered(x: Identifier, y: Identifier)
    requires ValidIdentifier(x) && ValidIdentifier(y)
    ensures IdentifierLess(x, y) <==> AsU32(x) < AsU32(y)
  {
  }

  /** `Display for Identifier`: the two letters. */
  function Name(id: Identifier): (s: string)
    ensures |s| == 2 && s[0] == id.first && s[1] == id.second
  {
    [id.first, id.second]
  }

  /** Whether the computer with a code has a name starting with 't'. */
  predicate StartsWithT(code: nat)
  {
    code < CodeCount && FromU32(code).first == 't'
  }

  /** The names starting with 't' are the codes 19 * 26 .. 20 * 26 - 1. */
  lemma {:induction false} StartsWithTRange(code: nat)
    requires code < CodeCount
    ensures StartsWithT(code) <==> 494 <= code < 520
  {
  }

  // ---------------------------------------------------------------------------------------------
  // The graph

  /** An undirected graph on the nodes `0 .. size - 1`, as a list of edges. */
  datatype Graph = Graph(size: nat, edges: seq<(nat, nat)>)

  /** Every edge joins two nodes, and every node is a code. */
  predicate WellFormed(g: Graph)
  {
    g.size <= CodeCount && forall i :: 0 <= i < |g.edges| ==> g.edges[i].0 < g.size && g.edges[i].1 < g.size
  }

  predicate Adjacent(g: Graph, u: nat, v: nat)
  {
    (u, v) in g.edges || (v, u) in g.edges
  }

  /** `graph.neighbors(u)`, as a set. */
  function Neighbors(g: Graph, u: nat): (s: set<nat>)
    ensures forall v: nat :: v in s <==> v < g.size && Adjacent(g, u, v)
  {
    set v | 0 <= v < g.size && Adjacent(g, u, v)
  }

  /** The edge list of the connections, with both ends coded. */
  function EdgeList(data: seq<Connection>): (edges: seq<(nat, nat)>)
    requires forall i :: 0 <= i < |data| ==> ValidIdentifier(data[i].a) && ValidIdentifier(data[i].b)
    ensures |edges| == |data|
    ensures forall i :: 0 <= i < |data| ==> edges[i] == (AsU32(data[i].a), AsU32(data[i].b))
  {
    if data == [] then []
    else EdgeList(data[..|data| - 1]) + [(AsU32(data[|data| - 1].a), AsU32(data[|data| - 1].b))]
  }

  /** The number of nodes `from_edges` creates: one more than the largest end. */
  function NodeCount(edges: seq<(nat, nat)>): (n: nat)
    ensures forall i :: 0 <= i < |edges| ==> edges[i].0 < n && edges[i].1 < n
    ensures edges == [] ==> n == 0
    ensures n > 0 ==> exists i :: 0 <= i < |edges| && (edges[i].0 == n - 1 || edges[i].1 == n - 1)
  {
    if edges == [] then 0
    else
      var e := edges[|edges| - 1];
      var m := NodeCount(edges[..|edges| - 1]);
      var top := if e.0 < e.1 then e.1 + 1 else e.0 + 1;
      if m < top then top else m
  }

  /** `build_graph`: nodes are the codes up to the largest one used, edges the connections. */
  function BuildGraph(data: seq<Connection>): (g: Graph)
    requires forall i :: 0 <= i < |data| ==> ValidIdentifier(data[i].a) && ValidIdentifier(data[i].b)
    ensures WellFormed(g)
  {
    var edges := EdgeList(data);
    Graph(NodeCount(edges), edges)
  }

  /** A node index is the code of a name, so decoding an edge's end gives the connection's name. */
  lemma {:induction false} NodeNames(data: seq<Connection>, i: nat)
    requires forall i :: 0 <= i < |data| ==> ValidIdentifier(data[i].a) && ValidIdentifier(data[i].b)
    requires i < |data|
    ensures var g := BuildGraph(data);
      FromU32(g.edges[i].0) == data[i].a && FromU32(g.edges[i].1) == data[i].b
      && Adjacent(g, g.edges[i].0, g.edges[i].1) && Adjacent(g, g.edges[i].1, g.edges[i].0)
  {
    FromAsU32(data[i].a);
    FromAsU32(data[i].b);
    assert BuildGraph(data).edges[i] in BuildGraph(data).edges;
  }

  // ---------------------------------------------------------------------------------------------
  // Part 1: triangles

  /** `u < v < w` form a triangle and one of them starts with 't': what part 1 counts. */
  predicate Counted(g: Graph, u: nat, v: nat, w: nat)
  {
    u < v < w < g.size && Adjacent(g, u, v) && Adjacent(g, u, w) && Adjacent(g, v, w)
    && (StartsWithT(u) || StartsWithT(v) || StartsWithT(w))
  }

  /** The counted triangles with smallest node `u`, middle node in `vs` and largest node in `ws`. */
  ghost function Via(g: Graph, u: nat, v: nat, ws: set<nat>): set<(nat, nat, nat)>
  {
    set w | w in ws && Counted(g, u, v, w) :: (u, v, w)
  }

  ghost function At(g: Graph, u: nat, vs: set<nat>): set<(nat, nat, nat)>
  {
    set v, w | v in vs && 0 <= w < g.size && Counted(g, u, v, w) :: (u, v, w)
  }

  /** The counted triangles whose smallest node is below `n`. */
  ghost function Below(g: Graph, n: nat): set<(nat, nat, nat)>
  {
    set u, v, w | 0 <= u < n && 0 <= v < g.size && 0 <= w < g.size && Counted(g, u, v, w) :: (u, v, w)
  }

  /** Every counted triangle, each once, as its nodes in increasing order. */
  ghost function Triangles(g: Graph): set<(nat, nat, nat)>
  {
    Below(g, g.size)
  }

  /** A triple is in `Triangles` exactly when it is a counted triangle. */
  lemma {:induction false} TrianglesMembers(g: Graph, u: nat, v: nat, w: nat)
    ensures (u, v, w) in Triangles(g) <==> Counted(g, u, v, w)
  {
  }

  /** A common neighbour adds the triangle it closes, if that is counted. */
  lemma {:induction false} ViaAdd(g: Graph, u: nat, v: nat, ws: set<nat>, w: nat)
    requires w !in ws
    ensures Via(g, u, v, ws + {w}) == Via(g, u, v, ws) + (if Counted(g, u, v, w) then {(u, v, w)} else {})
    ensures (u, v, w) !in Via(g, u, v, ws)
  {
  }

  /** All common neighbours of `u` and `v` give all the counted triangles through `u` and `v`. */
  lemma {:induction false} ViaCommon(g: Graph, u: nat, v: nat)
    ensures Via(g, u, v, Neighbors(g, u) * Neighbors(g, v)) == At(g, u, {v})
  {
  }

  /** A neighbour adds the triangles through it; those are new. */
  lemma {:induction false} AtAdd(g: Graph, u: nat, vs: set<nat>, v: nat)
    requires v !in vs
    ensures At(g, u, vs + {v}) == At(g, u, vs) + At(g, u, {v})
    ensures At(g, u, vs) * At(g, u, {v}) == {}
  {
  }

  /** A neighbour that is not above `u` closes no counted triangle. */
  lemma {:induction false} AtNotAbove(g: Graph, u: nat, v: nat)
    requires v <= u
    ensures At(g, u, {v}) == {}
  {
  }

  /** The triangles through the neighbours of `u` are all those with smallest node `u`. */
  lemma {:induction false} BelowAdd(g: Graph, n: nat)
    ensures Below(g, n + 1) == Below(g, n) + At(g, n, Neighbors(g, n))
    ensures Below(g, n) * At(g, n, Neighbors(g, n)) == {}
  {
  }

  /** The innermost loop: the counted triangles closed by the common neighbours of `u` and `v`. */
  method CountCommon(g: Graph, u: nat, v: nat, uNeighbors: set<nat>) returns (count: nat)
    requires uNeighbors == Neighbors(g, u) && v in uNeighbors && u < v
    ensures count == |At(g, u, {v})|
  {
    var common := uNeighbors * Neighbors(g, v);
    var remaining := common;
    count := 0;
    while remaining != {}
      invariant remaining <= common
      invariant count == |Via(g, u, v, common - remaining)|
      decreases |remaining|
    {
      var w :| w in remaining;
      ViaAdd(g, u, v, common - remaining, w);
      assert Counted(g, u, v, w) <==> w > v && (StartsWithT(u) || StartsWithT(v) || StartsWithT(w));
      if w > v && (StartsWithT(u) || StartsWithT(v) || StartsWithT(w)) {
        count := count + 1;
      }
      assert common - (remaining - {w}) == (common - remaining) + {w};
      remaining := remaining - {w};
    }
    assert common - remaining == common;
    ViaCommon(g, u, v);
  }

  /** The body of the `map` of `day_23_part_1`: the counted triangles with smallest node `u`. */
  method CountAt(g: Graph, u: nat) returns (count: nat)
    ensures count == |At(g, u, Neighbors(g, u))|
  {
    var uNeighbors := Neighbors(g, u);
    var remaining := uNeighbors;
    count := 0;
    while remaining != {}
      invariant remaining <= uNeighbors
      invariant count == |At(g, u, uNeighbors - remaining)|
      decreases |remaining|
    {
      var v :| v in remaining;
      AtAdd(g, u, uNeighbors - remaining, v);
      if v > u {
        var through := CountCommon(g, u, v, uNeighbors);
        count := count + through;
      } else {
        AtNotAbove(g, u, v);
      }
      assert uNeighbors - (remaining - {v}) == (uNeighbors - remaining) + {v};
      remaining := remaining - {v};
    }
    assert uNeighbors - remaining == uNeighbors;
  }

  /** The loop of `day_23_part_1` over the nodes: every counted triangle once. */
  method CountTriangles(g: Graph) returns (count: nat)
    ensures count == |Triangles(g)|
  {
    count := 0;
    for u := 0 to g.size
      invariant count == |Below(g, u)|
    {
      var atU := CountAt(g, u);
      BelowAdd(g, u);
      count := count + atU;
    }
  }

  // ---------------------------------------------------------------------------------------------
  // Part 2: maximal cliques

  /** Both directions of every edge meet two different nodes: the input has no `xx-xx` line. */
  predicate Loopless(g: Graph)
  {
    forall i :: 0 <= i < |g.edges| ==> g.edges[i].0 != g.edges[i].1
  }

  predicate InGraph(g: Graph, s: set<nat>)
  {
    forall a :: a in s ==> a < g.size
  }

  predicate IsClique(g: Graph, s: set<nat>)
  {
    InGraph(g, s) && forall a, b :: a in s && b in s && a != b ==> Adjacent(g, a, b)
  }

  /** The nodes outside `r` adjacent to all of `r`: those that would make a larger clique. */
  function CommonNeighbours(g: Graph, r: set<nat>): set<nat>
  {
    set v | 0 <= v < g.size && v !in r && forall a :: a in r ==> Adjacent(g, v, a)
  }

  /** A clique that no node extends. */
  predicate IsMaximalClique(g: Graph, s: set<nat>)
  {
    IsClique(g, s) && CommonNeighbours(g, s) == {}
  }

  /** The state of a call: `current_clique` is a clique and candidates and excluded split its common neighbours. */
  predicate Split(g: Graph, r: set<nat>, p: set<nat>, x: set<nat>)
  {
    IsClique(g, r) && p * x == {} && p + x == CommonNeighbours(g, r)
  }

  /** The maximal cliques a call must report: those through `r`, within `r + p` and avoiding `x`. */
  predicate Owed(r: set<nat>, p: set<nat>, x: set<nat>, m: set<nat>)
  {
    r <= m && m <= r + p && m * x == {}
  }

  /** `m` is reported at or after position `start`. */
  predicate ReportedFrom(cliques: seq<set<nat>>, start: nat, m: set<nat>)
  {
    exists i :: start <= i < |cliques| && cliques[i] == m
  }

  /** Every maximal clique owed by a call is reported at or after `start`. */
  ghost predicate ReportsOwed(g: Graph, r: set<nat>, p: set<nat>, x: set<nat>, cliques: seq<set<nat>>, start: nat)
  {
    forall m :: IsMaximalClique(g, m) && Owed(r, p, x, m) ==> ReportedFrom(cliques, start, m)
  }

  /** The number of a node's neighbours among the candidates: the key of the pivot choice. */
  function CandidateDegree(g: Graph, u: nat, p: set<nat>): nat
  {
    DegreeBelow(g, u, p, g.size)
  }

  /** The neighbours of `u` among the candidates below `n`, counted node by node. */
  function DegreeBelow(g: Graph, u: nat, p: set<nat>, n: nat): nat
  {
    if n == 0 then 0 else DegreeBelow(g, u, p, n - 1) + (if n - 1 in p && Adjacent(g, u, n - 1) then 1 else 0)
  }

  /** The candidates adjacent to `u` below `n`. */
  ghost function NeighboursIn(g: Graph, u: nat, p: set<nat>, n: nat): set<nat>
  {
    set v | 0 <= v < n && v in p && Adjacent(g, u, v)
  }

  /** The count is the number of `u`'s neighbours among the candidates below `n`. */
  lemma {:induction false} DegreeCounts(g: Graph, u: nat, p: set<nat>, n: nat)
    ensures DegreeBelow(g, u, p, n) == |NeighboursIn(g, u, p, n)|
  {
    if n > 0 {
      DegreeCounts(g, u, p, n - 1);
      var last := if n - 1 in p && Adjacent(g, u, n - 1) then {n - 1} else {};
      assert NeighboursIn(g, u, p, n) == NeighboursIn(g, u, p, n - 1) + last;
      assert NeighboursIn(g, u, p, n - 1) * last == {};
    }
  }

  /** The pivot key is the number of the node's neighbours among the candidates. */
  lemma {:induction false} CandidateDegreeIsCount(g: Graph, u: nat, p: set<nat>)
    ensures CandidateDegree(g, u, p) == |Neighbors(g, u) * p|
  {
    DegreeCounts(g, u, p, g.size);
    assert NeighboursIn(g, u, p, g.size) == Neighbors(g, u) * p;
  }

  predicate IsPivot(g: Graph, u: nat, p: set<nat>, x: set<nat>)
  {
    u in p + x && forall w :: w in p + x ==> CandidateDegree(g, w, p) <= CandidateDegree(g, u, p)
  }

  /** When candidates or excluded nodes remain, `max_by_key` finds a pivot. */
  lemma {:induction false} PivotExists(g: Graph, p: set<nat>, x: set<nat>)
    requires p + x != {}
    ensures exists u :: IsPivot(g, u, p, x)
  {
    MaxDegreeExists(g, p + x, p);
    var u :| u in p + x && forall w :: w in p + x ==> CandidateDegree(g, w, p) <= CandidateDegree(g, u, p);
    assert IsPivot(g, u, p, x);
  }

  /** A non-empty set has an element of largest degree. */
  lemma {:induction false} MaxDegreeExists(g: Graph, s: set<nat>, p: set<nat>)
    requires s != {}
    ensures exists u :: u in s && forall w :: w in s ==> CandidateDegree(g, w, p) <= CandidateDegree(g, u, p)
    decreases |s|
  {
    var y :| y in s;
    if s - {y} != {} {
      MaxDegreeExists(g, s - {y}, p);
      var u :| u in s - {y} && forall w :: w in s - {y} ==> CandidateDegree(g, w, p) <= CandidateDegree(g, u, p);
      if CandidateDegree(g, y, p) > CandidateDegree(g, u, p) {
        assert forall w :: w in s ==> CandidateDegree(g, w, p) <= CandidateDegree(g, y, p);
      } else {
        assert forall w :: w in s ==> CandidateDegree(g, w, p) <= CandidateDegree(g, u, p);
      }
    } else {
      assert s == {y};
    }
  }

  /** Adjacency is symmetric. */
  lemma {:induction false} AdjacentSymmetric(g: Graph, u: nat, v: nat)
    ensures Adjacent(g, u, v) <==> Adjacent(g, v, u)
  {
  }

  /** In a loopless graph no node is its own neighbour. */
  lemma {:induction false} NotOwnNeighbour(g: Graph, v: nat)
    requires Loopless(g)
    ensures !Adjacent(g, v, v)
  {
    assert forall i :: 0 <= i < |g.edges| ==> g.edges[i] != (v, v);
  }

  /** Moving a candidate to the excluded nodes keeps the split. */
  lemma {:induction false} SplitMove(g: Graph, r: set<nat>, p: set<nat>, x: set<nat>, v: nat)
    requires Split(g, r, p, x) && v in p
    ensures Split(g, r, p - {v}, x + {v})
  {
    assert (p - {v}) + (x + {v}) == p + x;
  }

  /** Branching on a candidate `v` gives a well-formed call on `r + {v}`. */
  lemma {:induction false} SplitBranch(g: Graph, r: set<nat>, p: set<nat>, x: set<nat>, v: nat)
    requires Loopless(g) && Split(g, r, p, x) && v in p
    ensures Split(g, r + {v}, p * Neighbors(g, v), x * Neighbors(g, v))
    ensures |p * Neighbors(g, v)| < |p|
  {
    NotOwnNeighbour(g, v);
    var r' := r + {v};
    forall a, b | a in r' && b in r' && a != b
      ensures Adjacent(g, a, b)
    {
      if a == v {
        AdjacentSymmetric(g, b, v);
      }
    }
    var common := CommonNeighbours(g, r');
    forall w | w in common
      ensures w in p * Neighbors(g, v) + x * Neighbors(g, v)
    {
      assert w in CommonNeighbours(g, r);
      AdjacentSymmetric(g, w, v);
    }
    forall w | w in p * Neighbors(g, v) + x * Neighbors(g, v)
      ensures w in common
    {
      assert w in CommonNeighbours(g, r);
      AdjacentSymmetric(g, w, v);
    }
    assert p * Neighbors(g, v) <= p - {v};
    SubsetCardinality(p * Neighbors(g, v), p - {v});
  }

  /** The first branch keeps every owed maximal clique reachable: one of its nodes beyond `r` is not a neighbour of the pivot. */
  lemma {:induction false} PivotMissesNoClique(g: Graph, r: set<nat>, p: set<nat>, x: set<nat>, pivot: nat, m: set<nat>)
    requires Loopless(g) && Split(g, r, p, x) && pivot in p + x
    requires IsMaximalClique(g, m) && Owed(r, p, x, m)
    ensures (m - r) * (p - Neighbors(g, pivot)) != {}
  {
    NotOwnNeighbour(g, pivot);
    assert pivot in CommonNeighbours(g, r);
    if pivot in m {
      assert pivot in (m - r) * (p - Neighbors(g, pivot));
    } else {
      assert pivot !in CommonNeighbours(g, m);
      var a :| a in m && !Adjacent(g, pivot, a);
      assert a in (m - r) * (p - Neighbors(g, pivot));
    }
  }

  /** An owed clique containing the branch node is owed by the branch's call. */
  lemma {:induction false} OwedByBranch(g: Graph, r: set<nat>, p: set<nat>, x: set<nat>, v: nat, m: set<nat>)
    requires Owed(r, p, x, m) && IsClique(g, m) && v in m && v in p
    ensures Owed(r + {v}, p * Neighbors(g, v), x * Neighbors(g, v), m)
  {
    forall a | a in m && a !in r + {v}
      ensures a in p * Neighbors(g, v)
    {
      AdjacentSymmetric(g, a, v);
    }
  }

  /** Reports stay where they are when more are pushed. */
  lemma {:induction false} ReportedGrows(a: seq<set<nat>>, b: seq<set<nat>>, start: nat, m: set<nat>)
    requires |a| <= |b| && b[..|a|] == a && ReportedFrom(a, start, m)
    ensures ReportedFrom(b, start, m)
  {
    var i :| start <= i < |a| && a[i] == m;
    assert b[i] == b[..|a|][i];
  }

  /** Pushing sound reports after sound reports keeps the reports sound and the prefix. */
  lemma {:induction false} Extends(g: Graph, a: seq<set<nat>>, b: seq<set<nat>>, c: seq<set<nat>>)
    requires |a| <= |b| && b[..|a|] == a && SoundFrom(g, b, |a|)
    requires |b| <= |c| && c[..|b|] == b && SoundFrom(g, c, |b|)
    ensures c[..|a|] == a && SoundFrom(g, c, |a|)
  {
    assert c[..|a|] == c[..|b|][..|a|];
    forall i | |a| <= i < |c|
      ensures IsMaximalClique(g, c[i])
    {
      if i < |b| {
        assert c[i] == c[..|b|][i];
      }
    }
  }

  /** Every owed maximal clique is reported, or still owed by a branch not taken yet. */
  ghost predicate Progress(g: Graph, r: set<nat>, p0: set<nat>, x0: set<nat>, p: set<nat>, x: set<nat>,
                     remaining: set<nat>, cliques: seq<set<nat>>, start: nat)
  {
    forall m :: IsMaximalClique(g, m) && Owed(r, p0, x0, m) ==>
      ReportedFrom(cliques, start, m) || (Owed(r, p, x, m) && (m - r) * remaining != {})
  }

  /** The cliques pushed from `start` on are maximal. */
  predicate SoundFrom(g: Graph, cliques: seq<set<nat>>, start: nat)
  {
    forall i :: start <= i < |cliques| ==> IsMaximalClique(g, cliques[i])
  }

  /**
   * `bron_kerbosch_with_pivot_recursive`: pushes onto `cliques` every maximal clique through
   * `current` within `current + candidates` that avoids `excluded`, and nothing else.
   */
  method BronKerbosch(g: Graph, current: set<nat>, candidates: set<nat>, excluded: set<nat>, cliques: seq<set<nat>>)
    returns (cliques': seq<set<nat>>)
    requires Loopless(g) && Split(g, current, candidates, excluded)
    ensures |cliques| <= |cliques'| && cliques'[..|cliques|] == cliques
    ensures SoundFrom(g, cliques', |cliques|)
    ensures ReportsOwed(g, current, candidates, excluded, cliques', |cliques|)
    decreases |candidates|
  {
    if candidates == {} && excluded == {} {
      cliques' := cliques + [current];
      assert cliques'[|cliques|] == current;
      forall m | IsMaximalClique(g, m) && Owed(current, candidates, excluded, m)
        ensures ReportedFrom(cliques', |cliques|, m)
      {
        assert m == current;
      }
      return;
    }
    PivotExists(g, candidates, excluded);
    var pivot :| IsPivot(g, pivot, candidates, excluded);
    var p, x := candidates, excluded;
    var branches := candidates - Neighbors(g, pivot);
    var remaining := branches;
    cliques' := cliques;
    forall m | IsMaximalClique(g, m) && Owed(current, candidates, excluded, m)
      ensures (m - current) * remaining != {}
    {
      PivotMissesNoClique(g, current, candidates, excluded, pivot, m);
    }
    while remaining != {}
      invariant remaining <= p <= candidates && Split(g, current, p, x)
      invariant |cliques| <= |cliques'| && cliques'[..|cliques|] == cliques
      invariant SoundFrom(g, cliques', |cliques|)
      invariant Progress(g, current, candidates, excluded, p, x, remaining, cliques', |cliques|)
      decreases |remaining|
    {
      var selected :| selected in remaining;
      SplitBranch(g, current, p, x, selected);
      var before := cliques';
      SubsetCardinality(p, candidates);
      cliques' := BronKerbosch(g, current + {selected}, p * Neighbors(g, selected), x * Neighbors(g, selected), cliques');
      Extends(g, cliques, before, cliques');
      ProgressStep(g, current, candidates, excluded, p, x, remaining, selected, before, cliques', |cliques|);
      SplitMove(g, current, p, x, selected);
      p := p - {selected};
      x := x + {selected};
      remaining := remaining - {selected};
    }
    ProgressDone(g, current, candidates, excluded, p, x, cliques', |cliques|);
  }

  /** Taking the branch on `selected`, then moving it to the excluded nodes, keeps every owed clique accounted for. */
  lemma {:induction false} ProgressStep(g: Graph, r: set<nat>, p0: set<nat>, x0: set<nat>, p: set<nat>, x: set<nat>,
                                        remaining: set<nat>, selected: nat, before: seq<set<nat>>, after: seq<set<nat>>, start: nat)
    requires selected in remaining && selected in p
    requires Progress(g, r, p0, x0, p, x, remaining, before, start)
    requires start <= |before| <= |after| && after[..|before|] == before
    requires ReportsOwed(g, r + {selected}, p * Neighbors(g, selected), x * Neighbors(g, selected), after, |before|)
    ensures Progress(g, r, p0, x0, p - {selected}, x + {selected}, remaining - {selected}, after, start)
  {
    forall m | IsMaximalClique(g, m) && Owed(r, p0, x0, m)
      ensures ReportedFrom(after, start, m) || (Owed(r, p - {selected}, x + {selected}, m) && (m - r) * (remaining - {selected}) != {})
    {
      if ReportedFrom(before, start, m) {
        ReportedGrows(before, after, start, m);
      } else if selected in m {
        OwedByBranch(g, r, p, x, selected, m);
        var i :| |before| <= i < |after| && after[i] == m;
      } else {
        var w :| w in (m - r) * remaining;
        assert w in (m - r) * (remaining - {selected});
      }
    }
  }

  /** With no branch left, every owed clique has been reported. */
  lemma {:induction false} ProgressDone(g: Graph, r: set<nat>, p0: set<nat>, x0: set<nat>, p: set<nat>, x: set<nat>,
                                        cliques: seq<set<nat>>, start: nat)
    requires Progress(g, r, p0, x0, p, x, {}, cliques, start)
    ensures ReportsOwed(g, r, p0, x0, cliques, start)
  {
    forall m | IsMaximalClique(g, m) && Owed(r, p0, x0, m)
      ensures ReportedFrom(cliques, start, m)
    {
      assert (m - r) * {} == {};
    }
  }

  /** All the nodes of the graph: the first candidates. */
  function AllNodes(g: Graph): set<nat>
  {
    set v | 0 <= v < g.size && IsNode(g, v)
  }

  predicate IsNode(g: Graph, v: nat)
  {
    v < g.size
  }

  /** `find_all_maximal_cliques`: exactly the maximal cliques of the graph. */
  method FindAllMaximalCliques(g: Graph) returns (cliques: seq<set<nat>>)
    requires Loopless(g)
    ensures forall i :: 0 <= i < |cliques| ==> IsMaximalClique(g, cliques[i])
    ensures forall m :: IsMaximalClique(g, m) ==> m in cliques
  {
    assert CommonNeighbours(g, {}) == AllNodes(g);
    cliques := BronKerbosch(g, {}, AllNodes(g), {}, []);
    forall m | IsMaximalClique(g, m)
      ensures m in cliques
    {
      assert Owed({}, AllNodes(g), {}, m);
      var i :| 0 <= i < |cliques| && cliques[i] == m;
    }
  }

  /** Every clique grows into a maximal one. */
  lemma {:induction false} ExtendToMaximal(g: Graph, c: set<nat>) returns (m: set<nat>)
    requires IsClique(g, c)
    ensures IsMaximalClique(g, m) && c <= m
    decreases AllNodes(g) - c
  {
    if CommonNeighbours(g, c) == {} {
      m := c;
    } else {
      var v :| v in CommonNeighbours(g, c);
      forall a, b | a in c + {v} && b in c + {v} && a != b
        ensures Adjacent(g, a, b)
      {
        if a == v {
          AdjacentSymmetric(g, b, v);
        }
      }
      assert v in AllNodes(g) - c && v !in AllNodes(g) - (c + {v});
      m := ExtendToMaximal(g, c + {v});
    }
  }

  /** `max_by_key(|clique| clique.len())`: the last of the largest cliques, if there is one. */
  function Largest(cliques: seq<set<nat>>): (best: Option<set<nat>>)
    ensures best.Some? <==> cliques != []
    ensures best.Some? ==> best.value in cliques && forall i :: 0 <= i < |cliques| ==> |cliques[i]| <= |best.value|
  {
    if cliques == [] then None
    else
      var earlier := Largest(cliques[..|cliques| - 1]);
      var last := cliques[|cliques| - 1];
      if earlier.None? || |earlier.value| <= |last| then Some(last) else earlier
  }

  /** A clique with as many nodes as any. */
  ghost predicate IsMaximumClique(g: Graph, m: set<nat>)
  {
    IsClique(g, m) && forall c :: IsClique(g, c) ==> |c| <= |m|
  }

  /** `find_maximal_clique`: a largest maximal clique, which is a largest clique of the graph. */
  method FindMaximalClique(g: Graph) returns (best: Option<set<nat>>)
    requires Loopless(g)
    ensures best.Some? && IsMaximalClique(g, best.value) && IsMaximumClique(g, best.value)
  {
    var cliques := FindAllMaximalCliques(g);
    var empty := ExtendToMaximal(g, {});
    assert empty in cliques;
    best := Largest(cliques);
    forall c | IsClique(g, c)
      ensures |c| <= |best.value|
    {
      var m := ExtendToMaximal(g, c);
      SubsetCardinality(c, m);
      assert m in cliques;
    }
  }

  // ---------------------------------------------------------------------------------------------
  // The password

  /** The codes of `s` below `n` in increasing order: the sorted identifiers. */
  function Ascending(s: set<nat>, n: nat): seq<nat>
  {
    if n == 0 then [] else Ascending(s, n - 1) + (if n - 1 in s then [n - 1] else [])
  }

  /** `Ascending` lists exactly the members below `n`, each once, in increasing order. */
  lemma {:induction false} AscendingSorted(s: set<nat>, n: nat)
    ensures forall i :: 0 <= i < |Ascending(s, n)| ==> Ascending(s, n)[i] < n && Ascending(s, n)[i] in s
    ensures forall c :: c in s && c < n ==> c in Ascending(s, n)
    ensures forall i, j :: 0 <= i < j < |Ascending(s, n)| ==> Ascending(s, n)[i] < Ascending(s, n)[j]
  {
    if n > 0 {
      AscendingSorted(s, n - 1);
    }
  }

  /** The names of the codes. */
  function Names(codes: seq<nat>): (names: seq<string>)
    requires forall i :: 0 <= i < |codes| ==> codes[i] < CodeCount
    ensures |names| == |codes|
    ensures forall i :: 0 <= i < |codes| ==> names[i] == Name(FromU32(codes[i]))
  {
    if codes == [] then [] else Names(codes[..|codes| - 1]) + [Name(FromU32(codes[|codes| - 1]))]
  }

  /** `join(",")`. */
  function Join(names: seq<string>): string
  {
    if names == [] then ""
    else if |names| == 1 then names[0]
    else Join(names[..|names| - 1]) + "," + names[|names| - 1]
  }

  /** Joining two-letter names puts name `i` at `3 * i` and a comma after every name but the last. */
  lemma {:induction false} JoinLayout(names: seq<string>)
    requires names != [] && forall i :: 0 <= i < |names| ==> |names[i]| == 2
    ensures |Join(names)| == 3 * |names| - 1
    ensures forall i :: 0 <= i < |names| ==> Join(names)[3 * i] == names[i][0] && Join(names)[3 * i + 1] == names[i][1]
    ensures forall i :: 0 <= i < |names| - 1 ==> Join(names)[3 * i + 2] == ','
  {
    if |names| > 1 {
      var n := |names| - 1;
      JoinLayout(names[..n]);
      var front := Join(names[..n]);
      assert Join(names) == front + "," + names[n];
      forall i | 0 <= i < n
        ensures Join(names)[3 * i] == names[i][0] && Join(names)[3 * i + 1] == names[i][1]
      {
        assert names[..n][i] == names[i];
      }
    }
  }

  /** The password of a clique: its names, sorted, joined by commas. */
  function Password(clique: set<nat>): string
    requires forall c :: c in clique ==> c < CodeCount
  {
    AscendingSorted(clique, CodeCount);
    Join(Names(Ascending(clique, CodeCount)))
  }

  /** The password lists every member once, in the derived order of the names. */
  lemma {:induction false} PasswordSorted(clique: set<nat>)
    requires forall c :: c in clique ==> c < CodeCount
    ensures forall i :: 0 <= i < |Ascending(clique, CodeCount)| ==> Ascending(clique, CodeCount)[i] < CodeCount
    ensures var codes := Ascending(clique, CodeCount);
      (forall c :: c in clique <==> c in codes)
      && (forall i, j :: 0 <= i < j < |codes| ==> IdentifierLess(FromU32(codes[i]), FromU32(codes[j])))
  {
    var codes := Ascending(clique, CodeCount);
    AscendingSorted(clique, CodeCount);
    forall i, j | 0 <= i < j < |codes|
      ensures IdentifierLess(FromU32(codes[i]), FromU32(codes[j]))
    {
      AsFromU32(codes[i]);
      AsFromU32(codes[j]);
      AsU32Ordered(FromU32(codes[i]), FromU32(codes[j]));
    }
  }

  /** The password of a largest clique of a graph. */
  method CliquePassword(g: Graph) returns (password: string)
    requires Loopless(g) && WellFormed(g)
    ensures exists m :: IsMaximumClique(g, m) && (forall c :: c in m ==> c < CodeCount) && password == Password(m)
  {
    var best := FindMaximalClique(g);
    var clique := best.value;
    password := Password(clique);
  }

  /** The connections the parser accepts and `as_u32` can code. */
  predicate ValidInput(data: seq<Connection>)
  {
    forall i :: 0 <= i < |data| ==> ValidIdentifier(data[i].a) && ValidIdentifier(data[i].b)
  }

  /** No connection joins a computer to itself. */
  predicate NoSelfConnection(data: seq<Connection>)
  {
    forall i :: 0 <= i < |data| ==> data[i].a != data[i].b
  }

  /** A graph built from connections without a self-connection has no loop. */
  lemma {:induction false} BuildGraphLoopless(data: seq<Connection>)
    requires ValidInput(data) && NoSelfConnection(data)
    ensures Loopless(BuildGraph(data))
  {
    var g := BuildGraph(data);
    forall i | 0 <= i < |g.edges|
      ensures g.edges[i].0 != g.edges[i].1
    {
      FromAsU32(data[i].a);
      FromAsU32(data[i].b);
    }
  }

  /** `day_23_part_1`: the counted triangles of the connections' graph. */
  method Part1(data: seq<Connection>) returns (count: nat)
    requires ValidInput(data)
    ensures count == |Triangles(BuildGraph(data))|
  {
    var g := BuildGraph(data);
    count := CountTriangles(g);
  }

  /** `day_23_part_2`: the password of a largest clique of the connections' graph. */
  method Part2(data: seq<Connection>) returns (password: string)
    requires ValidInput(data) && NoSelfConnection(data)
    ensures exists m :: IsMaximumClique(BuildGraph(data), m) && (forall c :: c in m ==> c < CodeCount) && password == Password(m)
  {
    var g := BuildGraph(data);
    BuildGraphLoopless(data);
    password := CliquePassword(g);
  }
}
