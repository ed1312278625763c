/**
 * Day 24: crossed wires. Wires have three-character names over '0'-'9' and 'a'-'z', coded as
 * base-36 numbers below 36 * 36 * 36. Some wires carry initial values; every other wire is the
 * output of an AND, OR or XOR gate of two wires. The circuit is stored as a graph with one node
 * per initial value and one per gate, each gate node having an edge to the node of each of its
 * two inputs. Part 1 evaluates the gates whose output name starts with 'z' and reads them, from
 * the largest name to the smallest, as the bits of a binary number.
 */
module Day24 {
  import opened Common

  // ---------------------------------------------------------------------------------------------
  // Wire names

  const Base: nat := 36

  /** The number of three-character names, 36 * 36 * 36. */
  const CodeCount: nat := 46656

  predicate IsWireChar(c: char)
  {
    '0' <= c <= '9' || 'a' <= c <= 'z'
  }

  /** `wirename_char_to_u32`: digits first, then letters; any other character panics. */
  function CharToValue(c: char): (v: nat)
    requires IsWireChar(c)
    ensures v < Base
  {
    if '0' <= c <= '9' then c as int - '0' as int else c as int - 'a' as int + 10
  }

  /** `wirename_u32_to_char`; a value of 36 or more panics. */
  function ValueToChar(v: nat): (c: char)
    requires v < Base
    ensures IsWireChar(c)
  {
    if v < 10 then (v + '0' as int) as char else (v - 10 + 'a' as int) as char
  }

  lemma {:induction false} CharRoundTrip(c: char)
    requires IsWireChar(c)
    ensures ValueToChar(CharToValue(c)) == c
  {
  }

  lemma {:induction false} ValueRoundTrip(v: nat)
    requires v < Base
    ensures CharToValue(ValueToChar(v)) == v
  {
  }

  /** The digits take the values 0 to 9, and the order of characters is the order of values. */
  lemma {:induction false} CharValueOrder(c: char, d: char)
    requires IsWireChar(c) && IsWireChar(d)
    ensures CharToValue(c) < 10 <==> '0' <= c <= '9'
    ensures c < d <==> CharToValue(c) < CharToValue(d)
  {
  }

  /** A wire name, as its code. */
  datatype WireName = WireName(code: nat)

  /** `WireName::from_chars`: the three characters as base-36 digits, most significant first. */
  function FromChars(a: char, b: char, c: char): (w: WireName)
    requires IsWireChar(a) && IsWireChar(b) && IsWireChar(c)
    ensures w.code < CodeCount
  {
    WireName(CharToValue(a) * 1296 + CharToValue(b) * 36 + CharToValue(c))
  }

  /** `Display for WireName`: the three base-36 digits of the code, as characters. */
  function Display(w: WireName): (s: string)
    ensures |s| == 3 && IsWireChar(s[0]) && IsWireChar(s[1]) && IsWireChar(s[2])
  {
    [ValueToChar(w.code / 1296 % 36), ValueToChar(w.code / 36 % 36), ValueToChar(w.code % 36)]
  }

  /** The base-36 digits of a number below 36 * 36 * 36. */
  lemma {:induction false} Digits(code: nat, a: nat, b: nat, c: nat)
    requires a < Base && b < Base && c < Base && code == a * 1296 + b * 36 + c
    ensures code / 1296 % 36 == a && code / 36 % 36 == b && code % 36 == c
  {
    ModUnique(code, 1296, a, b * 36 + c);
    ModUnique(a, 36, 0, a);
    ModUnique(code, 36, a * 36 + b, c);
    ModUnique(a * 36 + b, 36, a, b);
  }

  /** Displaying the name built from three characters gives those characters. */
  lemma {:induction false} DisplayFromChars(a: char, b: char, c: char)
    requires IsWireChar(a) && IsWireChar(b) && IsWireChar(c)
    ensures Display(FromChars(a, b, c)) == [a, b, c]
  {
    Digits(FromChars(a, b, c).code, CharToValue(a), CharToValue(b), CharToValue(c));
    CharRoundTrip(a);
    CharRoundTrip(b);
    CharRoundTrip(c);
  }

  /** The code of a name below 36 * 36 * 36 is recovered from its display. */
  lemma {:induction false} FromCharsDisplay(w: WireName)
    requires w.code < CodeCount
    ensures FromChars(Display(w)[0], Display(w)[1], Display(w)[2]) == w
  {
    var a, r := w.code / 1296, w.code % 1296;
    DivBounds(w.code, 1296, 0, 36);
    Digits(w.code, a, r / 36, r % 36);
    ValueRoundTrip(a);
    ValueRoundTrip(r / 36);
    ValueRoundTrip(r % 36);
  }

  /** Distinct codes below 36 * 36 * 36 display as distinct names. */
  lemma {:induction false} DisplayInjective(w1: WireName, w2: WireName)
    requires w1.code < CodeCount && w2.code < CodeCount
    ensures Display(w1) == Display(w2) ==> w1 == w2
  {
    FromCharsDisplay(w1);
    FromCharsDisplay(w2);
  }

  /** `WireName::from_usize`, which asserts that the value is a code. */
  function FromUsize(value: nat): (w: WireName)
    requires value < CodeCount
    ensures FromChars(Display(w)[0], Display(w)[1], Display(w)[2]) == w
  {
    FromCharsDisplay(WireName(value));
    WireName(value)
  }

  /** All codes have distinct names, and every name encodes back to its code below the bound. */
  lemma {:induction false} AllNamesUnique()
    ensures forall i, j :: 0 <= i < CodeCount && 0 <= j < CodeCount && i != j ==>
        Display(FromUsize(i)) != Display(FromUsize(j))
    ensures forall i :: 0 <= i < CodeCount ==>
        var s := Display(FromUsize(i)); FromChars(s[0], s[1], s[2]).code == i
  {
    forall i, j | 0 <= i < CodeCount && 0 <= j < CodeCount && i != j
      ensures Display(FromUsize(i)) != Display(FromUsize(j))
    {
      DisplayInjective(FromUsize(i), FromUsize(j));
    }
  }

  /** The lexicographic order of two three-character names. */
  predicate NameLess(s: string, t: string)
    requires |s| == 3 && |t| == 3
  {
    s[0] < t[0] || (s[0] == t[0] && (s[1] < t[1] || (s[1] == t[1] && s[2] < t[2])))
  }

  /** Numbers in base 36 compare like their digits, most significant first. */
  lemma {:induction false} DigitOrder(a1: nat, b1: nat, c1: nat, a2: nat, b2: nat, c2: nat)
    requires a1 < Base && b1 < Base && c1 < Base && a2 < Base && b2 < Base && c2 < Base
    ensures a1 * 1296 + b1 * 36 + c1 < a2 * 1296 + b2 * 36 + c2
      <==> a1 < a2 || (a1 == a2 && (b1 < b2 || (b1 == b2 && c1 < c2)))
  {
  }

  /** Characters compare like their values. */
  lemma {:induction false} ValueCharOrder(u: nat, v: nat)
    requires u < Base && v < Base
    ensures ValueToChar(u) < ValueToChar(v) <==> u < v
    ensures ValueToChar(u) == ValueToChar(v) <==> u == v
  {
    ValueRoundTrip(u);
    ValueRoundTrip(v);
  }

  /** The order of codes, on which the derived `Ord` of `WireName` rests, is the order of names. */
  lemma {:induction false} CodeOrderIsNameOrder(w1: WireName, w2: WireName)
    requires w1.code < CodeCount && w2.code < CodeCount
    ensures w1.code < w2.code <==> NameLess(Display(w1), Display(w2))
  {
    var a1, r1 := w1.code / 1296, w1.code % 1296;
    var a2, r2 := w2.code / 1296, w2.code % 1296;
    DivBounds(w1.code, 1296, 0, 36);
    DivBounds(w2.code, 1296, 0, 36);
    Digits(w1.code, a1, r1 / 36, r1 % 36);
    Digits(w2.code, a2, r2 / 36, r2 % 36);
    DigitOrder(a1, r1 / 36, r1 % 36, a2, r2 / 36, r2 % 36);
    ValueCharOrder(a1, a2);
    ValueCharOrder(r1 / 36, r2 / 36);
    ValueCharOrder(r1 % 36, r2 % 36);
  }

  /** `WireName::is_output`: the first base-36 digit is the one of 'z'. */
  predicate IsOutput(w: WireName)
  {
    w.code / 1296 % 36 == 35
  }

  /** A wire is an output exactly when its name starts with 'z'. */
  lemma {:induction false} IsOutputIffZ(w: WireName)
    ensures IsOutput(w) <==> Display(w)[0] == 'z'
  {
    ValueRoundTrip(w.code / 1296 % 36);
  }

  // ---------------------------------------------------------------------------------------------
  // The circuit

  datatype Operation = And | Or | Xor

  /** The value of a gate from the values of its two inputs. */
  function Apply(op: Operation, a: bool, b: bool): bool
  {
    match op
    case And => a && b
    case Or => a || b
    case Xor => a != b
  }

  /** All three operations are commutative. */
  lemma {:induction false} ApplyCommutative(op: Operation, a: bool, b: bool)
    ensures Apply(op, a, b) == Apply(op, b, a)
  {
  }

  datatype Gate = Gate(inputA: WireName, inputB: WireName, output: WireName, operation: Operation)

  /** The parsed input: the gates in input order, and the initial values as the entries of a
    * `BTreeMap`, in increasing order of wire. */
  datatype Problem = Problem(gates: seq<Gate>, initialValues: seq<(WireName, bool)>)

  /** The entries of a `BTreeMap`: strictly increasing keys. */
  predicate SortedEntries(entries: seq<(WireName, bool)>)
  {
    forall i, j :: 0 <= i < j < |entries| ==> entries[i].0.code < entries[j].0.code
  }

  /** A node weight of the graph. */
  datatype Node = Input(wire: WireName, value: bool) | GateNode(gate: Gate)

  /** A directed graph: the node weights, and for each node the targets of its edges in the
    * order they were added. */
  datatype Circuit = Circuit(nodes: seq<Node>, edges: seq<seq<nat>>)

  /** The node index of each initial wire after adding the input nodes. */
  function EntryIndex(entries: seq<(WireName, bool)>): (index: map<WireName, nat>)
  {
    if entries == [] then map[]
    else EntryIndex(entries[..|entries| - 1])[entries[|entries| - 1].0 := |entries| - 1]
  }

  /** The node index map after adding the gate nodes, numbered from `offset`: a gate's output
    * wire maps to the gate's node, the last gate winning. */
  function GateIndex(index: map<WireName, nat>, offset: nat, gates: seq<Gate>): map<WireName, nat>
  {
    if gates == [] then index
    else GateIndex(index, offset, gates[..|gates| - 1])[gates[|gates| - 1].output := offset + |gates| - 1]
  }

  /** The map `build_graph` fills, from wire names to node indices. */
  function Index(p: Problem): map<WireName, nat>
  {
    GateIndex(EntryIndex(p.initialValues), |p.initialValues|, p.gates)
  }

  lemma {:induction false} EntryIndexBound(entries: seq<(WireName, bool)>)
    ensures forall w :: w in EntryIndex(entries) ==> EntryIndex(entries)[w] < |entries|
  {
    if entries != [] {
      EntryIndexBound(entries[..|entries| - 1]);
    }
  }

  lemma {:induction false} GateIndexBound(index: map<WireName, nat>, offset: nat, gates: seq<Gate>)
    requires forall w :: w in index ==> index[w] < offset
    ensures forall w :: w in GateIndex(index, offset, gates) ==> GateIndex(index, offset, gates)[w] < offset + |gates|
    ensures forall j :: 0 <= j < |gates| ==> gates[j].output in GateIndex(index, offset, gates)
  {
    if gates != [] {
      GateIndexBound(index, offset, gates[..|gates| - 1]);
    }
  }

  /** Every node index in the map is a node, and every gate output is in the map. */
  lemma {:induction false} IndexBound(p: Problem)
    ensures forall w :: w in Index(p) ==> Index(p)[w] < |p.initialValues| + |p.gates|
    ensures forall j :: 0 <= j < |p.gates| ==> p.gates[j].output in Index(p)
  {
    EntryIndexBound(p.initialValues);
    GateIndexBound(EntryIndex(p.initialValues), |p.initialValues|, p.gates);
  }

  /** Looking up a gate's inputs in the map does not panic. */
  predicate InputsDefined(p: Problem)
  {
    forall j :: 0 <= j < |p.gates| ==> p.gates[j].inputA in Index(p) && p.gates[j].inputB in Index(p)
  }

  /** No two gates drive the same wire. */
  predicate OutputsDistinct(p: Problem)
  {
    forall i, j :: 0 <= i < j < |p.gates| ==> p.gates[i].output != p.gates[j].output
  }

  /** The node weights: the initial values in key order, then the gates in input order. */
  function NodesOf(p: Problem): (nodes: seq<Node>)
    ensures |nodes| == |p.initialValues| + |p.gates|
  {
    seq(|p.initialValues|, i requires 0 <= i < |p.initialValues| => Input(p.initialValues[i].0, p.initialValues[i].1))
    + seq(|p.gates|, j requires 0 <= j < |p.gates| => GateNode(p.gates[j]))
  }

  /** The edge lists after adding the edges of the first `n` gates: the node the output wire
    * maps to gets an edge to the node of each input. */
  function EdgesAfter(p: Problem, n: nat): (edges: seq<seq<nat>>)
    requires n <= |p.gates| && InputsDefined(p)
    ensures |edges| == |p.initialValues| + |p.gates|
  {
    if n == 0 then seq(|p.initialValues| + |p.gates|, _ => [])
    else
      IndexBound(p);
      var prev := EdgesAfter(p, n - 1);
      var gate := p.gates[n - 1];
      var k := Index(p)[gate.output];
      prev[k := prev[k] + [Index(p)[gate.inputA], Index(p)[gate.inputB]]]
  }

  /** The graph `build_graph` returns. */
  function GraphOf(p: Problem): Circuit
    requires InputsDefined(p)
  {
    Circuit(NodesOf(p), EdgesAfter(p, |p.gates|))
  }

  /** `build_graph`: one node per initial value, then one per gate, each registered in the map
    * under its wire; then two edges per gate, from the node of its output wire to the nodes of
    * its inputs. */
  method BuildGraph(p: Problem) returns (c: Circuit)
    requires InputsDefined(p)
    ensures c == GraphOf(p)
  {
    var nodes, index := AddNodes(p);
    var edges := AddEdges(p, index, |nodes|);
    c := Circuit(nodes, edges);
  }

  /** The node-adding loops of `build_graph`. */
  method AddNodes(p: Problem) returns (nodes: seq<Node>, index: map<WireName, nat>)
    ensures nodes == NodesOf(p) && index == Index(p)
  {
    var entries, gates := p.initialValues, p.gates;
    nodes, index := [], map[];
    var i := 0;
    while i < |entries|
      invariant i <= |entries|
      invariant nodes == NodesOf(p)[..i]
      invariant index == EntryIndex(entries[..i])
    {
      index := index[entries[i].0 := |nodes|];
      nodes := nodes + [Input(entries[i].0, entries[i].1)];
      assert entries[..i + 1][..i] == entries[..i];
      i := i + 1;
    }
    assert entries[..i] == entries;
    var j := 0;
    while j < |gates|
      invariant j <= |gates|
      invariant nodes == NodesOf(p)[..|entries| + j]
      invariant index == GateIndex(EntryIndex(entries), |entries|, gates[..j])
    {
      index := index[gates[j].output := |nodes|];
      nodes := nodes + [GateNode(gates[j])];
      assert gates[..j + 1][..j] == gates[..j];
      j := j + 1;
    }
    assert gates[..j] == gates;
  }

  /** The edge-adding loop of `build_graph`. */
  method AddEdges(p: Problem, index: map<WireName, nat>, count: nat) returns (edges: seq<seq<nat>>)
    requires InputsDefined(p) && index == Index(p) && count == |p.initialValues| + |p.gates|
    ensures edges == EdgesAfter(p, |p.gates|)
  {
    IndexBound(p);
    edges := seq(count, _ => []);
    var j := 0;
    while j < |p.gates|
      invariant j <= |p.gates|
      invariant edges == EdgesAfter(p, j)
    {
      var gate := index[p.gates[j].output];
      var inputA := index[p.gates[j].inputA];
      var inputB := index[p.gates[j].inputB];
      ghost var before := edges;
      edges := edges[gate := edges[gate] + [inputA]];
      edges := edges[gate := edges[gate] + [inputB]];
      assert before[gate] + [inputA] + [inputB] == before[gate] + [inputA, inputB];
      assert edges == before[gate := before[gate] + [inputA, inputB]];
      j := j + 1;
    }
  }

  // ---------------------------------------------------------------------------------------------
  // What the map and the edges hold

  lemma {:induction false} EntryIndexKeys(entries: seq<(WireName, bool)>, w: WireName)
    ensures w in EntryIndex(entries) <==> exists i :: 0 <= i < |entries| && entries[i].0 == w
  {
    if entries != [] {
      var init := entries[..|entries| - 1];
      EntryIndexKeys(init, w);
      if w in EntryIndex(init) {
        var i :| 0 <= i < |init| && init[i].0 == w;
        assert entries[i].0 == w;
      }
      if i :| 0 <= i < |entries| - 1 && entries[i].0 == w {
        assert init[i].0 == w;
      }
    }
  }

  /** With strictly increasing keys, an initial wire maps to its own input node. */
  lemma {:induction false} EntryIndexAt(entries: seq<(WireName, bool)>, i: nat)
    requires SortedEntries(entries) && i < |entries|
    ensures entries[i].0 in EntryIndex(entries) && EntryIndex(entries)[entries[i].0] == i
  {
    var n := |entries| - 1;
    if i < n {
      assert SortedEntries(entries[..n]);
      EntryIndexAt(entries[..n], i);
      assert entries[i].0.code < entries[n].0.code;
    }
  }

  lemma {:induction false} GateIndexKeys(index: map<WireName, nat>, offset: nat, gates: seq<Gate>, w: WireName)
    ensures w in GateIndex(index, offset, gates) <==> w in index || exists j :: 0 <= j < |gates| && gates[j].output == w
  {
    if gates != [] {
      var init := gates[..|gates| - 1];
      GateIndexKeys(index, offset, init, w);
      if j :| 0 <= j < |init| && init[j].output == w {
        assert gates[j].output == w;
      }
      if j :| 0 <= j < |gates| - 1 && gates[j].output == w {
        assert init[j].output == w;
      }
    }
  }

  /** With distinct outputs, a gate's output wire maps to the gate's own node. */
  lemma {:induction false} GateIndexAt(index: map<WireName, nat>, offset: nat, gates: seq<Gate>, j: nat)
    requires j < |gates| && forall a, b :: 0 <= a < b < |gates| ==> gates[a].output != gates[b].output
    ensures gates[j].output in GateIndex(index, offset, gates)
    ensures GateIndex(index, offset, gates)[gates[j].output] == offset + j
  {
    var n := |gates| - 1;
    if j < n {
      GateIndexAt(index, offset, gates[..n], j);
      assert gates[j].output != gates[n].output;
    }
  }

  /** A wire that no gate drives keeps its entry in the map. */
  lemma {:induction false} GateIndexOther(index: map<WireName, nat>, offset: nat, gates: seq<Gate>, w: WireName)
    requires forall j :: 0 <= j < |gates| ==> gates[j].output != w
    ensures w in GateIndex(index, offset, gates) <==> w in index
    ensures w in index ==> GateIndex(index, offset, gates)[w] == index[w]
  {
    if gates != [] {
      GateIndexOther(index, offset, gates[..|gates| - 1], w);
    }
  }

  /** A wire is in the map exactly when it has an initial value or a gate drives it. */
  lemma {:induction false} IndexKeys(p: Problem, w: WireName)
    ensures w in Index(p) <==>
      (exists i :: 0 <= i < |p.initialValues| && p.initialValues[i].0 == w)
      || (exists j :: 0 <= j < |p.gates| && p.gates[j].output == w)
  {
    EntryIndexKeys(p.initialValues, w);
    GateIndexKeys(EntryIndex(p.initialValues), |p.initialValues|, p.gates, w);
  }

  /** With distinct outputs, a gate's output wire maps to the gate's node. */
  lemma {:induction false} IndexOfGate(p: Problem, j: nat)
    requires OutputsDistinct(p) && j < |p.gates|
    ensures p.gates[j].output in Index(p) && Index(p)[p.gates[j].output] == |p.initialValues| + j
  {
    GateIndexAt(EntryIndex(p.initialValues), |p.initialValues|, p.gates, j);
  }

  /** An initial wire that no gate drives maps to its input node. */
  lemma {:induction false} IndexOfInput(p: Problem, i: nat)
    requires SortedEntries(p.initialValues) && i < |p.initialValues|
    requires forall j :: 0 <= j < |p.gates| ==> p.gates[j].output != p.initialValues[i].0
    ensures p.initialValues[i].0 in Index(p) && Index(p)[p.initialValues[i].0] == i
  {
    EntryIndexAt(p.initialValues, i);
    GateIndexOther(EntryIndex(p.initialValues), |p.initialValues|, p.gates, p.initialValues[i].0);
  }

  /** The edges of a gate node after the first `n` gates are added. */
  function GateEdges(p: Problem, j: nat): seq<nat>
    requires InputsDefined(p) && j < |p.gates|
  {
    [Index(p)[p.gates[j].inputA], Index(p)[p.gates[j].inputB]]
  }

  lemma {:induction false} EdgesAfterAt(p: Problem, n: nat, k: nat)
    requires InputsDefined(p) && OutputsDistinct(p) && n <= |p.gates| && k < |p.initialValues| + |p.gates|
    ensures EdgesAfter(p, n)[k] ==
      if |p.initialValues| <= k < |p.initialValues| + n then GateEdges(p, k - |p.initialValues|) else []
  {
    if n > 0 {
      EdgesAfterAt(p, n - 1, k);
      IndexOfGate(p, n - 1);
    }
  }

  /** With distinct outputs, every gate node has exactly the edges to its two inputs, in order,
    * and input nodes have none. */
  lemma {:induction false} EdgesOfGraph(p: Problem, k: nat)
    requires InputsDefined(p) && OutputsDistinct(p) && k < |p.initialValues| + |p.gates|
    ensures GraphOf(p).edges[k] ==
      if k < |p.initialValues| then [] else GateEdges(p, k - |p.initialValues|)
  {
    EdgesAfterAt(p, |p.gates|, k);
  }

  // ---------------------------------------------------------------------------------------------
  // Evaluation

  /** A ranking of the nodes that every edge descends, with two edges on every gate node: the
    * recursion of `resolve_node_recursive` then ends, and no gate panics. */
  predicate Ranked(c: Circuit, rank: seq<nat>)
  {
    |c.edges| == |c.nodes| && |rank| == |c.nodes|
    && forall k :: 0 <= k < |c.nodes| ==>
      (c.nodes[k].GateNode? ==> |c.edges[k]| == 2)
      && forall i :: 0 <= i < |c.edges[k]| ==> c.edges[k][i] < |c.nodes| && rank[c.edges[k][i]] < rank[k]
  }

  /** The circuit of the problem has no cycle. */
  ghost predicate Acyclic(p: Problem)
    requires InputsDefined(p)
  {
    exists rank :: Ranked(GraphOf(p), rank)
  }

  /** `resolve_node_recursive`: an input node has its value; a gate node applies its operation
    * to the values of its two neighbours, which petgraph lists newest edge first. */
  function Resolve(c: Circuit, ghost rank: seq<nat>, k: nat): bool
    requires Ranked(c, rank) && k < |c.nodes|
    decreases rank[k]
  {
    match c.nodes[k]
    case Input(_, value) => value
    case GateNode(gate) =>
      var first, second := c.edges[k][1], c.edges[k][0];
      Apply(gate.operation, Resolve(c, rank, first), Resolve(c, rank, second))
  }

  /** The ranking only bounds the recursion: any two give the same values. */
  lemma {:induction false} RankIrrelevant(c: Circuit, rank1: seq<nat>, rank2: seq<nat>, k: nat)
    requires Ranked(c, rank1) && Ranked(c, rank2) && k < |c.nodes|
    ensures Resolve(c, rank1, k) == Resolve(c, rank2, k)
    decreases rank1[k]
  {
    if c.nodes[k].GateNode? {
      RankIrrelevant(c, rank1, rank2, c.edges[k][0]);
      RankIrrelevant(c, rank1, rank2, c.edges[k][1]);
    }
  }

  /** An input node evaluates to its initial value. */
  lemma {:induction false} ResolveInput(p: Problem, rank: seq<nat>, i: nat)
    requires InputsDefined(p) && Ranked(GraphOf(p), rank) && i < |p.initialValues|
    ensures Resolve(GraphOf(p), rank, i) == p.initialValues[i].1
  {
  }

  /** A gate's node evaluates to its operation applied to the values of the nodes its input
    * wires map to, in the order of the gate's inputs. */
  lemma {:induction false} ResolveGate(p: Problem, rank: seq<nat>, j: nat)
    requires InputsDefined(p) && OutputsDistinct(p) && Ranked(GraphOf(p), rank) && j < |p.gates|
    ensures var c, gate := GraphOf(p), p.gates[j];
      var a, b := Index(p)[gate.inputA], Index(p)[gate.inputB];
      a < |c.nodes| && b < |c.nodes|
      && Resolve(c, rank, |p.initialValues| + j) == Apply(gate.operation, Resolve(c, rank, a), Resolve(c, rank, b))
  {
    var c, k := GraphOf(p), |p.initialValues| + j;
    IndexBound(p);
    EdgesOfGraph(p, k);
    assert c.nodes[k] == GateNode(p.gates[j]);
    ApplyCommutative(p.gates[j].operation, Resolve(c, rank, c.edges[k][0]), Resolve(c, rank, c.edges[k][1]));
  }

  // ---------------------------------------------------------------------------------------------
  // Part 1

  /** A gate node whose output wire starts with 'z'. */
  predicate IsOutputNode(c: Circuit, k: nat)
    requires k < |c.nodes|
  {
    c.nodes[k].GateNode? && IsOutput(c.nodes[k].gate.output)
  }

  /** The output nodes among the first `n` nodes, in node order. */
  function OutputsBelow(c: Circuit, n: nat): seq<nat>
    requires n <= |c.nodes|
  {
    if n == 0 then []
    else
      var earlier := OutputsBelow(c, n - 1);
      if IsOutputNode(c, n - 1) then earlier + [n - 1] else earlier
  }

  /** `node_references().filter(..)`: the output nodes, in node order. */
  function Outputs(c: Circuit): seq<nat>
  {
    OutputsBelow(c, |c.nodes|)
  }

  /** The filter keeps exactly the output nodes below `n`, each once, in increasing order. */
  lemma {:induction false} OutputsBelowMembers(c: Circuit, n: nat)
    requires n <= |c.nodes|
    ensures var s := OutputsBelow(c, n);
      (forall i :: 0 <= i < |s| ==> s[i] < n && IsOutputNode(c, s[i]))
      && (forall k :: 0 <= k < n && IsOutputNode(c, k) ==> k in s)
      && (forall i, j :: 0 <= i < j < |s| ==> s[i] < s[j])
      && Distinct(s)
  {
    if n > 0 {
      OutputsBelowMembers(c, n - 1);
    }
  }

  /** The sort key: the output wire of a gate node. */
  function Key(c: Circuit, k: nat): nat
  {
    if k < |c.nodes| && c.nodes[k].GateNode? then c.nodes[k].gate.output.code else 0
  }

  /** Keys that never increase along the sequence. */
  predicate Descending(c: Circuit, s: seq<nat>)
  {
    forall i, j :: 0 <= i < j < |s| ==> Key(c, s[i]) >= Key(c, s[j])
  }

  /** Inserts a node into a sequence sorted by descending key. */
  function Insert(c: Circuit, k: nat, s: seq<nat>): seq<nat>
  {
    if s == [] || Key(c, s[0]) <= Key(c, k) then [k] + s else [s[0]] + Insert(c, k, s[1..])
  }

  /** `sort_unstable_by_key(.. Reverse(gate.output))`, as an insertion sort. */
  function SortDescending(c: Circuit, s: seq<nat>): seq<nat>
  {
    if s == [] then [] else Insert(c, s[0], SortDescending(c, s[1..]))
  }

  /** Inserting a new node keeps the order and adds exactly that node. */
  lemma {:induction false} InsertSorted(c: Circuit, k: nat, s: seq<nat>)
    requires Descending(c, s) && Distinct(s) && k !in s
    ensures var r := Insert(c, k, s);
      Descending(c, r) && Distinct(r) && |r| == |s| + 1 && forall x :: x in r <==> x == k || x in s
  {
    if s == [] || Key(c, s[0]) <= Key(c, k) {
      assert forall j :: 0 <= j < |s| ==> Key(c, s[j]) <= Key(c, s[0]);
    } else {
      var tail := s[1..];
      assert Descending(c, tail) && Distinct(tail);
      InsertSorted(c, k, tail);
      assert forall j :: 0 <= j < |tail| ==> Key(c, tail[j]) <= Key(c, s[0]) && tail[j] != s[0];
      assert forall x :: x in s <==> x == s[0] || x in tail;
      Prepend(c, s[0], Insert(c, k, tail));
    }
  }

  /** A node above every key of a sequence without it can go in front. */
  lemma {:induction false} Prepend(c: Circuit, k: nat, r: seq<nat>)
    requires Descending(c, r) && Distinct(r)
    requires forall x :: x in r ==> Key(c, x) <= Key(c, k) && x != k
    ensures Descending(c, [k] + r) && Distinct([k] + r)
  {
    assert forall j :: 0 <= j < |r| ==> r[j] in r;
  }

  /** The sort gives a permutation of a sequence without repeats, by descending key. */
  lemma {:induction false} SortDescendingSorted(c: Circuit, s: seq<nat>)
    requires Distinct(s)
    ensures var r := SortDescending(c, s);
      Descending(c, r) && Distinct(r) && |r| == |s| && forall x :: x in r <==> x in s
  {
    if s != [] {
      assert Distinct(s[1..]);
      SortDescendingSorted(c, s[1..]);
      assert s[0] !in s[1..];
      InsertSorted(c, s[0], SortDescending(c, s[1..]));
      assert forall x :: x in s <==> x == s[0] || x in s[1..];
    }
  }

  /** No two nodes of the sequence share a key. */
  predicate KeysDistinct(c: Circuit, s: seq<nat>)
  {
    forall i, j :: 0 <= i < j < |s| ==> Key(c, s[i]) != Key(c, s[j])
  }

  /** With distinct keys, two descending sequences of the same nodes without repeats are equal,
    * so any unstable sort gives the same order as this one. */
  lemma {:induction false} SortedUnique(c: Circuit, s: seq<nat>, t: seq<nat>)
    requires Descending(c, s) && Descending(c, t) && Distinct(s) && Distinct(t)
    requires (forall x :: x in s <==> x in t) && KeysDistinct(c, s)
    ensures s == t
    decreases |s|
  {
    if s == [] {
      DistinctIncludedLength(t, s);
    } else {
      assert s[0] in t;
      assert t != [];
      assert t[0] in s;
      var i :| 0 <= i < |t| && t[i] == s[0];
      var j :| 0 <= j < |s| && s[j] == t[0];
      assert Key(c, s[0]) >= Key(c, s[j]) == Key(c, t[0]) >= Key(c, t[i]) == Key(c, s[0]);
      assert j == 0;
      var s', t' := s[1..], t[1..];
      assert Descending(c, s') && Descending(c, t') && Distinct(s') && Distinct(t') && KeysDistinct(c, s');
      forall x
        ensures x in s' <==> x in t'
      {
        assert x in s <==> x == s[0] || x in s';
        assert x in t <==> x == t[0] || x in t';
        assert s[0] !in s' && t[0] !in t';
      }
      SortedUnique(c, s', t');
      assert s == [s[0]] + s' && t == [t[0]] + t';
    }
  }

  /** The values of the nodes, in order (`map(resolve_node_recursive)`). */
  function Values(c: Circuit, ghost rank: seq<nat>, s: seq<nat>): (values: seq<bool>)
    requires Ranked(c, rank) && forall i :: 0 <= i < |s| ==> s[i] < |c.nodes|
    ensures |values| == |s| && forall i :: 0 <= i < |s| ==> values[i] == Resolve(c, rank, s[i])
  {
    if s == [] then [] else Values(c, rank, s[..|s| - 1]) + [Resolve(c, rank, s[|s| - 1])]
  }

  /** 2^64: an `i64` holds its bit pattern modulo this. */
  const Modulus: nat := 0x1_0000_0000_0000_0000

  function BitValue(b: bool): nat
  {
    if b then 1 else 0
  }

  /** The fold `acc << 1 | value as i64`, as the bit pattern of the `i64` accumulator. */
  function Fold(values: seq<bool>): (acc: nat)
    ensures acc < Modulus
  {
    if values == [] then 0
    else (Fold(values[..|values| - 1]) * 2 + BitValue(values[|values| - 1])) % Modulus
  }

  /** The `i64` a bit pattern stands for. */
  function AsI64(u: nat): int
    requires u < Modulus
  {
    if u < Modulus / 2 then u else u - Modulus
  }

  /** The number the values spell in binary, the first being the most significant bit. */
  function Binary(values: seq<bool>): nat
  {
    if values == [] then 0 else Binary(values[..|values| - 1]) * 2 + BitValue(values[|values| - 1])
  }

  /** The 64-bit accumulator keeps the low 64 bits of the number. */
  lemma {:induction false} FoldIsBinary(values: seq<bool>)
    ensures Fold(values) == Binary(values) % Modulus
  {
    if values != [] {
      var init := values[..|values| - 1];
      FoldIsBinary(init);
      var x, b := Binary(init), BitValue(values[|values| - 1]);
      var t := x % Modulus * 2 + b;
      ModUnique(x, Modulus, x / Modulus, x % Modulus);
      ModUnique(t, Modulus, t / Modulus, t % Modulus);
      ModUnique(x * 2 + b, Modulus, 2 * (x / Modulus) + t / Modulus, t % Modulus);
    }
  }

  /** n values spell a number below 2^n. */
  lemma {:induction false} BinaryBound(values: seq<bool>)
    ensures Binary(values) < Pow2(|values|)
  {
    if values != [] {
      BinaryBound(values[..|values| - 1]);
    }
  }

  /** Halving drops the lowest bit. */
  lemma {:induction false} HalveDouble(x: nat, b: nat, p: nat)
    requires b < 2 && p > 0
    ensures (x * 2 + b) / (2 * p) == x / p
  {
    ModUnique(x, p, x / p, x % p);
    ModUnique(x * 2 + b, 2 * p, x / p, (x % p) * 2 + b);
  }

  /** Bit i of the number, counted from the least significant, is the i-th value from the end. */
  lemma {:induction false} BinaryBit(values: seq<bool>, i: nat)
    requires i < |values|
    ensures Binary(values) / Pow2(i) % 2 == BitValue(values[|values| - 1 - i])
  {
    var init := values[..|values| - 1];
    var x, b := Binary(init), BitValue(values[|values| - 1]);
    if i == 0 {
      ModUnique(x * 2 + b, 2, x, b);
    } else {
      BinaryBit(init, i - 1);
      HalveDouble(x, b, Pow2(i - 1));
    }
  }

  lemma {:induction false} Pow2Monotone(m: nat, n: nat)
    requires m <= n
    ensures Pow2(m) <= Pow2(n)
    decreases n
  {
    if m < n {
      Pow2Monotone(m, n - 1);
    }
  }

  lemma {:induction false} Pow2Add(m: nat, n: nat)
    ensures Pow2(m + n) == Pow2(m) * Pow2(n)
  {
    if m > 0 {
      Pow2Add(m - 1, n);
    }
  }

  lemma {:induction false} Pow2Of63()
    ensures Pow2(63) == Modulus / 2
  {
    assert Pow2(7) == 128 && Pow2(8) == 256;
    Pow2Add(8, 7);
    assert Pow2(15) == 0x8000;
    Pow2Add(8, 8);
    assert Pow2(16) == 0x1_0000;
    Pow2Add(16, 15);
    assert Pow2(31) == 0x8000_0000;
    Pow2Add(16, 16);
    assert Pow2(32) == 0x1_0000_0000;
    Pow2Add(32, 31);
  }

  /** With at most 63 values the accumulator neither wraps nor turns negative. */
  lemma {:induction false} SmallFold(values: seq<bool>)
    requires |values| <= 63
    ensures AsI64(Fold(values)) == Binary(values)
  {
    FoldIsBinary(values);
    BinaryBound(values);
    Pow2Monotone(|values|, 63);
    Pow2Of63();
    ModUnique(Binary(values), Modulus, 0, Binary(values));
  }

  /** `sort_unstable_by_key` on the outputs: every element is an output node. */
  function SortedOutputs(c: Circuit): (outs: seq<nat>)
    ensures forall i :: 0 <= i < |outs| ==> outs[i] < |c.nodes| && IsOutputNode(c, outs[i])
  {
    OutputsBelowMembers(c, |c.nodes|);
    SortDescendingSorted(c, Outputs(c));
    var outs := SortDescending(c, Outputs(c));
    assert forall i :: 0 <= i < |outs| ==> outs[i] in outs;
    outs
  }

  /** The sorted outputs are the output nodes, each once, by descending wire. */
  lemma {:induction false} SortedOutputsFacts(c: Circuit)
    ensures var outs := SortedOutputs(c);
      (forall x: nat :: x in outs <==> x < |c.nodes| && IsOutputNode(c, x)) && Distinct(outs) && Descending(c, outs)
  {
    OutputsBelowMembers(c, |c.nodes|);
    SortDescendingSorted(c, Outputs(c));
  }

  /** The part 1 answer on a ranked circuit: the values of the sorted outputs, folded most
    * significant first into an `i64`. */
  function Answer(c: Circuit, ghost rank: seq<nat>): int
    requires Ranked(c, rank)
  {
    AsI64(Fold(Values(c, rank, SortedOutputs(c))))
  }

  /** Bit i of the answer is the value of the i-th output from the end, so the smallest wire
    * gives bit 0; with at most 63 outputs the answer is that binary number. */
  lemma {:induction false} AnswerBits(c: Circuit, rank: seq<nat>)
    requires Ranked(c, rank) && |SortedOutputs(c)| <= 63
    ensures var outs, answer := SortedOutputs(c), Answer(c, rank);
      0 <= answer < Pow2(|outs|)
      && forall i :: 0 <= i < |outs| ==> answer / Pow2(i) % 2 == BitValue(Resolve(c, rank, outs[|outs| - 1 - i]))
  {
    var outs := SortedOutputs(c);
    var values := Values(c, rank, outs);
    SmallFold(values);
    BinaryBound(values);
    forall i | 0 <= i < |outs|
      ensures Answer(c, rank) / Pow2(i) % 2 == BitValue(Resolve(c, rank, outs[|outs| - 1 - i]))
    {
      BinaryBit(values, i);
    }
  }

  /** Beyond 63 outputs the answer is the low 64 bits of that number, read as an `i64`. */
  lemma {:induction false} AnswerWraps(c: Circuit, rank: seq<nat>)
    requires Ranked(c, rank)
    ensures var values := Values(c, rank, SortedOutputs(c));
      var low := Binary(values) % Modulus;
      Answer(c, rank) == if low < Modulus / 2 then low else low - Modulus
  {
    FoldIsBinary(Values(c, rank, SortedOutputs(c)));
  }

  /** With distinct gate outputs the wires strictly decrease along the sorted outputs, so the
    * order is the one any unstable sort gives. */
  lemma {:induction false} AnswerOrder(p: Problem)
    requires InputsDefined(p) && OutputsDistinct(p)
    ensures var c := GraphOf(p); var outs := SortedOutputs(c);
      forall i, j :: 0 <= i < j < |outs| ==> Key(c, outs[i]) > Key(c, outs[j])
  {
    var c := GraphOf(p);
    SortedOutputsFacts(c);
    var outs := SortedOutputs(c);
    forall i, j | 0 <= i < j < |outs|
      ensures Key(c, outs[i]) > Key(c, outs[j])
    {
      var a, b := outs[i] - |p.initialValues|, outs[j] - |p.initialValues|;
      assert c.nodes[outs[i]] == GateNode(p.gates[a]) && c.nodes[outs[j]] == GateNode(p.gates[b]);
      assert a != b;
      if a < b {
        assert p.gates[a].output != p.gates[b].output;
      } else {
        assert p.gates[b].output != p.gates[a].output;
      }
    }
  }

  /** `day_24_part_1` after parsing: build the graph, take the output gate nodes, sort them by
    * descending wire, evaluate them and fold their values into a number. */
  method Part1(p: Problem) returns (answer: int)
    requires InputsDefined(p) && Acyclic(p)
    ensures forall rank :: Ranked(GraphOf(p), rank) ==> answer == Answer(GraphOf(p), rank)
  {
    var c := BuildGraph(p);
    ghost var rank :| Ranked(c, rank);
    var outputs := SortedOutputs(c);
    answer := AsI64(Fold(Values(c, rank, outputs)));
    forall other | Ranked(c, other)
      ensures answer == Answer(c, other)
    {
      forall i | 0 <= i < |outputs|
        ensures Values(c, rank, outputs)[i] == Values(c, other, outputs)[i]
      {
        RankIrrelevant(c, rank, other, outputs[i]);
      }
      assert Values(c, rank, outputs) == Values(c, other, outputs);
    }
  }

  // ---------------------------------------------------------------------------------------------
  // Circuits of one level

  /** Every gate reads two initial wires. */
  predicate OneLevel(p: Problem)
    requires InputsDefined(p)
  {
    forall j :: 0 <= j < |p.gates| ==>
      Index(p)[p.gates[j].inputA] < |p.initialValues| && Index(p)[p.gates[j].inputB] < |p.initialValues|
  }

  /** Inputs below gates rank such a circuit. */
  lemma {:induction false} OneLevelRanked(p: Problem)
    requires InputsDefined(p) && OutputsDistinct(p) && OneLevel(p)
    ensures Ranked(GraphOf(p), seq(|p.initialValues|, _ => 0) + seq(|p.gates|, _ => 1))
  {
    var c, rank := GraphOf(p), seq(|p.initialValues|, _ => 0) + seq(|p.gates|, _ => 1);
    forall k | 0 <= k < |c.nodes|
      ensures (c.nodes[k].GateNode? ==> |c.edges[k]| == 2)
        && forall i :: 0 <= i < |c.edges[k]| ==> c.edges[k][i] < |c.nodes| && rank[c.edges[k][i]] < rank[k]
    {
      EdgesOfGraph(p, k);
    }
  }

  /** When every gate drives an output wire, the outputs are all the gate nodes. */
  lemma {:induction false} AllGatesOutput(p: Problem, n: nat)
    requires InputsDefined(p) && n <= |p.initialValues| + |p.gates|
    requires forall j :: 0 <= j < |p.gates| ==> IsOutput(p.gates[j].output)
    ensures var e := |p.initialValues|;
      OutputsBelow(GraphOf(p), n) == if n <= e then [] else seq(n - e, j => e + j)
  {
    if n > 0 {
      AllGatesOutput(p, n - 1);
    }
  }

  // ---------------------------------------------------------------------------------------------
  // The short example

  /** The short example's gates: `x00 AND y00 -> z00`, `x01 XOR y01 -> z01`, `x02 OR y02 -> z02`,
    * with the codes of the names (`ShortExampleNames`). */
  function ShortExample(): Problem
  {
    Problem(
      [Gate(WireName(42768), WireName(44064), WireName(45360), And),
       Gate(WireName(42769), WireName(44065), WireName(45361), Xor),
       Gate(WireName(42770), WireName(44066), WireName(45362), Or)],
      [(WireName(42768), true), (WireName(42769), true), (WireName(42770), true),
       (WireName(44064), false), (WireName(44065), true), (WireName(44066), false)])
  }

  /** The codes of the short example are those of its names. */
  lemma ShortExampleNames()
    ensures FromChars('x', '0', '0') == WireName(42768) && FromChars('x', '0', '2') == WireName(42770)
    ensures FromChars('y', '0', '0') == WireName(44064) && FromChars('y', '0', '2') == WireName(44066)
    ensures FromChars('z', '0', '0') == WireName(45360) && FromChars('z', '0', '2') == WireName(45362)
  {
  }

  /** A ranking of the short example: inputs below gates. */
  const ShortRank: seq<nat> := seq(6, _ => 0) + seq(3, _ => 1)

  /** The initial wires of the short example are sorted, and no gate drives one of them. */
  lemma ShortEntries()
    ensures var p := ShortExample();
      SortedEntries(p.initialValues) && OutputsDistinct(p)
      && forall i, j :: 0 <= i < 6 && 0 <= j < 3 ==> p.gates[j].output != p.initialValues[i].0
  {
  }

  /** The short example is well formed. */
  lemma ShortExampleWellFormed()
    ensures var p := ShortExample();
      SortedEntries(p.initialValues) && OutputsDistinct(p) && InputsDefined(p) && Ranked(GraphOf(p), ShortRank)
  {
    ShortEntries();
    var p := ShortExample();
    ShortInputs(p);
    OneLevelRanked(p);
  }

  /** Each gate input of the short example is an initial wire, at its own input node. */
  lemma ShortInputs(p: Problem)
    requires p == ShortExample()
    requires SortedEntries(p.initialValues)
    requires forall i, j :: 0 <= i < 6 && 0 <= j < 3 ==> p.gates[j].output != p.initialValues[i].0
    ensures forall j :: 0 <= j < 3 ==>
      p.gates[j].inputA in Index(p) && Index(p)[p.gates[j].inputA] == j
      && p.gates[j].inputB in Index(p) && Index(p)[p.gates[j].inputB] == j + 3
  {
    IndexOfInput(p, 0);
    IndexOfInput(p, 1);
    IndexOfInput(p, 2);
    IndexOfInput(p, 3);
    IndexOfInput(p, 4);
    IndexOfInput(p, 5);
  }

  /** The node of gate j comes after the input nodes. */
  lemma {:induction false} NodeOfGate(p: Problem, j: nat)
    requires InputsDefined(p) && j < |p.gates|
    ensures GraphOf(p).nodes[|p.initialValues| + j] == GateNode(p.gates[j])
    ensures Key(GraphOf(p), |p.initialValues| + j) == p.gates[j].output.code
  {
  }

  /** Three nodes with increasing keys sort into the reverse order. */
  lemma SortThree(c: Circuit, a: nat, b: nat, d: nat)
    requires Key(c, a) < Key(c, b) < Key(c, d)
    ensures SortDescending(c, [a, b, d]) == [d, b, a]
  {
    assert [a, b, d][1..] == [b, d] && [b, d][1..] == [d] && [d][1..] == [] && [d, b][1..] == [b];
    assert SortDescending(c, [d]) == Insert(c, d, []) == [d];
    assert Insert(c, b, [d]) == [d] + Insert(c, b, []) == [d, b];
    assert SortDescending(c, [b, d]) == [d, b];
    assert Insert(c, a, [d, b]) == [d] + Insert(c, a, [b]);
    assert Insert(c, a, [b]) == [b] + Insert(c, a, []) == [b, a];
  }

  /** The values of three nodes. */
  lemma ValuesThree(c: Circuit, rank: seq<nat>, a: nat, b: nat, d: nat)
    requires Ranked(c, rank) && a < |c.nodes| && b < |c.nodes| && d < |c.nodes|
    ensures Values(c, rank, [a, b, d]) == [Resolve(c, rank, a), Resolve(c, rank, b), Resolve(c, rank, d)]
  {
    assert [a, b, d][..2] == [a, b] && [a, b][..1] == [a] && [a][..0] == [];
  }

  /** In a circuit whose gate j reads the input nodes j and j + 3, the gate's node takes its
    * operation of those two initial values. */
  lemma {:induction false} GatesOfThree(p: Problem, rank: seq<nat>, j: nat)
    requires InputsDefined(p) && OutputsDistinct(p) && Ranked(GraphOf(p), rank)
    requires |p.initialValues| == 6 && |p.gates| == 3 && j < 3
    requires Index(p)[p.gates[j].inputA] == j && Index(p)[p.gates[j].inputB] == j + 3
    ensures Resolve(GraphOf(p), rank, 6 + j)
      == Apply(p.gates[j].operation, p.initialValues[j].1, p.initialValues[j + 3].1)
  {
    ResolveGate(p, rank, j);
    ResolveInput(p, rank, j);
    ResolveInput(p, rank, j + 3);
  }

  /** The gates of the short example evaluate to 0, 0 and 1. */
  lemma ShortGateValues()
    ensures var p := ShortExample();
      InputsDefined(p) && Ranked(GraphOf(p), ShortRank)
      && !Resolve(GraphOf(p), ShortRank, 6) && !Resolve(GraphOf(p), ShortRank, 7) && Resolve(GraphOf(p), ShortRank, 8)
  {
    ShortExampleWellFormed();
    var p := ShortExample();
    ShortInputs(p);
    GatesOfThree(p, ShortRank, 0);
    GatesOfThree(p, ShortRank, 1);
    GatesOfThree(p, ShortRank, 2);
  }

  /** A circuit of six inputs and three output gates with increasing wires, evaluating to
    * 0, 0 and 1, gives 4. */
  lemma {:induction false} AnswerOfThree(p: Problem, rank: seq<nat>)
    requires InputsDefined(p) && Ranked(GraphOf(p), rank) && |p.initialValues| == 6 && |p.gates| == 3
    requires forall j :: 0 <= j < 3 ==> IsOutput(p.gates[j].output)
    requires p.gates[0].output.code < p.gates[1].output.code < p.gates[2].output.code
    requires !Resolve(GraphOf(p), rank, 6) && !Resolve(GraphOf(p), rank, 7) && Resolve(GraphOf(p), rank, 8)
    ensures Answer(GraphOf(p), rank) == 4
  {
    var c := GraphOf(p);
    AllGatesOutput(p, 9);
    var outs := Outputs(c);
    assert |outs| == 3 && outs[0] == 6 && outs[1] == 7 && outs[2] == 8;
    assert outs == [6, 7, 8];
    NodeOfGate(p, 0);
    NodeOfGate(p, 1);
    NodeOfGate(p, 2);
    SortThree(c, 6, 7, 8);
    ValuesThree(c, rank, 8, 7, 6);
    FoldThree();
  }

  /** The short example gives 4: z02 = 1 OR 0 is the only bit set. */
  lemma ShortExampleAnswer()
    ensures var p := ShortExample();
      InputsDefined(p) && Ranked(GraphOf(p), ShortRank) && Answer(GraphOf(p), ShortRank) == 4
  {
    ShortGateValues();
    var p := ShortExample();
    Digits(45360, 35, 0, 0);
    Digits(45361, 35, 0, 1);
    Digits(45362, 35, 0, 2);
    AnswerOfThree(p, ShortRank);
  }

  lemma FoldThree()
    ensures AsI64(Fold([true, false, false])) == 4
  {
    assert [true, false, false][..2] == [true, false] && [true, false][..1] == [true] && [true][..0] == [];
    SmallFold([true, false, false]);
  }
}
