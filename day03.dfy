/** Day 3: scanning corrupted memory for `mul(a,b)` instructions. */
module Day03 {
  import opened Common

  /** The outcome of a parser: what is left of the input and the value read, or a failure. */
  datatype ParseResult<T> = Parsed(rest: string, value: T) | Failed

  /** How far the skip parser may look ahead for the next instruction. */
  const SkipLimit: nat := 1024

  predicate IsSuffix(t: string, s: string)
  {
    |t| <= |s| && t == s[|s| - |t|..]
  }

  lemma SuffixTransitive(u: string, t: string, s: string)
    requires IsSuffix(u, t) && IsSuffix(t, s)
    ensures IsSuffix(u, s)
  {
    assert s[|s| - |t|..][|t| - |u|..] == s[|s| - |u|..];
  }

  /** A text is its prefix followed by any of its suffixes. */
  lemma SuffixSplit(t: string, s: string)
    requires IsSuffix(t, s)
    ensures s == s[..|s| - |t|] + t
  {
  }

  lemma DropIsSuffix(s: string, k: nat)
    requires k <= |s|
    ensures IsSuffix(s[k..], s)
  {
  }

  predicate AllDigits(s: string)
  {
    forall i :: 0 <= i < |s| ==> IsDigit(s[i])
  }

  /** A number as `mul` accepts it: one to three decimal digits. */
  predicate DigitString(s: string)
  {
    1 <= |s| <= 3 && AllDigits(s)
  }

  /** The fold `acc * 10 + digit` over the digits, left to right. */
  function DigitsValue(s: string): (v: nat)
    requires AllDigits(s)
    ensures v < Pow10(|s|)
  {
    if s == [] then 0 else DigitsValue(s[..|s| - 1]) * 10 + DigitValue(s[|s| - 1])
  }

  /** `take_while_m_n(1, 3, is_ascii_digit)` without the lower bound: the length of the leading digit run, capped at `max`. */
  function LeadingDigitCount(s: string, max: nat): (k: nat)
    ensures k <= max && k <= |s|
    ensures AllDigits(s[..k])
    ensures k == max || k == |s| || !IsDigit(s[k])
  {
    if max == 0 || s == [] || !IsDigit(s[0]) then 0
    else
      var k := 1 + LeadingDigitCount(s[1..], max - 1);
      assert forall i :: 1 <= i < k ==> s[..k][i] == s[1..][..k - 1][i - 1];
      k
  }

  /** `mul_number`: one to three leading digits and their value. */
  function MulNumber(s: string): (r: ParseResult<nat>)
    ensures r.Parsed? <==> |s| > 0 && IsDigit(s[0])
    ensures r.Parsed? ==>
      var k := |s| - |r.rest|;
      && 1 <= k <= 3 && IsSuffix(r.rest, s)
      && DigitString(s[..k]) && r.value == DigitsValue(s[..k]) && r.value < 1000
      && (k == 3 || k == |s| || !IsDigit(s[k]))
  {
    var k := LeadingDigitCount(s, 3);
    if k == 0 then Failed
    else
      assert Pow10(k) <= 1000;
      Parsed(s[k..], DigitsValue(s[..k]))
  }

  /** A digit string followed by a non-digit is read whole by `mul_number`. */
  lemma MulNumberReadsDigitString(a: string, t: string)
    requires DigitString(a)
    requires t == [] || !IsDigit(t[0])
    ensures MulNumber(a + t) == Parsed(t, DigitsValue(a))
  {
    var s := a + t;
    var k := LeadingDigitCount(s, 3);
    assert forall i :: 0 <= i < |a| ==> s[i] == a[i];
    assert |a| < |s| ==> s[|a|] == t[0];
    assert forall i :: 0 <= i < k ==> IsDigit(s[..k][i]);
    assert k == |a|;
    assert s[..k] == a;
    assert s[k..] == t;
  }

  predicate StartsWith(s: string, prefix: string)
  {
    |prefix| <= |s| && s[..|prefix|] == prefix
  }

  /** `parse_mul`: the tag `mul(`, then the two numbers. */
  function ParseMul(s: string): (r: ParseResult<(nat, nat)>)
    ensures r.Parsed? ==> IsSuffix(r.rest, s) && |r.rest| < |s|
  {
    if !StartsWith(s, "mul(") then Failed
    else
      var r := ParseArgs(s[4..]);
      if r.Failed? then r
      else
        SuffixTransitive(r.rest, s[4..], s);
        r
  }

  /** The first number and the tag `,`. */
  function ParseArgs(s: string): (r: ParseResult<(nat, nat)>)
    ensures r.Parsed? ==> IsSuffix(r.rest, s) && |r.rest| < |s|
  {
    var a := MulNumber(s);
    if a.Failed? || !StartsWith(a.rest, ",") then Failed
    else
      var r := ParseClose(a.value, a.rest[1..]);
      if r.Failed? then r
      else
        SuffixTransitive(a.rest[1..], a.rest, s);
        SuffixTransitive(r.rest, a.rest[1..], s);
        r
  }

  /** The second number and the tag `)`. */
  function ParseClose(x: nat, s: string): (r: ParseResult<(nat, nat)>)
    ensures r.Parsed? ==> IsSuffix(r.rest, s) && |r.rest| < |s| && r.value.0 == x
  {
    var b := MulNumber(s);
    if b.Failed? || !StartsWith(b.rest, ")") then Failed
    else
      SuffixTransitive(b.rest[1..], b.rest, s);
      Parsed(b.rest[1..], (x, b.value))
  }

  /** The text of one instruction. */
  function MulText(a: string, b: string): string
  {
    "mul(" + a + "," + b + ")"
  }

  lemma ParseCloseComplete(x: nat, b: string, t: string)
    requires DigitString(b)
    ensures ParseClose(x, b + ([')'] + t)) == Parsed(t, (x, DigitsValue(b)))
  {
    MulNumberReadsDigitString(b, [')'] + t);
    assert ([')'] + t)[..1] == ")";
    assert ([')'] + t)[1..] == t;
  }

  lemma ParseArgsComplete(a: string, b: string, t: string)
    requires DigitString(a) && DigitString(b)
    ensures ParseArgs(a + ([','] + (b + ([')'] + t)))) == Parsed(t, (DigitsValue(a), DigitsValue(b)))
  {
    var u := [','] + (b + ([')'] + t));
    MulNumberReadsDigitString(a, u);
    assert u[..1] == ",";
    assert u[1..] == b + ([')'] + t);
    ParseCloseComplete(DigitsValue(a), b, t);
  }

  /** Every well-formed instruction is accepted, with its two values and nothing more consumed. */
  lemma ParseMulComplete(a: string, b: string, t: string)
    requires DigitString(a) && DigitString(b)
    ensures ParseMul(MulText(a, b) + t) == Parsed(t, (DigitsValue(a), DigitsValue(b)))
  {
    var s := MulText(a, b) + t;
    var u := a + ([','] + (b + ([')'] + t)));
    MulTextShape(a, b, t);
    assert s[..4] == "mul(";
    assert s[4..] == u;
    ParseArgsComplete(a, b, t);
  }

  /** Whatever `mul_number` accepts is a digit string followed by the unconsumed rest. */
  lemma MulNumberSound(s: string) returns (a: string)
    requires MulNumber(s).Parsed?
    ensures DigitString(a) && s == a + MulNumber(s).rest && MulNumber(s).value == DigitsValue(a)
  {
    a := s[..|s| - |MulNumber(s).rest|];
    SuffixSplit(MulNumber(s).rest, s);
  }

  lemma ParseCloseSound(x: nat, s: string) returns (b: string)
    requires ParseClose(x, s).Parsed?
    ensures DigitString(b) && s == b + ([')'] + ParseClose(x, s).rest)
    ensures ParseClose(x, s).value == (x, DigitsValue(b))
  {
    var rb := MulNumber(s);
    assert rb.Parsed? && StartsWith(rb.rest, ")");
    assert ParseClose(x, s) == Parsed(rb.rest[1..], (x, rb.value));
    b := MulNumberSound(s);
    assert rb.rest == [')'] + rb.rest[1..];
  }

  lemma ParseArgsStep(s: string)
    requires ParseArgs(s).Parsed?
    ensures MulNumber(s).Parsed? && StartsWith(MulNumber(s).rest, ",")
    ensures ParseArgs(s) == ParseClose(MulNumber(s).value, MulNumber(s).rest[1..])
  {
  }

  lemma ParseArgsSound(s: string) returns (a: string, b: string)
    requires ParseArgs(s).Parsed?
    ensures DigitString(a) && DigitString(b)
    ensures s == a + ([','] + (b + ([')'] + ParseArgs(s).rest)))
    ensures ParseArgs(s).value == (DigitsValue(a), DigitsValue(b))
  {
    ParseArgsStep(s);
    var ra := MulNumber(s);
    var u := ra.rest[1..];
    a := MulNumberSound(s);
    assert ra.rest == [','] + u;
    b := ParseCloseSound(ra.value, u);
  }

  lemma MulTextShape(a: string, b: string, t: string)
    ensures MulText(a, b) + t == "mul(" + (a + ([','] + (b + ([')'] + t))))
  {
  }

  lemma ParseMulStep(s: string)
    requires ParseMul(s).Parsed?
    ensures |s| >= 4 && s[..4] == "mul(" && ParseMul(s) == ParseArgs(s[4..])
  {
  }

  /** Whatever is accepted is a well-formed instruction followed by the unconsumed rest. */
  lemma ParseMulSound(s: string) returns (a: string, b: string)
    requires ParseMul(s).Parsed?
    ensures DigitString(a) && DigitString(b)
    ensures s == MulText(a, b) + ParseMul(s).rest
    ensures ParseMul(s).value == (DigitsValue(a), DigitsValue(b))
  {
    ParseMulStep(s);
    var u := s[4..];
    a, b := ParseArgsSound(u);
    assert s == s[..4] + u;
    MulTextShape(a, b, ParseMul(s).rest);
  }

  /** A parser over text, as nom's `Parser` trait sees one. */
  type Parser<T> = string -> ParseResult<T>

  /** A parser that only ever succeeds by consuming part of its input. */
  ghost predicate Consumes<T>(parser: Parser<T>)
  {
    forall u: string :: parser(u).Parsed? ==> IsSuffix(parser(u).rest, u) && |parser(u).rest| < |u|
  }

  lemma ParseMulConsumes()
    ensures Consumes(ParseMul)
  {
    forall u: string | ParseMul(u).Parsed?
      ensures IsSuffix(ParseMul(u).rest, u) && |ParseMul(u).rest| < |u|
    {
    }
  }

  /** The first skip n in `from..=up` at which the parser succeeds, if any. */
  function FirstMatch<T>(parser: Parser<T>, s: string, from: nat, up: nat): (r: Option<nat>)
    requires from <= up <= |s|
    ensures r.Some? ==> from <= r.value <= up && parser(s[r.value..]).Parsed?
    ensures r.Some? ==> forall m :: from <= m < r.value ==> parser(s[m..]).Failed?
    ensures r.None? ==> forall m :: from <= m <= up ==> parser(s[m..]).Failed?
    decreases up - from
  {
    if parser(s[from..]).Parsed? then Some(from)
    else if from == up then None
    else FirstMatch(parser, s, from + 1, up)
  }

  /**
   * `parse_with_skip_up_to_n(up_to, parser)`: the parser applied after the fewest skipped
   * characters, at most `up_to` and at most the whole input, that make it succeed.
   */
  function SkipUpTo<T>(upTo: nat, parser: Parser<T>, s: string): ParseResult<T>
  {
    var up := if upTo < |s| then upTo else |s|;
    match FirstMatch(parser, s, 0, up)
    case None => Failed
    case Some(n) => parser(s[n..])
  }

  /** The skip parser returns the parser's result at the smallest workable skip, and fails only if no skip works. */
  lemma SkipUpToMeaning<T>(upTo: nat, parser: Parser<T>, s: string)
    ensures var up := if upTo < |s| then upTo else |s|;
      && (SkipUpTo(upTo, parser, s).Failed? <==> forall n :: 0 <= n <= up ==> parser(s[n..]).Failed?)
      && (SkipUpTo(upTo, parser, s).Parsed? ==>
            exists n :: 0 <= n <= up && SkipUpTo(upTo, parser, s) == parser(s[n..])
              && forall m :: 0 <= m < n ==> parser(s[m..]).Failed?)
  {
  }

  /** Skipping keeps a consuming parser consuming. */
  lemma SkipUpToConsumes<T>(upTo: nat, parser: Parser<T>, s: string)
    requires Consumes(parser)
    ensures SkipUpTo(upTo, parser, s).Parsed? ==>
              IsSuffix(SkipUpTo(upTo, parser, s).rest, s) && |SkipUpTo(upTo, parser, s).rest| < |s|
  {
    var up := if upTo < |s| then upTo else |s|;
    var r := FirstMatch(parser, s, 0, up);
    if r.Some? {
      var n := r.value;
      DropIsSuffix(s, n);
      SuffixTransitive(parser(s[n..]).rest, s[n..], s);
    }
  }

  /** The skip parser finds the first position at which the parser succeeds. */
  lemma SkipFindsFirst<T>(parser: Parser<T>, s: string, n: nat)
    requires n <= SkipLimit && n <= |s|
    requires forall m :: 0 <= m < n ==> parser(s[m..]).Failed?
    requires parser(s[n..]).Parsed?
    ensures SkipUpTo(SkipLimit, parser, s) == parser(s[n..])
  {
  }

  /** `parse_with_skip_up_to_n(1024, parse_mul)`. */
  function SkipToMul(s: string): ParseResult<(nat, nat)>
  {
    SkipUpTo(SkipLimit, ParseMul, s)
  }

  /** `many0(parse_with_skip_up_to_n(1024, parse_mul))`: the instructions found left to right, and the unparsed tail. */
  function ParseInput(s: string): (r: (string, seq<(nat, nat)>))
    ensures IsSuffix(r.0, s)
    decreases |s|
  {
    ParseMulConsumes();
    SkipUpToConsumes(SkipLimit, ParseMul, s);
    match SkipToMul(s)
    case Failed => (s, [])
    case Parsed(rest, v) =>
      var (tail, vs) := ParseInput(rest);
      SuffixTransitive(tail, rest, s);
      (tail, [v] + vs)
  }

  /** `many0` stops only where the skip parser fails: no instruction starts within 1024 characters of the tail. */
  lemma {:induction false} ParseInputStops(s: string)
    ensures SkipToMul(ParseInput(s).0).Failed?
    decreases |s|
  {
    ParseMulConsumes();
    SkipUpToConsumes(SkipLimit, ParseMul, s);
    if SkipToMul(s).Parsed? {
      ParseInputStops(SkipToMul(s).rest);
    }
  }

  function SumOfProducts(muls: seq<(nat, nat)>): nat
  {
    if muls == [] then 0 else muls[0].0 * muls[0].1 + SumOfProducts(muls[1..])
  }

  /** Part 1: the sum of the products of the instructions found. */
  function Part1(s: string): nat
  {
    SumOfProducts(ParseInput(s).1)
  }

  lemma {:induction false} SumOfProductsAppend(a: seq<(nat, nat)>, b: seq<(nat, nat)>)
    ensures SumOfProducts(a + b) == SumOfProducts(a) + SumOfProducts(b)
  {
    if a == [] {
      assert a + b == b;
    } else {
      assert (a + b)[1..] == a[1..] + b;
      SumOfProductsAppend(a[1..], b);
    }
  }

  /** An instruction at the very front is always found first, whatever follows it. */
  lemma ParseInputLeadingMul(a: string, b: string, t: string)
    requires DigitString(a) && DigitString(b)
    ensures ParseInput(MulText(a, b) + t).1 == [(DigitsValue(a), DigitsValue(b))] + ParseInput(t).1
    ensures Part1(MulText(a, b) + t) == DigitsValue(a) * DigitsValue(b) + Part1(t)
  {
    var s := MulText(a, b) + t;
    ParseMulComplete(a, b, t);
    assert s[0..] == s;
    assert SkipToMul(s) == Parsed(t, (DigitsValue(a), DigitsValue(b)));
  }

  lemma ExampleMulNumberWhole()
    ensures MulNumber("123") == Parsed("", 123)
  {
    ExampleValue123();
    MulNumberReadsDigitString("123", "");
    assert "123" + "" == "123";
  }

  lemma ExampleMulNumberStopsAtLetter()
    ensures MulNumber("123abc") == Parsed("abc", 123)
  {
    ExampleValue123();
    MulNumberReadsDigitString("123", "abc");
    assert "123" + "abc" == "123abc";
  }

  lemma ExampleMulNumberAtMostThree()
    ensures MulNumber("1234") == Parsed("4", 123)
  {
    ExampleValue123();
    assert "1234"[..3] == "123";
    assert "1234"[3..] == "4";
  }

  lemma ExampleMulNumberNeedsDigit()
    ensures MulNumber("abc123").Failed?
  {
  }

  lemma ExampleValue123()
    ensures DigitString("123") && DigitsValue("123") == 123
  {
    assert "123"[..2] == "12";
    assert "12"[..1] == "1";
    assert "1"[..0] == "";
  }

  lemma ExampleParseMulMissingClose()
    ensures ParseMul("mul(123,456").Failed?
  {
    ExampleValue123();
    assert "mul(123,456"[4..] == "123" + ",456";
    MulNumberReadsDigitString("123", ",456");
    assert ",456"[1..] == "456" + "";
    ExampleValue456();
    MulNumberReadsDigitString("456", "");
  }

  lemma ExampleValue456()
    ensures DigitString("456") && DigitsValue("456") == 456
  {
    assert "456"[..2] == "45";
    assert "45"[..1] == "4";
    assert "4"[..0] == "";
  }

  lemma ExamplePart1Single()
    ensures Part1("mul(2,4)") == 8
  {
    assert DigitString("2") && DigitsValue("2") == 2 by {
      assert "2"[..0] == "";
    }
    assert DigitString("4") && DigitsValue("4") == 4 by {
      assert "4"[..0] == "";
    }
    assert "" + (MulText("2", "4") + "") == "mul(2,4)";
    ParseInputAfterSkip("", "2", "4", "");
    ExampleEmpty();
  }

  /** `parse_mul` fails on a text that does not start with an 'm'. */
  lemma NotMul(u: string)
    requires u == [] || u[0] != 'm'
    ensures ParseMul(u).Failed?
  {
    if |u| >= 4 {
      assert u[..4][0] == u[0];
      assert "mul("[0] == 'm';
      assert u[..4] != "mul(";
    }
    assert !StartsWith(u, "mul(");
  }

  /** `parse_mul` fails wherever the text does not start with an 'm'. */
  lemma NoMulStart(p: string, rest: string)
    requires 'm' !in p
    ensures forall m :: 0 <= m < |p| ==> ParseMul((p + rest)[m..]).Failed?
  {
    forall m | 0 <= m < |p|
      ensures ParseMul((p + rest)[m..]).Failed?
    {
      assert (p + rest)[m..][0] == p[m];
      assert p[m] in p;
      NotMul((p + rest)[m..]);
    }
  }

  /**
   * Junk of at most 1024 characters before an instruction, at no position of which an
   * instruction starts, is skipped: the instruction is found next.
   */
  lemma ParseInputAfterSkip(p: string, a: string, b: string, t: string)
    requires DigitString(a) && DigitString(b) && |p| <= SkipLimit
    requires forall m :: 0 <= m < |p| ==> ParseMul((p + (MulText(a, b) + t))[m..]).Failed?
    ensures ParseInput(p + (MulText(a, b) + t)) == (ParseInput(t).0, [(DigitsValue(a), DigitsValue(b))] + ParseInput(t).1)
  {
    var s := p + (MulText(a, b) + t);
    assert s[|p|..] == MulText(a, b) + t;
    ParseMulComplete(a, b, t);
    SkipFindsFirst(ParseMul, s, |p|);
  }

  /** A text in which no instruction starts parses to nothing and stays whole. */
  lemma ParseInputNothing(s: string)
    requires |s| <= SkipLimit
    requires forall m :: 0 <= m <= |s| ==> ParseMul(s[m..]).Failed?
    ensures ParseInput(s) == (s, [])
  {
    SkipUpToMeaning(SkipLimit, ParseMul, s);
  }

  lemma ExampleEmpty()
    ensures ParseInput("") == ("", [])
  {
    ParseInputNothing("");
  }

  lemma ExampleOpenParen()
    ensures ParseInput("(") == ("(", [])
  {
    assert "("[1..] == "";
    ParseInputNothing("(");
  }

  lemma ExamplePart1Skip()
    ensures Part1("xmul(2,4)") == 8
  {
    assert DigitString("2") && DigitsValue("2") == 2 by {
      assert "2"[..0] == "";
    }
    assert DigitString("4") && DigitsValue("4") == 4 by {
      assert "4"[..0] == "";
    }
    assert "x" + (MulText("2", "4") + "") == "xmul(2,4)";
    NoMulStart("x", MulText("2", "4") + "");
    ParseInputAfterSkip("x", "2", "4", "");
    ExampleEmpty();
  }

  lemma ExampleMulNumberOne()
    ensures MulNumber("1") == Parsed("", 1)
  {
    assert DigitString("1") && DigitsValue("1") == 1 by {
      assert "1"[..0] == "";
    }
    MulNumberReadsDigitString("1", "");
    assert "1" + "" == "1";
  }

  lemma ExampleParseMulWhole()
    ensures ParseMul("mul(123,456)") == Parsed("", (123, 456))
  {
    ExampleValue123();
    ExampleValue456();
    ParseMulComplete("123", "456", "");
    assert MulText("123", "456") + "" == "mul(123,456)";
  }

  /** Junk without an 'm', of at most 1024 characters, is skipped and the next instruction is found. */
  lemma ParseInputJunkThenMul(p: string, a: string, b: string, t: string)
    requires DigitString(a) && DigitString(b) && |p| <= SkipLimit && 'm' !in p
    ensures ParseInput(p + (MulText(a, b) + t)) == (ParseInput(t).0, [(DigitsValue(a), DigitsValue(b))] + ParseInput(t).1)
  {
    NoMulStart(p, MulText(a, b) + t);
    ParseInputAfterSkip(p, a, b, t);
  }

  lemma ExampleParseInputSingle()
    ensures ParseInput("mul(123,456)").0 == ""
    ensures ParseInput("mul(123,456)").1 == [(123, 456)]
  {
    assert "" + (MulText("123", "456") + "") == "mul(123,456)";
    ExampleValue123();
    ExampleValue456();
    ParseInputJunkThenMul("", "123", "456", "");
    ExampleEmpty();
  }

  /** The second half of the part 1 test text with two instructions. */
  lemma ExamplePart1Tail()
    ensures ParseInput("%&mul(3,7)").1 == [(3, 7)]
  {
    assert "%&" + (MulText("3", "7") + "") == "%&mul(3,7)";
    assert DigitString("3") && DigitsValue("3") == 3 by {
      assert "3"[..0] == "";
    }
    assert DigitString("7") && DigitsValue("7") == 7 by {
      assert "7"[..0] == "";
    }
    ParseInputJunkThenMul("%&", "3", "7", "");
    ExampleEmpty();
  }

}
