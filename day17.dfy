/**
 * Day 17: a three-bit computer with three signed 64-bit registers A, B and C, a program of
 * bytes read as (opcode, operand) pairs, and an output of three-bit values. `execute` runs the
 * program from instruction pointer 0 until the pointer leaves the program.
 */
module Day17 {
  import opened Common

  newtype u8 = x: int | 0 <= x < 0x100
  newtype i64 = x: int | -0x8000_0000_0000_0000 <= x < 0x8000_0000_0000_0000

  /** `execute` panics once its step counter exceeds this. */
  const StepLimit: nat := 100_000_000

  /** The registers and the output of a `Program`. */
  datatype Machine = Machine(a: i64, b: i64, c: i64, output: seq<u8>)

  /** `literal_operand` panics above 7. */
  predicate LiteralOk(operand: u8)
  {
    operand <= 7
  }

  /** `combo_operand` panics on 7 and above. */
  predicate ComboOk(operand: u8)
  {
    operand <= 6
  }

  /** Combo operands 0 to 3 stand for themselves, 4, 5 and 6 for registers A, B and C. */
  function Combo(m: Machine, operand: u8): i64
    requires ComboOk(operand)
  {
    if operand <= 3 then operand as int as i64
    else if operand == 4 then m.a
    else if operand == 5 then m.b
    else m.c
  }

  /** The exponent `2_i64.pow` receives: the combo value cast `as u32`, that is, its low 32 bits. */
  function Exponent(v: i64): nat
  {
    (v as int) % 0x1_0000_0000
  }

  /** `2_i64.pow(e)` overflows for an exponent of 63 or more, which a debug build reports as a panic. */
  predicate PowOk(v: i64)
  {
    Exponent(v) < 63
  }

  lemma DivAtMost(n: nat, d: nat)
    requires d >= 1
    ensures n / d <= n
  {
    MulLeft(1, d, n + 1);
    DivBounds(n, d, 0, n + 1);
  }

  /** Dividing by a positive number, truncating, never grows a value's magnitude or changes its sign. */
  lemma TruncDivShrinks(n: int, d: nat)
    requires d >= 1
    ensures Abs(TruncDiv(n, d)) <= Abs(n) && (n >= 0 ==> TruncDiv(n, d) >= 0)
  {
    DivAtMost(Abs(n), d);
  }

  /**
   * The shared body of `adv`, `bdv` and `cdv`: A divided by 2 to the power of the combo operand,
   * truncated toward zero as `i64` division is. The quotient never exceeds A in magnitude, so it
   * is an `i64` again.
   */
  function Shifted(m: Machine, operand: u8): (q: i64)
    requires ComboOk(operand) && PowOk(Combo(m, operand))
    ensures q as int == TruncDiv(m.a as int, Pow2(Exponent(Combo(m, operand))))
    ensures Abs(q as int) <= Abs(m.a as int)
    ensures m.a >= 0 ==> q >= 0
  {
    var d := Pow2(Exponent(Combo(m, operand)));
    TruncDivShrinks(m.a as int, d);
    TruncDiv(m.a as int, d) as i64
  }

  /** Bitwise exclusive or on naturals, one binary digit at a time from the lowest. */
  function XorNat(x: nat, y: nat): nat
  {
    if x == 0 && y == 0 then 0 else 2 * XorNat(x / 2, y / 2) + (x % 2 + y % 2) % 2
  }

  /** Exclusive or of two `k`-bit numbers has `k` bits. */
  lemma {:induction false} XorNatBound(x: nat, y: nat, k: nat)
    requires x < Pow2(k) && y < Pow2(k)
    ensures XorNat(x, y) < Pow2(k)
    decreases k
  {
    if k > 0 && !(x == 0 && y == 0) {
      XorNatBound(x / 2, y / 2, k - 1);
    } else if k == 0 {
      assert x == 0 && y == 0;
    }
  }

  /** Exclusive or with 0 changes nothing, and a value with itself gives 0. */
  lemma {:induction false} XorNatUnit(x: nat)
    ensures XorNat(x, 0) == x && XorNat(x, x) == 0
  {
    if x != 0 {
      XorNatUnit(x / 2);
    }
  }

  const Two64: nat := 0x1_0000_0000_0000_0000

  lemma Pow2Of64()
    ensures Pow2(64) == Two64
  {
    assert Pow2(2) == 4 by {
      Pow2Add(1, 1);
    }
    assert Pow2(4) == 16 by {
      Pow2Add(2, 2);
    }
    assert Pow2(8) == 0x100 by {
      Pow2Add(4, 4);
    }
    assert Pow2(16) == 0x1_0000 by {
      Pow2Add(8, 8);
    }
    assert Pow2(32) == 0x1_0000_0000 by {
      Pow2Add(16, 16);
    }
    Pow2Add(32, 32);
  }

  lemma {:induction false} Pow2Add(a: nat, b: nat)
    ensures Pow2(a + b) == Pow2(a) * Pow2(b)
    decreases a
  {
    if a > 0 {
      Pow2Add(a - 1, b);
      assert Pow2(a + b) == 2 * Pow2(a - 1 + b);
    }
  }

  /** An `i64` as the natural number of its 64-bit two's-complement pattern. */
  function ToBits(x: i64): (b: nat)
    ensures b < Two64
  {
    if x < 0 then x as int + Two64 else x as int
  }

  /** A 64-bit pattern read back as an `i64`. */
  function FromBits(b: nat): i64
    requires b < Two64
  {
    if b >= 0x8000_0000_0000_0000 then (b - Two64) as i64 else b as i64
  }

  /** Reading a value's bit pattern back gives the value. */
  lemma BitsRoundTrip(x: i64)
    ensures FromBits(ToBits(x)) == x
  {
  }

  /** `^` on `i64`: bitwise exclusive or of the two's-complement patterns. */
  function Xor(x: i64, y: i64): i64
  {
    Pow2Of64();
    XorNatBound(ToBits(x), ToBits(y), 64);
    FromBits(XorNat(ToBits(x), ToBits(y)))
  }

  /** `& 0b111` on an `i64`: the low three bits, which is the remainder modulo 8 rounded down. */
  function Low3(v: i64): (r: u8)
    ensures r < 8
  {
    ((v as int) % 8) as u8
  }

  /** Where the next iteration starts, and the machine after it. */
  datatype Next = Next(ip: nat, m: Machine)

  /**
   * One iteration of `execute`'s loop at `ip`: fetch opcode and operand, run the instruction,
   * and move on by 2 except after a jump. `None` stands for the source's panics: an operand
   * fetched past the end, an unknown opcode, a bad operand, or a power of two that overflows.
   */
  function Step(prog: seq<u8>, ip: nat, m: Machine): Option<Next>
    requires ip < |prog|
  {
    if ip + 1 >= |prog| then None
    else
      var opcode, operand := prog[ip], prog[ip + 1];
      if opcode == 0 then
        if ComboOk(operand) && PowOk(Combo(m, operand)) then Some(Next(ip + 2, m.(a := Shifted(m, operand)))) else None
      else if opcode == 1 then
        if LiteralOk(operand) then Some(Next(ip + 2, m.(b := Xor(m.b, operand as int as i64)))) else None
      else if opcode == 2 then
        if ComboOk(operand) then Some(Next(ip + 2, m.(b := Low3(Combo(m, operand)) as int as i64))) else None
      else if opcode == 3 then
        if m.a == 0 then Some(Next(ip + 2, m))
        else if LiteralOk(operand) then Some(Next(operand as nat, m))
        else None
      else if opcode == 4 then
        Some(Next(ip + 2, m.(b := Xor(m.b, m.c))))
      else if opcode == 5 then
        if ComboOk(operand) then Some(Next(ip + 2, m.(output := m.output + [Low3(Combo(m, operand))]))) else None
      else if opcode == 6 then
        if ComboOk(operand) && PowOk(Combo(m, operand)) then Some(Next(ip + 2, m.(b := Shifted(m, operand)))) else None
      else if opcode == 7 then
        if ComboOk(operand) && PowOk(Combo(m, operand)) then Some(Next(ip + 2, m.(c := Shifted(m, operand)))) else None
      else None
  }

  /** How a run of `execute` ends: the machine when the pointer leaves the program, or a panic. */
  datatype Outcome = Halted(m: Machine) | Panicked

  /** The run from `ip` after `count` iterations of the loop. */
  function Run(prog: seq<u8>, ip: nat, m: Machine, count: nat): Outcome
    requires count <= StepLimit
    decreases StepLimit - count
  {
    if ip >= |prog| then Halted(m)
    else if count + 1 > StepLimit then Panicked
    else match Step(prog, ip, m)
      case None => Panicked
      case Some(next) => Run(prog, next.ip, next.m, count + 1)
  }

  /**
   * Every instruction but `jnz` moves the pointer on by 2; `jnz` jumps to its literal operand
   * when A is not 0, and moves on by 2 otherwise.
   */
  lemma StepPointer(prog: seq<u8>, ip: nat, m: Machine)
    requires ip < |prog| && Step(prog, ip, m).Some?
    ensures var next := Step(prog, ip, m).value;
      if prog[ip] == 3 && m.a != 0 then next.ip == prog[ip + 1] as nat else next.ip == ip + 2
  {
  }

  /**
   * Each instruction changes its own target and nothing else: A for `adv`, B for `bxl`, `bst`,
   * `bxc` and `bdv`, C for `cdv`, the output for `out`, and nothing for `jnz`.
   */
  lemma StepTargets(prog: seq<u8>, ip: nat, m: Machine)
    requires ip < |prog| && Step(prog, ip, m).Some?
    ensures var m' := Step(prog, ip, m).value.m;
      && (prog[ip] != 0 ==> m'.a == m.a)
      && (prog[ip] !in {1, 2, 4, 6} ==> m'.b == m.b)
      && (prog[ip] != 7 ==> m'.c == m.c)
      && (prog[ip] != 5 ==> m'.output == m.output)
  {
  }

  /** A step adds at most one output value, and that value is below 8. */
  lemma StepOutput(prog: seq<u8>, ip: nat, m: Machine)
    requires ip < |prog| && Step(prog, ip, m).Some?
    ensures var out := Step(prog, ip, m).value.m.output;
      out == m.output || (|out| == |m.output| + 1 && out[..|m.output|] == m.output && out[|m.output|] < 8)
  {
    var out := Step(prog, ip, m).value.m.output;
    if prog[ip] == 5 {
      assert out[..|m.output|] == m.output;
    }
  }

  /** The output of a run only grows, and every value it adds is below 8. */
  lemma {:induction false} RunOutput(prog: seq<u8>, ip: nat, m: Machine, count: nat)
    requires count <= StepLimit && Run(prog, ip, m, count).Halted?
    ensures var out := Run(prog, ip, m, count).m.output;
      |m.output| <= |out| && out[..|m.output|] == m.output && forall i :: |m.output| <= i < |out| ==> out[i] < 8
    decreases StepLimit - count
  {
    if ip < |prog| {
      var next := Step(prog, ip, m).value;
      StepOutput(prog, ip, m);
      RunOutput(prog, next.ip, next.m, count + 1);
      var out := Run(prog, ip, m, count).m.output;
      assert out[..|next.m.output|][..|m.output|] == out[..|m.output|];
    }
  }

  /** A run that does not stop at `ip` continues from where its step leads. */
  lemma RunStep(prog: seq<u8>, ip: nat, m: Machine, count: nat)
    requires count < StepLimit && ip < |prog| && Step(prog, ip, m).Some?
    ensures Run(prog, ip, m, count) == Run(prog, Step(prog, ip, m).value.ip, Step(prog, ip, m).value.m, count + 1)
  {
  }

  /** `Program`: the registers, the program bytes and the output written so far. */
  class Program {
    var registerA: i64
    var registerB: i64
    var registerC: i64
    var program: seq<u8>
    var output: seq<u8>

    constructor (a: i64, b: i64, c: i64, program: seq<u8>)
      ensures State() == Machine(a, b, c, []) && this.program == program
    {
      registerA, registerB, registerC := a, b, c;
      this.program := program;
      output := [];
    }

    function State(): Machine
      reads this
    {
      Machine(registerA, registerB, registerC, output)
    }

    /** `write`: append a value to the output. */
    method Write(value: u8)
      modifies this
      ensures State() == old(State()).(output := old(output) + [value]) && program == old(program)
    {
      output := output + [value];
    }

    /**
     * `execute`: the loop of the source, which the run specifies. It panics where the run does,
     * so it is called only on runs that halt.
     */
    method Execute()
      requires Run(program, 0, State(), 0).Halted?
      modifies this
      ensures program == old(program) && State() == Run(program, 0, old(State()), 0).m
    {
      var ip: nat := 0;
      var cpt: nat := 0;
      while ip < |program|
        invariant program == old(program) && cpt <= StepLimit
        invariant Run(program, ip, State(), cpt) == Run(program, 0, old(State()), 0)
        decreases StepLimit - cpt
      {
        var m := State();
        var next := Step(program, ip, m).value;
        RunStep(program, ip, m, cpt);
        cpt := cpt + 1;
        var opcode := program[ip];
        var operand := program[ip + 1];
        if opcode == 0 {
          ExecuteAdv(this, operand);
        } else if opcode == 1 {
          ExecuteBxl(this, operand);
        } else if opcode == 2 {
          ExecuteBst(this, operand);
        } else if opcode == 3 {
          var jump := ExecuteJnz(this, operand);
          if jump.Some? {
            ip := jump.value;
          } else {
            ip := ip + 2;
          }
          continue;
        } else if opcode == 4 {
          ExecuteBxc(this, operand);
        } else if opcode == 5 {
          ExecuteOut(this, operand);
        } else if opcode == 6 {
          ExecuteBdv(this, operand);
        } else {
          ExecuteCdv(this, operand);
        }
        ip := ip + 2;
      }
    }
  }

  /** `literal_operand`. */
  method LiteralOperand(operand: u8) returns (v: i64)
    requires LiteralOk(operand)
    ensures v as int == operand as int
  {
    v := operand as int as i64;
  }

  /** `combo_operand`. */
  method ComboOperand(p: Program, operand: u8) returns (v: i64)
    requires ComboOk(operand)
    ensures v == Combo(p.State(), operand)
  {
    if operand <= 3 {
      v := operand as int as i64;
    } else if operand == 4 {
      v := p.registerA;
    } else if operand == 5 {
      v := p.registerB;
    } else {
      v := p.registerC;
    }
  }

  /** The numerator divided by the power of two, truncating as `i64` `/` does. */
  method Divide(p: Program, operand: u8) returns (result: i64)
    requires ComboOk(operand) && PowOk(Combo(p.State(), operand))
    ensures result == Shifted(p.State(), operand)
  {
    var numerator := p.registerA;
    var combo := ComboOperand(p, operand);
    var denominator := Pow2((combo as int) % 0x1_0000_0000);
    TruncDivShrinks(numerator as int, denominator);
    result := TruncDiv(numerator as int, denominator) as i64;
  }

  /** `execute_adv` (opcode 0): A := A / 2^combo. */
  method ExecuteAdv(p: Program, operand: u8)
    requires ComboOk(operand) && PowOk(Combo(p.State(), operand))
    modifies p
    ensures p.State() == old(p.State()).(a := Shifted(old(p.State()), operand)) && p.program == old(p.program)
  {
    var result := Divide(p, operand);
    p.registerA := result;
  }

  /** `execute_bxl` (opcode 1): B := B xor literal. */
  method ExecuteBxl(p: Program, operand: u8)
    requires LiteralOk(operand)
    modifies p
    ensures p.State() == old(p.State()).(b := Xor(old(p.registerB), operand as int as i64)) && p.program == old(p.program)
  {
    var literal := LiteralOperand(operand);
    p.registerB := Xor(p.registerB, literal);
  }

  /** `execute_bst` (opcode 2): B := combo & 0b111. */
  method ExecuteBst(p: Program, operand: u8)
    requires ComboOk(operand)
    modifies p
    ensures p.State() == old(p.State()).(b := Low3(Combo(old(p.State()), operand)) as int as i64)
    ensures p.program == old(p.program)
  {
    var combo := ComboOperand(p, operand);
    p.registerB := Low3(combo) as int as i64;
  }

  /** `execute_jnz` (opcode 3): the jump target when A is not 0; the operand is read only then. */
  method ExecuteJnz(p: Program, operand: u8) returns (jump: Option<nat>)
    requires p.registerA != 0 ==> LiteralOk(operand)
    ensures jump == if p.registerA != 0 then Some(operand as nat) else None
  {
    if p.registerA != 0 {
      var literal := LiteralOperand(operand);
      return Some(literal as int);
    }
    return None;
  }

  /** `execute_bxc` (opcode 4): B := B xor C, the operand ignored. */
  method ExecuteBxc(p: Program, operand: u8)
    modifies p
    ensures p.State() == old(p.State()).(b := Xor(old(p.registerB), old(p.registerC))) && p.program == old(p.program)
  {
    p.registerB := Xor(p.registerB, p.registerC);
  }

  /** `execute_out` (opcode 5): output combo & 0b111. */
  method ExecuteOut(p: Program, operand: u8)
    requires ComboOk(operand)
    modifies p
    ensures p.State() == old(p.State()).(output := old(p.output) + [Low3(Combo(old(p.State()), operand))])
    ensures p.program == old(p.program)
  {
    var combo := ComboOperand(p, operand);
    p.Write(Low3(combo));
  }

  /** `execute_bdv` (opcode 6): B := A / 2^combo. */
  method ExecuteBdv(p: Program, operand: u8)
    requires ComboOk(operand) && PowOk(Combo(p.State(), operand))
    modifies p
    ensures p.State() == old(p.State()).(b := Shifted(old(p.State()), operand)) && p.program == old(p.program)
  {
    var result := Divide(p, operand);
    p.registerB := result;
  }

  /** `execute_cdv` (opcode 7): C := A / 2^combo. */
  method ExecuteCdv(p: Program, operand: u8)
    requires ComboOk(operand) && PowOk(Combo(p.State(), operand))
    modifies p
    ensures p.State() == old(p.State()).(c := Shifted(old(p.State()), operand)) && p.program == old(p.program)
  {
    var result := Divide(p, operand);
    p.registerC := result;
  }

  /**
   * `day_17_part_1`: run the parsed program and produce its output, which the source joins with
   * commas and prints; the function itself returns the placeholder 42.
   */
  method Part1(a: i64, b: i64, c: i64, program: seq<u8>) returns (result: int, output: seq<u8>)
    requires Run(program, 0, Machine(a, b, c, []), 0).Halted?
    ensures result == 42 && output == Run(program, 0, Machine(a, b, c, []), 0).m.output
    ensures forall i :: 0 <= i < |output| ==> output[i] < 8
  {
    var p := new Program(a, b, c, program);
    p.Execute();
    output := p.output;
    RunOutput(program, 0, Machine(a, b, c, []), 0);
    result := 42;
  }

  /** If register C contains 9, the program 2,6 sets register B to 1. */
  lemma ExampleBst()
    ensures Run([2, 6], 0, Machine(0, 0, 9, []), 0) == Halted(Machine(0, 1, 9, []))
  {
    RunStep([2, 6], 0, Machine(0, 0, 9, []), 0);
  }

  /** If register A contains 10, the program 5,0,5,1,5,4 outputs 0,1,2. */
  lemma ExampleOut()
    ensures Run([5, 0, 5, 1, 5, 4], 0, Machine(10, 0, 0, []), 0) == Halted(Machine(10, 0, 0, [0, 1, 2]))
  {
    var prog: seq<u8> := [5, 0, 5, 1, 5, 4];
    RunStep(prog, 0, Machine(10, 0, 0, []), 0);
    RunStep(prog, 2, Machine(10, 0, 0, [0]), 1);
    RunStep(prog, 4, Machine(10, 0, 0, [0, 1]), 2);
  }

  /** If register B contains 29, the program 1,7 sets register B to 26. */
  lemma ExampleBxl()
    ensures Run([1, 7], 0, Machine(0, 29, 0, []), 0) == Halted(Machine(0, 26, 0, []))
  {
    assert XorNat(1, 0) == 1;
    assert XorNat(3, 0) == 3;
    assert XorNat(7, 1) == 6;
    assert XorNat(14, 3) == 13;
    assert XorNat(29, 7) == 26;
    RunStep([1, 7], 0, Machine(0, 29, 0, []), 0);
  }

  /** If register B contains 2024 and register C 43690, the program 4,0 sets register B to 44354. */
  lemma ExampleBxc()
    ensures Run([4, 0], 0, Machine(0, 2024, 43690, []), 0) == Halted(Machine(0, 44354, 43690, []))
  {
    assert XorNat(0, 1) == 1;
    assert XorNat(0, 2) == 2;
    assert XorNat(0, 5) == 5;
    assert XorNat(0, 10) == 10;
    assert XorNat(0, 21) == 21;
    assert XorNat(1, 42) == 43;
    assert XorNat(3, 85) == 86;
    assert XorNat(7, 170) == 173;
    assert XorNat(15, 341) == 346;
    assert XorNat(31, 682) == 693;
    assert XorNat(63, 1365) == 1386;
    assert XorNat(126, 2730) == 2772;
    assert XorNat(253, 5461) == 5544;
    assert XorNat(506, 10922) == 11088;
    assert XorNat(1012, 21845) == 22177;
    assert XorNat(2024, 43690) == 44354;
    RunStep([4, 0], 0, Machine(0, 2024, 43690, []), 0);
  }

  /** The program 0,1,5,4,3,0: halve A, output A mod 8, and repeat while A is not 0. */
  const Halving: seq<u8> := [0, 1, 5, 4, 3, 0]

  /** The values the halving program outputs from A = `x`. */
  function HalvingOutput(x: nat): seq<u8>
  {
    var y := x / 2;
    [(y % 8) as u8] + if y == 0 then [] else HalvingOutput(y)
  }

  /** The number of passes the halving program makes from A = `x`. */
  function HalvingRounds(x: nat): nat
  {
    var y := x / 2;
    1 + if y == 0 then 0 else HalvingRounds(y)
  }

  /** The halving program's `adv 1` halves a non-negative A. */
  lemma HalvingAdv(m: Machine)
    requires m.a >= 0
    ensures Step(Halving, 0, m) == Some(Next(2, m.(a := (m.a as int / 2) as i64)))
  {
    assert Pow2(1) == 2;
  }

  /** The halving program's `out 4` appends A modulo 8 to the output. */
  lemma HalvingOut(m: Machine)
    requires m.a >= 0
    ensures Step(Halving, 2, m) == Some(Next(4, m.(output := m.output + [(m.a as int % 8) as u8])))
  {
  }

  /** The halving program's `jnz 0` jumps back to the start unless A is 0. */
  lemma HalvingJnz(m: Machine)
    ensures Step(Halving, 4, m) == Some(Next(if m.a != 0 then 0 else 6, m))
  {
  }

  /** One pass of the halving program: three steps that halve A, output it and jump back unless it is 0. */
  lemma HalvingPass(x: i64, b: i64, c: i64, out: seq<u8>, count: nat)
    requires x >= 0 && count + 3 <= StepLimit
    ensures var y := x as int / 2; var m' := Machine(y as i64, b, c, out + [(y % 8) as u8]);
      Run(Halving, 0, Machine(x, b, c, out), count) == if y != 0 then Run(Halving, 0, m', count + 3) else Halted(m')
  {
    var m := Machine(x, b, c, out);
    var m1 := m.(a := (x as int / 2) as i64);
    HalvingAdv(m);
    RunStep(Halving, 0, m, count);
    var m2 := m1.(output := out + [(m1.a as int % 8) as u8]);
    HalvingOut(m1);
    RunStep(Halving, 2, m1, count + 1);
    HalvingJnz(m2);
    RunStep(Halving, 4, m2, count + 2);
  }

  /**
   * From a non-negative A, the halving program outputs the successive halves of A modulo 8 and
   * stops with A = 0, three steps per pass.
   */
  lemma {:induction false} HalvingRun(x: i64, b: i64, c: i64, out: seq<u8>, count: nat)
    requires x >= 0 && count + 3 * HalvingRounds(x as int) <= StepLimit
    ensures Run(Halving, 0, Machine(x, b, c, out), count) == Halted(Machine(0, b, c, out + HalvingOutput(x as int)))
    decreases x
  {
    var y := x as int / 2;
    var out' := out + [(y % 8) as u8];
    var m' := Machine(y as i64, b, c, out');
    var done := Machine(0, b, c, out + HalvingOutput(x as int));
    if y != 0 {
      assert Run(Halving, 0, m', count + 3) == Halted(done) by {
        HalvingRun(y as i64, b, c, out', count + 3);
        assert HalvingOutput(x as int) == [(y % 8) as u8] + HalvingOutput(y);
        assert out' + HalvingOutput(y) == done.output;
      }
      assert Run(Halving, 0, Machine(x, b, c, out), count) == Run(Halving, 0, m', count + 3) by {
        HalvingPass(x, b, c, out, count);
      }
    } else {
      assert Run(Halving, 0, Machine(x, b, c, out), count) == Halted(m') by {
        HalvingPass(x, b, c, out, count);
      }
      assert m' == done by {
        assert HalvingOutput(x as int) == [(y % 8) as u8];
      }
    }
  }

  /** If register A contains 2024, the program 0,1,5,4,3,0 outputs 4,2,5,6,7,7,7,7,3,1,0 and leaves 0 in A. */
  lemma ExampleHalving()
    ensures Run(Halving, 0, Machine(2024, 0, 0, []), 0) == Halted(Machine(0, 0, 0, [4, 2, 5, 6, 7, 7, 7, 7, 3, 1, 0]))
  {
    HalvingOf2024();
    HalvingRun(2024, 0, 0, [], 0);
  }

  lemma HalvingOf63()
    ensures HalvingOutput(63) == [7, 7, 7, 3, 1, 0] && HalvingRounds(63) == 6
  {
    assert HalvingOutput(1) == [0] && HalvingRounds(1) == 1;
    assert HalvingOutput(3) == [1, 0] && HalvingRounds(3) == 2;
    assert HalvingOutput(7) == [3, 1, 0] && HalvingRounds(7) == 3;
    assert HalvingOutput(15) == [7, 3, 1, 0] && HalvingRounds(15) == 4;
    assert HalvingOutput(31) == [7, 7, 3, 1, 0] && HalvingRounds(31) == 5;
    assert HalvingOutput(63) == [7, 7, 7, 3, 1, 0] && HalvingRounds(63) == 6;
  }

  lemma HalvingOf506()
    ensures HalvingOutput(506) == [5, 6, 7, 7, 7, 7, 3, 1, 0] && HalvingRounds(506) == 9
  {
    HalvingOf63();
    assert HalvingOutput(126) == [7, 7, 7, 7, 3, 1, 0] && HalvingRounds(126) == 7;
    assert HalvingOutput(253) == [6, 7, 7, 7, 7, 3, 1, 0] && HalvingRounds(253) == 8;
    assert HalvingOutput(506) == [5, 6, 7, 7, 7, 7, 3, 1, 0] && HalvingRounds(506) == 9;
  }

  lemma HalvingOf2024()
    ensures HalvingOutput(2024) == [4, 2, 5, 6, 7, 7, 7, 7, 3, 1, 0] && HalvingRounds(2024) == 11
  {
    HalvingOf506();
    assert HalvingOutput(1012) == [2, 5, 6, 7, 7, 7, 7, 3, 1, 0] && HalvingRounds(1012) == 10;
    assert HalvingOutput(2024) == [4, 2, 5, 6, 7, 7, 7, 7, 3, 1, 0] && HalvingRounds(2024) == 11;
  }
}
