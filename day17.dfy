/** Day 17: the 3-bit computer.

    A program is a list of words read in pairs, an opcode and an operand.
    The machine has an instruction pointer, three registers a, b and c
    and an output list; it runs until the pointer leaves the program. A
    combo operand 0..3 stands for itself, 4, 5 and 6 for the registers
    a, b and c, and any other value for nothing, which makes an opcode
    that needs a value fail. The registers are unbounded non-negative
    integers and `^` is Python's bitwise exclusive or on them. */
module Day17 {
  import opened Common
  import opened Decimal
  import opened Bits

  // ---------------------------------------------------------------------
  // One instruction

  datatype Machine = Machine(ip: nat, a: nat, b: nat, c: nat, output: seq<nat>)

  /** The value of a combo operand; None for 7 and any larger word. */
  function Combo(lit: nat, a: nat, b: nat, c: nat): (r: Option<nat>)
    ensures r.None? <==> lit >= 7
    ensures lit <= 3 ==> r == Some(lit)
  {
    if lit <= 3 then Some(lit)
    else if lit == 4 then Some(a)
    else if lit == 5 then Some(b)
    else if lit == 6 then Some(c)
    else None
  }

  /** The machine after the instruction at ip, or None when the
      instruction needs a combo value and its operand has none. */
  function Step(program: seq<nat>, m: Machine): Option<Machine>
    requires m.ip + 1 < |program|
  {
    var ins := program[m.ip];
    var lit := program[m.ip + 1];
    var cmb := Combo(lit, m.a, m.b, m.c);
    var next := m.ip + 2;
    if ins == 0 then
      if cmb.None? then None else Some(m.(a := DivPow2(m.a, cmb.value), ip := next))
    else if ins == 1 then Some(m.(b := Xor(m.b, lit), ip := next))
    else if ins == 2 then
      if cmb.None? then None else Some(m.(b := cmb.value % 8, ip := next))
    else if ins == 3 then
      if m.a != 0 then Some(m.(ip := lit)) else Some(m.(ip := next))
    else if ins == 4 then Some(m.(b := Xor(m.b, m.c), ip := next))
    else if ins == 5 then
      if cmb.None? then None else Some(m.(output := m.output + [cmb.value % 8], ip := next))
    else if ins == 6 then
      if cmb.None? then None else Some(m.(b := DivPow2(m.a, cmb.value), ip := next))
    else if ins == 7 then
      if cmb.None? then None else Some(m.(c := DivPow2(m.a, cmb.value), ip := next))
    else Some(m.(ip := next))
  }

  /** What each opcode does to the registers, the pointer and the output. */
  lemma StepSpec(program: seq<nat>, m: Machine)
    requires m.ip + 1 < |program|
    ensures var ins, lit := program[m.ip], program[m.ip + 1];
            var r := Step(program, m);
            (r.None? <==> ins in {0, 2, 5, 6, 7} && lit >= 7) &&
            (r.Some? ==>
               var m' := r.value;
               (ins == 0 ==> m'.a == m.a / Pow2(Combo(lit, m.a, m.b, m.c).value) && m'.b == m.b && m'.c == m.c) &&
               (ins == 6 ==> m'.b == m.a / Pow2(Combo(lit, m.a, m.b, m.c).value) && m'.a == m.a && m'.c == m.c) &&
               (ins == 7 ==> m'.c == m.a / Pow2(Combo(lit, m.a, m.b, m.c).value) && m'.a == m.a && m'.b == m.b) &&
               (ins == 1 ==> m'.b == Xor(m.b, lit)) &&
               (ins == 2 ==> m'.b == Combo(lit, m.a, m.b, m.c).value % 8) &&
               (ins == 4 ==> m'.b == Xor(m.b, m.c)) &&
               (ins in {1, 2, 4} ==> m'.a == m.a && m'.c == m.c) &&
               (m'.ip == if ins == 3 && m.a != 0 then lit else m.ip + 2) &&
               (m'.output == m.output ||
                  (ins == 5 && |m'.output| == |m.output| + 1 &&
                   m'.output[..|m.output|] == m.output && m'.output[|m.output|] < 8)))
  {
    var lit := program[m.ip + 1];
    if lit < 7 {
      DivPow2Exact(m.a, Combo(lit, m.a, m.b, m.c).value);
    }
  }

  // ---------------------------------------------------------------------
  // Running a program

  datatype Outcome = Halted(output: seq<nat>) | Failed | OutOfFuel

  /** Runs at most `fuel` instructions: the output once the pointer is
      past the last full pair, Failed when an instruction has no combo
      value, OutOfFuel when the program is still running. */
  function Run(program: seq<nat>, m: Machine, fuel: nat): Outcome
    decreases fuel
  {
    if m.ip + 1 >= |program| then Halted(m.output)
    else if fuel == 0 then OutOfFuel
    else
      match Step(program, m)
      case None => Failed
      case Some(m') => Run(program, m', fuel - 1)
  }

  /** The interpreter's loop, with the registers and the pointer as local
      variables; `fuel` bounds the number of instructions. */
  method Interpret(program: seq<nat>, a0: nat, b0: nat, c0: nat, fuel: nat) returns (r: Outcome)
    ensures r == Run(program, Machine(0, a0, b0, c0, []), fuel)
  {
    var ip: nat, a: nat, b: nat, c: nat := 0, a0, b0, c0;
    var output: seq<nat> := [];
    var steps := 0;
    while ip + 1 < |program|
      invariant steps <= fuel
      invariant Run(program, Machine(ip, a, b, c, output), fuel - steps) ==
                Run(program, Machine(0, a0, b0, c0, []), fuel)
      decreases fuel - steps
    {
      if steps == fuel {
        return OutOfFuel;
      }
      var ins := program[ip];
      var lit := program[ip + 1];

      // decipher combo operand
      var cmb := Combo(lit, a, b, c);

      // execute instruction
      if ins in {0, 2, 5, 6, 7} && cmb.None? {
        return Failed;
      }
      if ins == 0 {
        a := DivPow2(a, cmb.value);
      } else if ins == 1 {
        b := Xor(b, lit);
      } else if ins == 2 {
        b := cmb.value % 8;
      } else if ins == 3 {
        if a != 0 {
          ip := lit;
          steps := steps + 1;
          continue;
        }
      } else if ins == 4 {
        b := Xor(b, c);
      } else if ins == 5 {
        output := output + [cmb.value % 8];
      } else if ins == 6 {
        b := DivPow2(a, cmb.value);
      } else if ins == 7 {
        c := DivPow2(a, cmb.value);
      }
      ip := ip + 2;
      steps := steps + 1;
    }
    return Halted(output);
  }

  /** A program shorter than two words outputs nothing; a halted run only
      appends to the output, every value it appends is in 0..7, and at most
      one value per instruction. */
  lemma {:induction false} RunOutput(program: seq<nat>, m: Machine, fuel: nat)
    ensures |program| < 2 ==> Run(program, m, fuel) == Halted(m.output)
    ensures Run(program, m, fuel).Halted? ==>
      var out := Run(program, m, fuel).output;
      |m.output| <= |out| <= |m.output| + fuel && out[..|m.output|] == m.output &&
      forall i :: |m.output| <= i < |out| ==> out[i] < 8
    decreases fuel
  {
    if m.ip + 1 < |program| && fuel > 0 && Step(program, m).Some? {
      var m' := Step(program, m).value;
      StepSpec(program, m);
      RunOutput(program, m', fuel - 1);
      if Run(program, m, fuel).Halted? {
        var out := Run(program, m', fuel - 1).output;
        assert out[..|m'.output|][..|m.output|] == out[..|m.output|];
      }
    }
  }

  /** More fuel does not change the outcome of a run that halted or
      failed: the result depends only on the program and the start. */
  lemma {:induction false} RunMoreFuel(program: seq<nat>, m: Machine, fuel: nat, more: nat)
    requires fuel <= more && !Run(program, m, fuel).OutOfFuel?
    ensures Run(program, m, more) == Run(program, m, fuel)
    decreases fuel
  {
    if m.ip + 1 < |program| && fuel > 0 && Step(program, m).Some? {
      RunMoreFuel(program, Step(program, m).value, fuel - 1, more - 1);
    }
  }

  // ---------------------------------------------------------------------
  // Part 1

  /** `",".join(map(str, values))`. */
  function Join(values: seq<nat>): string
  {
    if values == [] then ""
    else if |values| == 1 then Show(values[0])
    else Join(values[..|values| - 1]) + "," + Show(values[|values| - 1])
  }

  /** The last value of a join is one digit, after a comma when others
      come before it. */
  lemma JoinSnoc(values: seq<nat>)
    requires values != [] && values[|values| - 1] < 8
    ensures var d := ('0' as int + values[|values| - 1]) as char;
            Join(values) == if |values| == 1 then [d] else Join(values[..|values| - 1]) + [','] + [d]
  {
    var n := |values| - 1;
    ShowDigit(values[n]);
    hide Show, Decimal.ToDigits;
    if n > 0 {
      assert Join(values) == Join(values[..n]) + "," + Show(values[n]);
    }
  }

  /** Joining values in 0..7 puts the digit of the i-th value at position
      2i with commas in between. */
  lemma {:induction false} JoinDigits(values: seq<nat>)
    requires forall i :: 0 <= i < |values| ==> values[i] < 8
    ensures values != [] ==> |Join(values)| == 2 * |values| - 1
    ensures forall i :: 0 <= i < |values| ==> Join(values)[2 * i] == ('0' as int + values[i]) as char
    ensures forall i :: 0 <= i < |values| - 1 ==> Join(values)[2 * i + 1] == ','
  {
    if values != [] {
      var n := |values| - 1;
      JoinSnoc(values);
      hide Join, Show;
      if n > 0 {
        var init := values[..n];
        JoinDigits(init);
        var j := Join(init);
        forall i | 0 <= i < |values| ensures Join(values)[2 * i] == ('0' as int + values[i]) as char {
          if i < n {
            assert Join(values)[2 * i] == j[2 * i] && init[i] == values[i];
          }
        }
        forall i | 0 <= i < n ensures Join(values)[2 * i + 1] == ',' {
          if i < n - 1 {
            assert Join(values)[2 * i + 1] == j[2 * i + 1];
          }
        }
      }
    }
  }

  /** The comma-separated output of the program; None when it fails or
      runs out of fuel. */
  method Part1(program: seq<nat>, a: nat, b: nat, c: nat, fuel: nat) returns (r: Option<string>)
    ensures var run := Run(program, Machine(0, a, b, c, []), fuel);
            (r.Some? <==> run.Halted?) && (r.Some? ==> r.value == Join(run.output))
  {
    var result := Interpret(program, a, b, c, fuel);
    if !result.Halted? {
      return None;
    }
    return Some(Join(result.output));
  }
}
