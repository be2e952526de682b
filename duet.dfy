// The register CPU of days 18 and 23: seven two-operand instructions over
// single-letter registers, plus snd/rcv over an outgoing and an incoming queue.
module Duet {
  import opened Common
  import opened Text

  /** Go's math.MaxInt32, which rcv stores in pc to end the run when nothing arrives. */
  const MaxInt32 := 2147483647

  /** An operand as the instruction pattern captures it: a non-empty word, maybe with a minus sign. */
  type Token = s: string | |s| > 0 witness "0"

  datatype Op = Set | Add | Sub | Mul | Mod | Jgz | Jnz

  /** An instruction line, decoded; Unmatched is a line neither instruction pattern accepts. */
  datatype Instruction =
    | Snd(x: Token)
    | Rcv(x: Token)
    | Binary(op: Op, x: Token, y: Token)
    | Unmatched(line: string)

  /** The value of register r: 0 for a register never touched. */
  function Reg(regs: map<char, int>, r: char): int
  {
    if r in regs then regs[r] else 0
  }

  /** valueOf: a token that parses as an integer is that integer, otherwise the register named by its first byte. */
  function Value(regs: map<char, int>, t: Token): int
  {
    match Atoi(t)
    case Some(v) => v
    case None => Reg(regs, t[0])
  }

  /** The registers after valueOf(t): reading an unset register stores a 0 in it. */
  function Touch(regs: map<char, int>, t: Token): (r: map<char, int>)
    ensures forall q :: Reg(r, q) == Reg(regs, q)
    ensures regs.Keys <= r.Keys
    ensures Atoi(t).None? ==> t[0] in r
  {
    if Atoi(t).Some? || t[0] in regs then regs else regs[t[0] := 0]
  }

  // Go's `%` is Common.GoRem.

  /** Go's `/`: the quotient rounded toward zero. */
  function GoQuot(a: int, b: int): int
    requires b != 0
  {
    var q := Abs(a) / Abs(b);
    if (a < 0) == (b < 0) then q else -q
  }

  /** GoRem is the remainder of truncated division: it keeps the dividend's sign and is smaller than the divisor. */
  lemma GoRemIsRemainder(a: int, b: int)
    requires b != 0
    ensures a == b * GoQuot(a, b) + GoRem(a, b)
    ensures Abs(GoRem(a, b)) < Abs(b)
    ensures a >= 0 ==> GoRem(a, b) >= 0
    ensures a <= 0 ==> GoRem(a, b) <= 0
  {
    var x, y := Abs(a), Abs(b);
    var m: int := x % y;
    EuclidFacts(x, y);
    QuotProduct(a, b);
    assert GoRem(a, b) == if a < 0 then -m else m;
  }

  lemma EuclidFacts(x: nat, y: nat)
    requires y > 0
    ensures x == y * (x / y) + x % y && 0 <= x % y < y
  {
  }

  /** The divisor times the truncated quotient is the magnitudes' product, with the dividend's sign. */
  lemma QuotProduct(a: int, b: int)
    requires b != 0
    ensures var p := Abs(b) * (Abs(a) / Abs(b));
            b * GoQuot(a, b) == if a < 0 then -p else p
  {
    var y, q := Abs(b), Abs(a) / Abs(b);
    MulSigns(b, y, q, GoQuot(a, b), a < 0);
  }

  lemma MulSigns(b: int, y: int, q: int, g: int, negative: bool)
    requires y == Abs(b)
    requires g == if negative == (b < 0) then q else -q
    ensures b * g == if negative then -(y * q) else y * q
  {
    NegMul(y, q);
    if b < 0 {
      assert b == -y;
    } else {
      assert b == y;
    }
  }

  lemma NegMul(y: int, q: int)
    ensures (-y) * q == -(y * q) && y * -q == -(y * q) && (-y) * -q == y * q
  {
  }

  /** The arithmetic of set/add/sub/mul/mod on the target's value and the source value. */
  function Arith(op: Op, target: int, src: int): int
    requires op in {Set, Add, Sub, Mul, Mod}
    requires op == Mod ==> src != 0
  {
    match op
    case Set => src
    case Add => target + src
    case Sub => target - src
    case Mul => target * src
    case Mod => GoRem(target, src)
  }

  /** Whether a jump with test value v is taken. */
  predicate Taken(op: Op, v: int)
    requires op in {Jgz, Jnz}
  {
    if op == Jgz then v > 0 else v != 0
  }

  /** The state of one CPU, apart from its fixed id. */
  datatype Cpu = Cpu(registers: map<char, int>, pc: int, incoming: seq<int>, outgoing: seq<int>,
                     sentCount: int, mulCount: int)

  /** The mod instruction panics on a zero divisor. */
  predicate DividesByZero(c: Cpu, ins: Instruction)
  {
    ins.Binary? && ins.op == Mod && Value(c.registers, ins.y) == 0
  }

  /** execInstruction. */
  function Exec(c: Cpu, ins: Instruction): (d: Cpu)
    requires !DividesByZero(c, ins)
    ensures c.registers.Keys <= d.registers.Keys
    ensures d.mulCount == c.mulCount + (if ins.Binary? && ins.op == Mul then 1 else 0)
    ensures d.sentCount == c.sentCount + (if ins.Snd? then 1 else 0)
    ensures d.outgoing == if ins.Snd? then c.outgoing + [Value(c.registers, ins.x)] else c.outgoing
  {
    match ins
    case Snd(x) =>
      c.(registers := Touch(c.registers, x), outgoing := c.outgoing + [Value(c.registers, x)],
         sentCount := c.sentCount + 1, pc := c.pc + 1)
    case Rcv(x) =>
      if |c.incoming| > 0 then
        c.(registers := c.registers[x[0] := c.incoming[0]], incoming := c.incoming[1..], pc := c.pc + 1)
      else
        c.(pc := MaxInt32)
    case Binary(op, x, y) =>
      var src := Value(c.registers, y);
      var regs := Touch(c.registers, y);
      if op in {Jgz, Jnz} then
        var test := Value(regs, x);
        c.(registers := Touch(regs, x), pc := if Taken(op, test) then c.pc + src else c.pc + 1)
      else
        c.(registers := regs[x[0] := Arith(op, Reg(regs, x[0]), src)], pc := c.pc + 1,
           mulCount := if op == Mul then c.mulCount + 1 else c.mulCount)
    case Unmatched(_) => c
  }

  /** What each instruction does: which register, counter, queue and pc it changes, and how. */
  lemma ExecEffects(c: Cpu, ins: Instruction)
    requires !DividesByZero(c, ins)
    ensures ins.Snd? ==> Exec(c, ins).pc == c.pc + 1 && Exec(c, ins).incoming == c.incoming
    ensures ins.Snd? ==> forall r :: Reg(Exec(c, ins).registers, r) == Reg(c.registers, r)
    ensures ins.Binary? && ins.op in {Set, Add, Sub, Mul, Mod} ==>
              Exec(c, ins).pc == c.pc + 1 && Exec(c, ins).incoming == c.incoming
              && Reg(Exec(c, ins).registers, ins.x[0]) == Arith(ins.op, Reg(c.registers, ins.x[0]), Value(c.registers, ins.y))
              && forall r :: r != ins.x[0] ==> Reg(Exec(c, ins).registers, r) == Reg(c.registers, r)
    ensures ins.Binary? && ins.op in {Jgz, Jnz} ==>
              Exec(c, ins).incoming == c.incoming
              && Exec(c, ins).pc == c.pc + (if Taken(ins.op, Value(c.registers, ins.x)) then Value(c.registers, ins.y) else 1)
              && forall r :: Reg(Exec(c, ins).registers, r) == Reg(c.registers, r)
    ensures ins.Rcv? && |c.incoming| > 0 ==>
              Exec(c, ins).pc == c.pc + 1 && Exec(c, ins).incoming == c.incoming[1..]
              && Reg(Exec(c, ins).registers, ins.x[0]) == c.incoming[0]
              && forall r :: r != ins.x[0] ==> Reg(Exec(c, ins).registers, r) == Reg(c.registers, r)
    ensures ins.Rcv? && |c.incoming| == 0 ==> Exec(c, ins) == c.(pc := MaxInt32)
    ensures ins.Unmatched? ==> Exec(c, ins) == c
  {
  }

  // ---------------------------------------------------------------------------
  // Running a program

  /** The number of lines execInstructions runs: one trailing empty line is dropped. */
  function ProgramLength(program: seq<Instruction>): (n: nat)
    ensures n <= |program|
  {
    if |program| > 0 && program[|program| - 1] == Unmatched("") then |program| - 1 else |program|
  }

  datatype Status = Halted | NegativePc | DivideByZero | OutOfFuel

  /** execInstructions within `fuel` instructions: runs while pc is below the program length. */
  function Run(c: Cpu, program: seq<Instruction>, fuel: nat): (r: (Status, Cpu))
    ensures r.0 == Halted ==> r.1.pc >= ProgramLength(program)
    ensures r.0 == NegativePc ==> r.1.pc < 0
    ensures r.0 == DivideByZero ==> 0 <= r.1.pc < ProgramLength(program) && DividesByZero(r.1, program[r.1.pc])
    ensures r.1.mulCount >= c.mulCount && r.1.sentCount >= c.sentCount
    ensures c.outgoing <= r.1.outgoing
    decreases fuel
  {
    if c.pc >= ProgramLength(program) then (Halted, c)
    else if c.pc < 0 then (NegativePc, c)
    else if fuel == 0 then (OutOfFuel, c)
    else if DividesByZero(c, program[c.pc]) then (DivideByZero, c)
    else Run(Exec(c, program[c.pc]), program, fuel - 1)
  }

  /** More fuel changes nothing once a run has stopped for another reason. */
  lemma {:induction false} RunWithMoreFuel(c: Cpu, program: seq<Instruction>, fuel: nat, more: nat)
    requires Run(c, program, fuel).0 != OutOfFuel
    ensures Run(c, program, fuel + more) == Run(c, program, fuel)
    decreases fuel
  {
    if c.pc < ProgramLength(program) && c.pc >= 0 && fuel > 0 && !DividesByZero(c, program[c.pc]) {
      var next := Exec(c, program[c.pc]);
      assert Run(c, program, fuel) == Run(next, program, fuel - 1);
      assert Run(c, program, fuel + more) == Run(next, program, fuel - 1 + more);
      RunWithMoreFuel(next, program, fuel - 1, more);
    }
  }

  /** Storing over a register that getRegister may have just set to 0 is storing over the original. */
  lemma Overwrite(regs: map<char, int>, r: char, v: int)
    ensures regs[r := 0][r := v] == regs[r := v]
  {
  }

  class DuetCpu {
    var id: int
    var registers: map<char, int>
    var pc: int
    var incoming: seq<int>
    var outgoing: seq<int>
    var sentCount: int
    var mulCount: int

    function Snapshot(): Cpu
      reads this
    {
      Cpu(registers, pc, incoming, outgoing, sentCount, mulCount)
    }

    /** NewDuetCpu: register p holds the id; everything else is empty. */
    constructor (id: int)
      ensures this.id == id
      ensures Snapshot() == Cpu(map['p' := id], 0, [], [], 0, 0)
    {
      this.id := id;
      registers := map['p' := id];
      pc := 0;
      incoming := [];
      outgoing := [];
      sentCount := 0;
      mulCount := 0;
    }

    /** getRegister: an unset register reads as 0 and is stored as 0. */
    method GetRegister(name: char) returns (v: int)
      modifies this`registers
      ensures v == Reg(old(registers), name)
      ensures registers == if name in old(registers) then old(registers) else old(registers)[name := 0]
    {
      if name in registers {
        return registers[name];
      }
      registers := registers[name := 0];
      return 0;
    }

    method ValueOf(thing: Token) returns (v: int)
      modifies this`registers
      ensures v == Value(old(registers), thing)
      ensures registers == Touch(old(registers), thing)
    {
      var literal := Atoi(thing);
      if literal.Some? {
        return literal.value;
      }
      v := GetRegister(thing[0]);
    }

    /** execInstruction: one instruction, as Exec describes it. */
    method ExecInstruction(ins: Instruction)
      requires !DividesByZero(Snapshot(), ins)
      modifies this
      ensures id == old(id)
      ensures Snapshot() == Exec(old(Snapshot()), ins)
    {
      match ins {
        case Snd(x) => ExecSnd(x);
        case Rcv(x) => ExecRcv(x);
        case Binary(op, x, y) =>
          if op in {Jgz, Jnz} {
            ExecJump(op, x, y);
          } else {
            ExecArith(op, x, y);
          }
        case Unmatched(_) =>
      }
    }

    /** snd X: queue the value of X and count it. */
    method ExecSnd(x: Token)
      modifies this
      ensures id == old(id)
      ensures Snapshot() == Exec(old(Snapshot()), Snd(x))
    {
      var src := ValueOf(x);
      outgoing := outgoing + [src];
      sentCount := sentCount + 1;
      pc := pc + 1;
    }

    /** rcv X: take the first queued value into register X, or end the run when nothing is queued. */
    method ExecRcv(x: Token)
      modifies this
      ensures id == old(id)
      ensures Snapshot() == Exec(old(Snapshot()), Rcv(x))
    {
      if |incoming| > 0 {
        registers := registers[x[0] := incoming[0]];
        incoming := incoming[1..];
        pc := pc + 1;
      } else {
        pc := MaxInt32;
      }
    }

    /** jgz / jnz X Y: jump by Y when X is positive / non-zero. */
    method ExecJump(op: Op, x: Token, y: Token)
      requires op in {Jgz, Jnz}
      modifies this
      ensures id == old(id)
      ensures Snapshot() == Exec(old(Snapshot()), Binary(op, x, y))
    {
      var src := ValueOf(y);
      var test := ValueOf(x);
      match op {
        case Jgz =>
          if test > 0 {
            pc := pc + src;
          } else {
            pc := pc + 1;
          }
        case Jnz =>
          if test != 0 {
            pc := pc + src;
          } else {
            pc := pc + 1;
          }
      }
    }

    /** set / add / sub / mul / mod X Y: store the result in register X; mul is counted. */
    method ExecArith(op: Op, x: Token, y: Token)
      requires op in {Set, Add, Sub, Mul, Mod}
      requires !DividesByZero(Snapshot(), Binary(op, x, y))
      modifies this
      ensures id == old(id)
      ensures Snapshot() == Exec(old(Snapshot()), Binary(op, x, y))
    {
      var tgtName := x[0];
      var src := ValueOf(y);
      ghost var touched := registers;
      var result := Combine(op, tgtName, src);
      Overwrite(touched, tgtName, result);
      registers := registers[tgtName := result];
      pc := pc + 1;
      if op == Mul {
        mulCount := mulCount + 1;
      }
    }

    /** The value set / add / sub / mul / mod store in register tgtName; all but set read it first. */
    method Combine(op: Op, tgtName: char, src: int) returns (result: int)
      requires op in {Set, Add, Sub, Mul, Mod}
      requires op == Mod ==> src != 0
      modifies this`registers
      ensures result == Arith(op, Reg(old(registers), tgtName), src)
      ensures registers == old(registers) || registers == old(registers)[tgtName := 0]
    {
      match op {
        case Set =>
          result := src;
        case Add =>
          var t := GetRegister(tgtName);
          result := t + src;
        case Sub =>
          var t := GetRegister(tgtName);
          result := t - src;
        case Mul =>
          var t := GetRegister(tgtName);
          result := t * src;
        case Mod =>
          var t := GetRegister(tgtName);
          result := GoRem(t, src);
      }
    }

    /** execInstructions, stopped after `fuel` instructions; a negative pc or a zero divisor is reported instead of panicking. */
    method ExecInstructions(program: seq<Instruction>, fuel: nat) returns (status: Status)
      modifies this
      ensures id == old(id)
      ensures (status, Snapshot()) == Run(old(Snapshot()), program, fuel)
    {
      var instructionLen := |program|;
      if instructionLen > 0 && program[instructionLen - 1] == Unmatched("") {
        instructionLen := instructionLen - 1;
      }
      var left := fuel;
      while pc < instructionLen
        invariant instructionLen == ProgramLength(program) && id == old(id)
        invariant Run(Snapshot(), program, left) == Run(old(Snapshot()), program, fuel)
        decreases left
      {
        if pc < 0 {
          return NegativePc;
        }
        if left == 0 {
          return OutOfFuel;
        }
        if DividesByZero(Snapshot(), program[pc]) {
          return DivideByZero;
        }
        ExecInstruction(program[pc]);
        left := left - 1;
      }
      return Halted;
    }
  }

  // ---------------------------------------------------------------------------
  // The examples

  /** The day 23 example, which multiplies once. */
  const MulExample: seq<Instruction> := [
    Binary(Set, "a", "1"), Binary(Add, "a", "2"), Binary(Mul, "a", "a"),
    Binary(Mod, "a", "5"), Binary(Set, "a", "0"), Binary(Set, "a", "1"), Unmatched("")]

  lemma Literals()
    ensures Atoi("0") == Some(0) && Atoi("1") == Some(1) && Atoi("2") == Some(2) && Atoi("5") == Some(5)
    ensures Atoi("10") == Some(10) && Atoi("-10") == Some(-10) && Atoi("a") == None
  {
    assert DigitsValue("10") == 10 by { assert "10"[..1] == "1"; }
    assert !IsDigit('a');
  }

  lemma RunStep(c: Cpu, program: seq<Instruction>, fuel: nat)
    requires 0 <= c.pc < ProgramLength(program) && fuel > 0 && !DividesByZero(c, program[c.pc])
    ensures Run(c, program, fuel) == Run(Exec(c, program[c.pc]), program, fuel - 1)
  {
  }

  /** The CPU states the day 23 example passes through. */
  const M0 := Cpu(map['p' := 0], 0, [], [], 0, 0)
  const M1 := Cpu(map['p' := 0, 'a' := 1], 1, [], [], 0, 0)
  const M2 := Cpu(map['p' := 0, 'a' := 3], 2, [], [], 0, 0)
  const M3 := Cpu(map['p' := 0, 'a' := 9], 3, [], [], 0, 1)
  const M4 := Cpu(map['p' := 0, 'a' := 4], 4, [], [], 0, 1)
  const M5 := Cpu(map['p' := 0, 'a' := 0], 5, [], [], 0, 1)
  const M6 := Cpu(map['p' := 0, 'a' := 1], 6, [], [], 0, 1)

  /** set a 1 */
  lemma MulExampleStep1()
    ensures !DividesByZero(M0, MulExample[0]) && Exec(M0, MulExample[0]) == M1
  {
    assert Atoi("a") == None by { assert !IsDigit('a'); }
    assert Atoi("1") == Some(1);
  }

  /** add a 2 */
  lemma MulExampleStep2()
    ensures !DividesByZero(M1, MulExample[1]) && Exec(M1, MulExample[1]) == M2
  {
    assert Atoi("a") == None by { assert !IsDigit('a'); }
    assert Atoi("2") == Some(2);
  }

  /** mul a a */
  lemma MulExampleStep3()
    ensures !DividesByZero(M2, MulExample[2]) && Exec(M2, MulExample[2]) == M3
  {
    assert Atoi("a") == None by { assert !IsDigit('a'); }
  }

  /** mod a 5 */
  lemma MulExampleStep4()
    ensures !DividesByZero(M3, MulExample[3]) && Exec(M3, MulExample[3]) == M4
  {
    assert Atoi("a") == None by { assert !IsDigit('a'); }
    assert Atoi("5") == Some(5);
  }

  /** set a 0 */
  lemma MulExampleStep5()
    ensures !DividesByZero(M4, MulExample[4]) && Exec(M4, MulExample[4]) == M5
  {
    assert Atoi("a") == None by { assert !IsDigit('a'); }
    assert Atoi("0") == Some(0);
  }

  /** set a 1 */
  lemma MulExampleStep6()
    ensures !DividesByZero(M5, MulExample[5]) && Exec(M5, MulExample[5]) == M6
  {
    assert Atoi("a") == None by { assert !IsDigit('a'); }
    assert Atoi("1") == Some(1);
  }

  /** The day 23 example halts after six instructions having multiplied once. */
  lemma MulExampleCountsOneMul()
    ensures var r := Run(M0, MulExample, 6);
            r.0 == Halted && r.1.mulCount == 1 && Reg(r.1.registers, 'a') == 1
  {
    MulExampleStep1();
    MulExampleStep2();
    MulExampleStep3();
    MulExampleStep4();
    MulExampleStep5();
    MulExampleStep6();
    var p := MulExample;
    assert ProgramLength(p) == 6;
    RunStep(M0, p, 6);
    RunStep(M1, p, 5);
    RunStep(M2, p, 4);
    RunStep(M3, p, 3);
    RunStep(M4, p, 2);
    RunStep(M5, p, 1);
  }

  /** The jump tests: jgz 1 10 goes to 10, jgz a -10 with a = 1 to -9, jnz a 10 with a = -1 to 11. */
  lemma JumpExamples()
    ensures Exec(Cpu(map['p' := 0], 0, [], [], 0, 0), Binary(Jgz, "1", "10")).pc == 10
    ensures Exec(Cpu(map['p' := 0, 'a' := 1], 1, [], [], 0, 0), Binary(Jgz, "a", "-10")).pc == -9
    ensures Exec(Cpu(map['p' := 0], 0, [], [], 0, 0), Binary(Jgz, "0", "10")).pc == 1
    ensures Exec(Cpu(map['p' := 0, 'a' := -1], 1, [], [], 0, 0), Binary(Jgz, "a", "10")).pc == 2
    ensures Exec(Cpu(map['p' := 0, 'a' := -1], 1, [], [], 0, 0), Binary(Jnz, "a", "10")).pc == 11
  {
    Literals();
  }
}
