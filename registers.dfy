// The conditional register machine of day 8: each instruction increments or
// decrements one register when a comparison of another register with a literal
// holds. Registers spring into existence, holding 0, when an instruction names them.
module Registers {
  import opened Common
  import opened Text

  /** Register name to value. */
  type Registers = map<string, int>

  /**
   * An instruction line as its six captures: `a inc 5 if b < 3` is
   * Line("a", "inc", "5", "b", "<", "3").
   */
  datatype Line = Line(registerName: string, op: string, operandStr: string,
                       predSubject: string, comparator: string, predOperandStr: string)

  /** What reading a register from the Go map gives: its value, or 0 when absent. */
  function Lookup(regs: Registers, name: string): int
  {
    if name in regs then regs[name] else 0
  }

  // ---------------------------------------------------------------------------
  // instructionRe, `^(\w+) (\w+) ([-\w]+) if (\w+) (.*) ([-\w]+)$`

  /** A whole capture of `(\w+)` or `([-\w]+)`: non-empty, class characters only. */
  predicate IsRun(w: string, cls: CharClass)
  {
    |w| > 0 && forall k :: 0 <= k < |w| ==> InClass(w[k], cls)
  }

  /** The lines instructionRe matches: the six captures as the pattern allows them. */
  predicate WellFormed(line: Line)
  {
    IsRun(line.registerName, Word) && IsRun(line.op, Word) && IsRun(line.operandStr, Operand)
    && IsRun(line.predSubject, Word) && '\n' !in line.comparator && IsRun(line.predOperandStr, Operand)
  }

  /** The instruction text whose captures are the line's fields. */
  function RenderLine(line: Line): string
  {
    line.registerName + (" " + (line.op + (" " + (line.operandStr + (" if " + (line.predSubject
    + (" " + (line.comparator + (" " + line.predOperandStr)))))))))
  }

  /**
   * A leading capture of class characters followed by `sep`: the capture and the
   * text after sep. Since sep never starts with a class character, only the
   * longest run can be followed by it.
   */
  function TakeRun(s: string, cls: CharClass, sep: string): (r: Option<(string, string)>)
    ensures r.Some? ==> IsRun(r.value.0, cls) && s == r.value.0 + (sep + r.value.1)
  {
    var n := RunLength(s, cls);
    if n > 0 && HasPrefix(s[n..], sep) then
      assert s == s[..n] + (sep + s[n + |sep|..]) by {
        assert s[n..][..|sep|] == s[n..n + |sep|];
      }
      Some((s[..n], s[n + |sep|..]))
    else None
  }

  /** The last index holding a space, or -1. */
  function LastSpace(s: string): (r: int)
    ensures -1 <= r < |s|
    ensures r >= 0 ==> s[r] == ' '
    ensures forall k :: r < k < |s| ==> s[k] != ' '
  {
    if s == [] then -1
    else if s[|s| - 1] == ' ' then |s| - 1
    else LastSpace(s[..|s| - 1])
  }

  /**
   * `(.*) ([-\w]+)$` on the rest of the line: the last capture holds no space, so
   * the greedy `.*` ends at the last space; `.` matches anything but a newline.
   */
  function TakeTail(s: string): (r: Option<(string, string)>)
    ensures r.Some? ==> s == r.value.0 + (" " + r.value.1) && IsRun(r.value.1, Operand) && '\n' !in r.value.0
  {
    var j := LastSpace(s);
    if j >= 0 && IsRun(s[j + 1..], Operand) && '\n' !in s[..j] then
      assert s == s[..j] + (" " + s[j + 1..]);
      Some((s[..j], s[j + 1..]))
    else None
  }

  /** instructionRe.FindStringSubmatch: the six captures, or None where execInstruction panics. */
  function MatchInstruction(instruction: string): (r: Option<Line>)
    ensures r.Some? ==> WellFormed(r.value)
  {
    match TakeRun(instruction, Word, " ")
    case None => None
    case Some((name, s1)) =>
      match TakeRun(s1, Word, " ")
      case None => None
      case Some((op, s2)) =>
        match TakeRun(s2, Operand, " if ")
        case None => None
        case Some((operandStr, s3)) =>
          match TakeRun(s3, Word, " ")
          case None => None
          case Some((subject, s4)) =>
            match TakeTail(s4)
            case None => None
            case Some((comparator, predOperandStr)) =>
              Some(Line(name, op, operandStr, subject, comparator, predOperandStr))
  }

  lemma TakeRunOf(w: string, cls: CharClass, sep: string, rest: string)
    requires IsRun(w, cls) && |sep| > 0 && !InClass(sep[0], cls)
    ensures TakeRun(w + (sep + rest), cls, sep) == Some((w, rest))
  {
    var s := w + (sep + rest);
    RunLengthOf(w, sep + rest, cls);
    assert s[|w|..] == sep + rest;
    assert s[..|w|] == w;
  }

  lemma TakeTailOf(comparator: string, predOperandStr: string)
    requires IsRun(predOperandStr, Operand) && '\n' !in comparator
    ensures TakeTail(comparator + (" " + predOperandStr)) == Some((comparator, predOperandStr))
  {
    var s := comparator + (" " + predOperandStr);
    var j := LastSpace(s);
    assert s[|comparator|] == ' ';
    assert j == |comparator|;
    assert s[..j] == comparator;
    assert s[j + 1..] == predOperandStr;
  }

  /** What instructionRe matches is a well-formed line written out. */
  lemma MatchSound(instruction: string, line: Line)
    requires MatchInstruction(instruction) == Some(line)
    ensures RenderLine(line) == instruction
  {
    match TakeRun(instruction, Word, " ")
    case None =>
    case Some((_, s1)) =>
      match TakeRun(s1, Word, " ")
      case None =>
      case Some((_, s2)) =>
        match TakeRun(s2, Operand, " if ")
        case None =>
        case Some((_, s3)) =>
          match TakeRun(s3, Word, " ")
          case None =>
          case Some((_, s4)) =>
            match TakeTail(s4)
            case None =>
            case Some(_) =>
  }

  /** A written-out well-formed line is matched, and its captures are its fields. */
  lemma MatchRendered(line: Line)
    requires WellFormed(line)
    ensures MatchInstruction(RenderLine(line)) == Some(line)
  {
    var tail := line.comparator + (" " + line.predOperandStr);
    var s3 := line.predSubject + (" " + tail);
    var s2 := line.operandStr + (" if " + s3);
    var s1 := line.op + (" " + s2);
    TakeRunOf(line.registerName, Word, " ", s1);
    TakeRunOf(line.op, Word, " ", s2);
    TakeRunOf(line.operandStr, Operand, " if ", s3);
    TakeRunOf(line.predSubject, Word, " ", tail);
    TakeTailOf(line.comparator, line.predOperandStr);
  }

  /** instructionRe matches a text exactly when it is a well-formed line written out. */
  lemma MatchExactly(instruction: string)
    ensures MatchInstruction(instruction).Some? <==> exists line :: WellFormed(line) && RenderLine(line) == instruction
  {
    if MatchInstruction(instruction).Some? {
      MatchSound(instruction, MatchInstruction(instruction).value);
    }
    if exists line :: WellFormed(line) && RenderLine(line) == instruction {
      var line :| WellFormed(line) && RenderLine(line) == instruction;
      MatchRendered(line);
    }
  }

  // ---------------------------------------------------------------------------
  // ensureRegister

  /** The map after ensureRegister(name): name is present, nothing else changes. */
  function Ensured(regs: Registers, name: string): (r: Registers)
    ensures r.Keys == regs.Keys + {name}
    ensures forall k :: k in regs ==> r[k] == regs[k]
    ensures forall k :: Lookup(r, k) == Lookup(regs, k)
  {
    if name in regs then regs else regs[name := 0]
  }

  // ---------------------------------------------------------------------------
  // The comparison and the update

  const Comparators: set<string> := {"<", "<=", ">", ">=", "==", "!="}

  /** The sign of d: -1, 0 or 1. */
  function Sign(d: int): int
  {
    if d < 0 then -1 else if d == 0 then 0 else 1
  }

  /** The signs of value - operand under which each comparator holds. */
  function Signs(comparator: string): set<int>
  {
    if comparator == "<" then {-1}
    else if comparator == "<=" then {-1, 0}
    else if comparator == ">" then {1}
    else if comparator == ">=" then {0, 1}
    else if comparator == "==" then {0}
    else if comparator == "!=" then {-1, 1}
    else {}
  }

  /** The predicate `value <comparator> operand`, or None for an unrecognised comparator. */
  function Compare(comparator: string, value: int, operand: int): (r: Option<bool>)
    ensures r.None? <==> comparator !in Comparators
    ensures r.Some? ==> (r.value <==> Sign(value - operand) in Signs(comparator))
  {
    if comparator == "<" then Some(value < operand)
    else if comparator == "<=" then Some(value <= operand)
    else if comparator == ">" then Some(value > operand)
    else if comparator == ">=" then Some(value >= operand)
    else if comparator == "==" then Some(value == operand)
    else if comparator == "!=" then Some(value != operand)
    else None
  }

  /** The comparator that holds exactly where `comparator` fails. */
  function Negated(comparator: string): string
  {
    if comparator == "<" then ">="
    else if comparator == "<=" then ">"
    else if comparator == ">" then "<="
    else if comparator == ">=" then "<"
    else if comparator == "==" then "!="
    else if comparator == "!=" then "=="
    else comparator
  }

  /** The six comparators come in complementary pairs. */
  lemma CompareNegated(comparator: string, value: int, operand: int)
    requires comparator in Comparators
    ensures Negated(comparator) in Comparators && Negated(Negated(comparator)) == comparator
    ensures Compare(Negated(comparator), value, operand) == Some(!Compare(comparator, value, operand).value)
  {
  }

  /** The register's new value under `op`, or None for an unrecognised one. */
  function Apply(op: string, value: int, operand: int): (r: Option<int>)
    ensures r.None? <==> op != "inc" && op != "dec"
  {
    if op == "inc" then Some(value + operand)
    else if op == "dec" then Some(value - operand)
    else None
  }

  /** dec undoes inc, and dec by n is inc by -n. */
  lemma ApplyInverse(value: int, operand: int)
    ensures Apply("dec", Apply("inc", value, operand).value, operand) == Some(value)
    ensures Apply("dec", value, operand) == Apply("inc", value, -operand)
  {
  }

  // ---------------------------------------------------------------------------
  // execInstruction on values

  /** Whether the line's predicate holds on `regs` (both operands parse, the comparator is known). */
  predicate Holds(regs: Registers, line: Line)
  {
    var predOperand := Atoi(line.predOperandStr);
    predOperand.Some?
    && Compare(line.comparator, Lookup(regs, line.predSubject), predOperand.value) == Some(true)
  }

  /** Where execInstruction panics: an operand that is not an integer, an unknown
      comparator, or an unknown op on an instruction whose predicate holds. */
  predicate Panics(regs: Registers, line: Line)
  {
    Atoi(line.operandStr).None? || Atoi(line.predOperandStr).None?
    || line.comparator !in Comparators
    || (Holds(regs, line) && line.op != "inc" && line.op != "dec")
  }

  /** The registers after execInstruction(line), or None where it panics. */
  function Executed(regs: Registers, line: Line): (r: Option<Registers>)
    ensures r.None? <==> Panics(regs, line)
    ensures r.Some? ==> r.value.Keys == regs.Keys + {line.registerName, line.predSubject}
    ensures r.Some? && !Holds(regs, line) ==> forall k :: Lookup(r.value, k) == Lookup(regs, k)
    ensures r.Some? && Holds(regs, line) ==>
      Lookup(r.value, line.registerName)
        == Lookup(regs, line.registerName)
           + (if line.op == "inc" then Atoi(line.operandStr).value else -Atoi(line.operandStr).value)
    ensures r.Some? ==> forall k :: k != line.registerName ==> Lookup(r.value, k) == Lookup(regs, k)
  {
    var operand := Atoi(line.operandStr);
    var predOperand := Atoi(line.predOperandStr);
    if operand.None? || predOperand.None? then None
    else
      var touched := Ensured(Ensured(regs, line.registerName), line.predSubject);
      match Compare(line.comparator, touched[line.predSubject], predOperand.value)
      case None => None
      case Some(holds) =>
        if !holds then Some(touched)
        else
          match Apply(line.op, touched[line.registerName], operand.value)
          case None => None
          case Some(v) => Some(touched[line.registerName := v])
  }

  /** execInstruction on the instruction's text: None where it panics, a text instructionRe does not match included. */
  function ExecutedText(regs: Registers, instruction: string): Option<Registers>
  {
    match MatchInstruction(instruction)
    case None => None
    case Some(line) => Executed(regs, line)
  }

  /** On the text of a well-formed line, execInstruction does what its fields say. */
  lemma ExecutedRendered(regs: Registers, line: Line)
    requires WellFormed(line)
    ensures ExecutedText(regs, RenderLine(line)) == Executed(regs, line)
  {
    MatchRendered(line);
  }

  /** A text that is no well-formed line written out panics, whatever the registers. */
  lemma UnmatchedPanics(regs: Registers, instruction: string)
    requires forall line :: WellFormed(line) ==> RenderLine(line) != instruction
    ensures ExecutedText(regs, instruction) == None
  {
    MatchExactly(instruction);
  }

  /** The registers after the lines in order, or None at the first panic. */
  function ExecutedAll(regs: Registers, lines: seq<Line>): (r: Option<Registers>)
    ensures r.Some? ==> regs.Keys <= r.value.Keys
    decreases |lines|
  {
    if lines == [] then Some(regs)
    else
      match Executed(regs, lines[0])
      case None => None
      case Some(next) => ExecutedAll(next, lines[1..])
  }

  /** Running two batches one after the other is running them joined. */
  lemma {:induction false} ExecutedAllAppend(regs: Registers, a: seq<Line>, b: seq<Line>)
    ensures ExecutedAll(regs, a).None? ==> ExecutedAll(regs, a + b).None?
    ensures ExecutedAll(regs, a).Some? ==> ExecutedAll(regs, a + b) == ExecutedAll(ExecutedAll(regs, a).value, b)
    decreases |a|
  {
    if a == [] {
      assert a + b == b;
    } else {
      assert (a + b)[0] == a[0];
      assert (a + b)[1..] == a[1..] + b;
      var next := Executed(regs, a[0]);
      if next.Some? {
        ExecutedAllAppend(next.value, a[1..], b);
      }
    }
  }

  // ---------------------------------------------------------------------------
  // The examples

  /** A line `name inc n if subject <comparator> m` with its numbers written out. */
  function IncLine(name: string, n: int, subject: string, comparator: string, m: int): Line
  {
    Line(name, "inc", Itoa(n), subject, comparator, Itoa(m))
  }

  /** Text that stops after the operand is not matched, so execInstruction panics on it. */
  lemma ExampleNoMatch()
    ensures MatchInstruction("a inc 1") == None
  {
  }

  /** The first test's text is matched with the captures a, inc, 1, b, < and 5. */
  lemma ExampleMatch()
    ensures MatchInstruction("a inc 1 if b < 5") == Some(IncLine("a", 1, "b", "<", 5))
  {
    var line := IncLine("a", 1, "b", "<", 5);
    assert RenderLine(line) == "a inc 1 if b < 5";
    MatchRendered(line);
  }

  /** Mentioning registers creates them, even when the predicate fails:
      `a inc 1 if b < 5` on no registers leaves a = 1 and b = 0. */
  lemma ExampleCreates(regs: Registers)
    requires regs == map[]
    ensures Executed(regs, IncLine("a", 1, "b", "<", 5)).Some?
    ensures Executed(regs, IncLine("a", 1, "b", "<", 5)).value.Keys == {"a", "b"}
    ensures Lookup(Executed(regs, IncLine("a", 1, "b", "<", 5)).value, "a") == 1
    ensures Lookup(Executed(regs, IncLine("a", 1, "b", "<", 5)).value, "b") == 0
  {
    AtoiItoa(1);
    AtoiItoa(5);
  }

  /** Later predicates see earlier updates: `a inc 1 if b > 0`, `b inc 1 if c == 0`,
      `a inc 1 if b > 0` leave a = 1, the first instruction having done nothing. */
  lemma ExampleStateful(regs: Registers)
    requires regs == map[]
    ensures ExecutedAll(regs, [IncLine("a", 1, "b", ">", 0), IncLine("b", 1, "c", "==", 0),
                               IncLine("a", 1, "b", ">", 0)]).Some?
    ensures Lookup(ExecutedAll(regs, [IncLine("a", 1, "b", ">", 0), IncLine("b", 1, "c", "==", 0),
                                      IncLine("a", 1, "b", ">", 0)]).value, "a") == 1
  {
    AtoiItoa(1);
    AtoiItoa(0);
    var l1, l2 := IncLine("a", 1, "b", ">", 0), IncLine("b", 1, "c", "==", 0);
    var r1 := Executed(regs, l1);
    assert r1 == Some(map["a" := 0, "b" := 0]);
    var r2 := Executed(r1.value, l2);
    assert Lookup(r2.value, "b") == 1 && Lookup(r2.value, "a") == 0;
    var r3 := Executed(r2.value, l1);
    assert Lookup(r3.value, "a") == 1;
    assert ExecutedAll(r2.value, [l1]) == r3;
    assert [l1, l2, l1][1..] == [l2, l1];
    assert [l2, l1][1..] == [l1];
  }

  // ---------------------------------------------------------------------------
  // RegisterSet, the map execInstruction updates in place

  class RegisterSet {
    var registers: Registers

    /** NewRegisterSet: no registers. */
    constructor ()
      ensures registers == map[]
    {
      registers := map[];
    }

    method EnsureRegister(registerName: string)
      modifies this
      ensures registers == Ensured(old(registers), registerName)
    {
      if registerName !in registers {
        registers := registers[registerName := 0];
      }
    }

    /** The switch on the comparator in execInstruction; `known` is false where it panics. */
    static method TestPredicate(comparator: string, value: int, predOperand: int) returns (known: bool, predVal: bool)
      ensures known == Compare(comparator, value, predOperand).Some?
      ensures known ==> predVal == Compare(comparator, value, predOperand).value
    {
      known, predVal := true, false;
      if comparator == "<" {
        predVal := value < predOperand;
      } else if comparator == "<=" {
        predVal := value <= predOperand;
      } else if comparator == ">" {
        predVal := value > predOperand;
      } else if comparator == ">=" {
        predVal := value >= predOperand;
      } else if comparator == "==" {
        predVal := value == predOperand;
      } else if comparator == "!=" {
        predVal := value != predOperand;
      } else {
        known := false;
      }
    }

    /** execInstruction; `ok` is false where the source panics, and the registers then
        hold whatever had been done before the panic. */
    method ExecInstruction(instruction: string) returns (ok: bool)
      modifies this
      ensures ok == ExecutedText(old(registers), instruction).Some?
      ensures ok ==> registers == ExecutedText(old(registers), instruction).value
    {
      var matches := MatchInstruction(instruction);
      if matches.None? {
        return false;
      }
      ok := ExecLine(matches.value);
    }

    /** The rest of execInstruction, on the six captures. */
    method ExecLine(line: Line) returns (ok: bool)
      modifies this
      ensures ok == Executed(old(registers), line).Some?
      ensures ok ==> registers == Executed(old(registers), line).value
    {
      var operand := Atoi(line.operandStr);
      if operand.None? {
        return false;
      }
      var predOperand := Atoi(line.predOperandStr);
      if predOperand.None? {
        return false;
      }
      EnsureRegister(line.registerName);
      EnsureRegister(line.predSubject);
      assert registers == Ensured(Ensured(old(registers), line.registerName), line.predSubject);

      var known, predVal := TestPredicate(line.comparator, registers[line.predSubject], predOperand.value);
      if !known {
        return false;
      }
      if !predVal {
        return true;
      }

      if line.op == "inc" {
        registers := registers[line.registerName := registers[line.registerName] + operand.value];
      } else if line.op == "dec" {
        registers := registers[line.registerName := registers[line.registerName] - operand.value];
      } else {
        return false;
      }
      return true;
    }
  }
}
