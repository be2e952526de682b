// The two-symbol Turing machine of day 25: a blueprint of states, each with one
// instruction per value under the head, run for a fixed number of steps over a
// sparse tape.
module Turing {
  import opened Common
  import opened Text

  datatype Direction = Right | Left

  /** What to do for one value under the head. */
  datatype Instruction = Instruction(write: int, move: Direction, nextState: string)

  /** A state's two branches, for value 0 and value 1 under the head. */
  datatype State = State(branch0: Instruction, branch1: Instruction)

  /** What Go reads for a state name the blueprint never defined: the zero value. */
  const ZeroState := State(Instruction(0, Right, ""), Instruction(0, Right, ""))

  /** Everything the machine updates as it runs. */
  datatype Config = Config(nextState: string, stepsRemaining: int, position: int, tape: map<int, int>)

  /** The value on the tape at `p`: 0 where nothing was ever written. */
  function TapeAt(tape: map<int, int>, p: int): int
  {
    if p in tape then tape[p] else 0
  }

  function Lookup(states: map<string, State>, name: string): State
  {
    if name in states then states[name] else ZeroState
  }

  /** The branch indexed by the value under the head; Go panics on any index but 0 and 1. */
  function Branch(s: State, value: int): Instruction
    requires value == 0 || value == 1
  {
    if value == 0 then s.branch0 else s.branch1
  }

  /** The instruction the next step executes. */
  function Current(states: map<string, State>, c: Config): Instruction
    requires TapeAt(c.tape, c.position) == 0 || TapeAt(c.tape, c.position) == 1
  {
    Branch(Lookup(states, c.nextState), TapeAt(c.tape, c.position))
  }

  /** One step of the machine. */
  function StepConfig(states: map<string, State>, c: Config): (d: Config)
    requires TapeAt(c.tape, c.position) == 0 || TapeAt(c.tape, c.position) == 1
    ensures TapeAt(d.tape, c.position) == Current(states, c).write
    ensures forall p :: p != c.position ==> TapeAt(d.tape, p) == TapeAt(c.tape, p)
    ensures d.tape.Keys == c.tape.Keys + {c.position}
    ensures d.position == c.position + (if Current(states, c).move == Right then 1 else -1)
    ensures d.nextState == Current(states, c).nextState
    ensures d.stepsRemaining == c.stepsRemaining - 1
  {
    var ins := Current(states, c);
    Config(ins.nextState, c.stepsRemaining - 1,
           if ins.move == Right then c.position + 1 else c.position - 1,
           c.tape[c.position := ins.write])
  }

  /** Every write value of every state is 0 or 1. */
  predicate WritesBinary(states: map<string, State>)
  {
    forall name :: name in states ==>
      states[name].branch0.write in {0, 1} && states[name].branch1.write in {0, 1}
  }

  /** Every cell of the tape holds 0 or 1. */
  predicate TapeBinary(tape: map<int, int>)
  {
    forall p :: p in tape ==> tape[p] in {0, 1}
  }

  /** Binary writes keep a binary tape binary, so branch lookup never fails. */
  lemma StepKeepsBinary(states: map<string, State>, c: Config)
    requires WritesBinary(states) && TapeBinary(c.tape)
    ensures TapeAt(c.tape, c.position) in {0, 1}
    ensures TapeBinary(StepConfig(states, c).tape)
  {
    var ins := Current(states, c);
    if c.nextState in states {
      assert ins.write in {0, 1};
    }
  }

  /** Run: step until no steps remain. */
  function RunConfig(states: map<string, State>, c: Config): (d: Config)
    requires WritesBinary(states) && TapeBinary(c.tape)
    ensures d.stepsRemaining == if c.stepsRemaining > 0 then 0 else c.stepsRemaining
    ensures TapeBinary(d.tape)
    decreases c.stepsRemaining
  {
    if c.stepsRemaining <= 0 then c
    else
      StepKeepsBinary(states, c);
      RunConfig(states, StepConfig(states, c))
  }

  /** `n` steps in a row. */
  function Iterate(states: map<string, State>, c: Config, n: nat): Config
    requires WritesBinary(states) && TapeBinary(c.tape)
    ensures TapeBinary(Iterate(states, c, n).tape)
    decreases n
  {
    if n == 0 then c
    else
      StepKeepsBinary(states, c);
      Iterate(states, StepConfig(states, c), n - 1)
  }

  /** From n > 0 remaining steps, Run does exactly n steps. */
  lemma {:induction false} RunDoesRemainingSteps(states: map<string, State>, c: Config)
    requires WritesBinary(states) && TapeBinary(c.tape)
    requires c.stepsRemaining >= 0
    ensures RunConfig(states, c) == Iterate(states, c, c.stepsRemaining)
    decreases c.stepsRemaining
  {
    if c.stepsRemaining > 0 {
      StepKeepsBinary(states, c);
      RunDoesRemainingSteps(states, StepConfig(states, c));
    }
  }

  /** The positions holding 1: what Checksum counts. */
  function Ones(tape: map<int, int>): set<int>
  {
    set p | p in tape && tape[p] == 1
  }

  /** Writing v at p changes the checksum by the change of that one cell. */
  lemma ChecksumAfterWrite(tape: map<int, int>, p: int, v: int)
    ensures |Ones(tape[p := v])| ==
            |Ones(tape)| - (if TapeAt(tape, p) == 1 then 1 else 0) + (if v == 1 then 1 else 0)
  {
    var rest := Ones(tape) - {p};
    assert Ones(tape[p := v]) == if v == 1 then rest + {p} else rest;
    if TapeAt(tape, p) == 1 {
      assert Ones(tape) == rest + {p};
    } else {
      assert Ones(tape) == rest;
    }
  }

  // ---------------------------------------------------------------------------
  // The blueprint reader

  /** What NewTuringMachine extracts from a blueprint. */
  datatype Blueprint = Blueprint(start: string, steps: int, states: map<string, State>)

  /** Lines k, k+1 and k+2: the write value, the direction and the next state of one branch. */
  function ParseBranch(lines: seq<string>, k: nat): Result<Instruction>
  {
    if k >= |lines| then Err("index out of range")
    else match FindCapture(lines[k], "Write the value ", Digits, "", 0)
      case None => Err("could not parse write line")
      case Some(w) =>
        if k + 1 >= |lines| then Err("index out of range")
        else match FindWord(lines[k + 1], "Move one slot to the ", "")
          case None => Err("could not parse move line")
          case Some(dir) =>
            if dir != "left" && dir != "right" then Err("could not figure out direction")
            else if k + 2 >= |lines| then Err("index out of range")
            else match FindWord(lines[k + 2], "Continue with state ", "")
              case None => Err("could not parse continue line")
              case Some(next) =>
                Ok(Instruction(DigitsValue(w), if dir == "left" then Left else Right, next))
  }

  /** The state sections from line `jline` on, each ten lines long, added to `states`. */
  function ParseSections(lines: seq<string>, jline: nat, states: map<string, State>): Result<map<string, State>>
    decreases |lines| - jline
  {
    if jline >= |lines| then Ok(states)
    else match FindWord(lines[jline], "In state ", ":")
      case None => Ok(states)
      case Some(name) =>
        match ParseBranch(lines, jline + 2)
        case Err(e) => Err(e)
        case Ok(b0) =>
          match ParseBranch(lines, jline + 6)
          case Err(e) => Err(e)
          case Ok(b1) => ParseSections(lines, jline + 10, states[name := State(b0, b1)])
  }

  function ParseBlueprint(lines: seq<string>): Result<Blueprint>
    requires |lines| >= 1
  {
    match FindWord(lines[0], "Begin in state ", ".")
    case None => Err("could not parse start line")
    case Some(start) =>
      if |lines| < 2 then Err("index out of range")
      else match FindCapture(lines[1], "Perform a diagnostic checksum after ", Digits, " steps.", 0)
        case None => Err("could not parse step count line")
        case Some(n) =>
          match ParseSections(lines, 3, map[])
          case Err(e) => Err(e)
          case Ok(states) => Ok(Blueprint(start, DigitsValue(n), states))
  }

  /** NewTuringMachine's reading loop, advancing a line cursor section by section. */
  method ReadBlueprint(raw: string) returns (r: Result<Blueprint>)
    ensures r == ParseBlueprint(Split(raw, '\n'))
  {
    var lines := Split(raw, '\n');
    var start := FindWord(lines[0], "Begin in state ", ".");
    if start.None? {
      return Err("could not parse start line");
    }
    if |lines| < 2 {
      return Err("index out of range");
    }
    var steps := FindCapture(lines[1], "Perform a diagnostic checksum after ", Digits, " steps.", 0);
    if steps.None? {
      return Err("could not parse step count line");
    }
    var states: map<string, State> := map[];
    var jline := 3;
    while jline < |lines| && FindWord(lines[jline], "In state ", ":").Some?
      invariant ParseSections(lines, jline, states) == ParseSections(lines, 3, map[])
      decreases |lines| - jline
    {
      var name := FindWord(lines[jline], "In state ", ":").value;
      var b0 := ParseBranch(lines, jline + 2);
      if b0.Err? {
        return Err(b0.reason);
      }
      var b1 := ParseBranch(lines, jline + 6);
      if b1.Err? {
        return Err(b1.reason);
      }
      states := states[name := State(b0.value, b1.value)];
      jline := jline + 10;
    }
    r := Ok(Blueprint(start.value, DigitsValue(steps.value), states));
  }

  // Writing a blueprint, for the round trip through the reader.

  datatype Section = Section(name: string, state: State)

  predicate WellFormedInstruction(ins: Instruction)
  {
    ins.write >= 0 && IsName(ins.nextState)
  }

  predicate WellFormedSection(s: Section)
  {
    IsName(s.name) && WellFormedInstruction(s.state.branch0) && WellFormedInstruction(s.state.branch1)
  }

  function DirectionWord(d: Direction): string
  {
    if d == Left then "left" else "right"
  }

  function RenderBranch(value: string, ins: Instruction): seq<string>
    requires ins.write >= 0
  {
    ["If the current value is " + value + ":", WriteLine(ins), MoveLine(ins), ContinueLine(ins)]
  }

  function RenderSection(s: Section): (lines: seq<string>)
    requires WellFormedSection(s)
    ensures |lines| == 10
  {
    ["In state " + s.name + ":"] + RenderBranch("0", s.state.branch0)
      + RenderBranch("1", s.state.branch1) + [""]
  }

  function RenderSections(secs: seq<Section>): seq<string>
    requires forall i :: 0 <= i < |secs| ==> WellFormedSection(secs[i])
  {
    if secs == [] then [] else RenderSection(secs[0]) + RenderSections(secs[1..])
  }

  function RenderBlueprint(start: string, steps: nat, secs: seq<Section>): (lines: seq<string>)
    requires forall i :: 0 <= i < |secs| ==> WellFormedSection(secs[i])
    ensures |lines| >= 3
  {
    [StartLine(start), StepsLine(steps), ""] + RenderSections(secs)
  }

  function StartLine(start: string): string
  {
    "Begin in state " + start + "."
  }

  function StepsLine(steps: nat): string
  {
    "Perform a diagnostic checksum after " + NatToString(steps) + " steps."
  }

  /** Later sections for the same state replace earlier ones, as the reader's map assignment does. */
  function SectionsMap(secs: seq<Section>, acc: map<string, State>): map<string, State>
  {
    if secs == [] then acc else SectionsMap(secs[1..], acc[secs[0].name := secs[0].state])
  }

  lemma ReadNumber(n: nat)
    ensures AllDigits(NatToString(n)) && DigitsValue(NatToString(n)) == n
  {
    DigitsOfNatToString(n);
  }

  function WriteLine(ins: Instruction): string
    requires ins.write >= 0
  {
    "Write the value " + NatToString(ins.write) + "."
  }

  function MoveLine(ins: Instruction): string
  {
    "Move one slot to the " + DirectionWord(ins.move) + "."
  }

  function ContinueLine(ins: Instruction): string
  {
    "Continue with state " + ins.nextState + "."
  }

  lemma ReadWriteLine(line: string, ins: Instruction)
    requires WellFormedInstruction(ins) && line == WriteLine(ins)
    ensures FindCapture(line, "Write the value ", Digits, "", 0) == Some(NatToString(ins.write))
    ensures DigitsValue(NatToString(ins.write)) == ins.write
  {
    CaptureOfRendered("Write the value ", NatToString(ins.write), Digits, "", ".");
    ReadNumber(ins.write);
  }

  lemma ReadMoveLine(line: string, ins: Instruction)
    requires line == MoveLine(ins)
    ensures FindWord(line, "Move one slot to the ", "") == Some(DirectionWord(ins.move))
  {
    assert IsName(DirectionWord(ins.move));
    CaptureOfRendered("Move one slot to the ", DirectionWord(ins.move), Word, "", ".");
  }

  lemma ReadContinueLine(line: string, ins: Instruction)
    requires WellFormedInstruction(ins) && line == ContinueLine(ins)
    ensures FindWord(line, "Continue with state ", "") == Some(ins.nextState)
  {
    CaptureOfRendered("Continue with state ", ins.nextState, Word, "", ".");
  }

  lemma ParseRenderedBranch(lines: seq<string>, k: nat, ins: Instruction)
    requires WellFormedInstruction(ins)
    requires k + 3 <= |lines|
    requires lines[k] == WriteLine(ins) && lines[k + 1] == MoveLine(ins) && lines[k + 2] == ContinueLine(ins)
    ensures ParseBranch(lines, k) == Ok(ins)
  {
    ReadWriteLine(lines[k], ins);
    ReadMoveLine(lines[k + 1], ins);
    ReadContinueLine(lines[k + 2], ins);
  }

  lemma SectionBranchLines(s: Section, at: nat, ins: Instruction)
    requires WellFormedSection(s)
    requires (at == 2 && ins == s.state.branch0) || (at == 6 && ins == s.state.branch1)
    ensures RenderSection(s)[at] == WriteLine(ins)
    ensures RenderSection(s)[at + 1] == MoveLine(ins)
    ensures RenderSection(s)[at + 2] == ContinueLine(ins)
  {
  }

  /** The first line of a rendered section is read as the state's name. */
  lemma ParseRenderedHeader(lines: seq<string>, jline: nat, s: Section)
    requires WellFormedSection(s)
    requires jline + 10 <= |lines| && lines[jline..jline + 10] == RenderSection(s)
    ensures FindWord(lines[jline], "In state ", ":") == Some(s.name)
  {
    assert RenderSection(s)[0] == "In state " + s.name + ":";
    WindowLine(lines, jline, RenderSection(s), 0);
    CaptureOfRendered("In state ", s.name, Word, ":", ":");
  }

  /** The write, move and continue lines of a rendered branch are read as that branch. */
  lemma ParseRenderedSectionBranch(lines: seq<string>, jline: nat, s: Section, at: nat, ins: Instruction)
    requires WellFormedSection(s)
    requires jline + 10 <= |lines| && lines[jline..jline + 10] == RenderSection(s)
    requires (at == 2 && ins == s.state.branch0) || (at == 6 && ins == s.state.branch1)
    ensures ParseBranch(lines, jline + at) == Ok(ins)
  {
    SectionBranchLines(s, at, ins);
    WindowLine(lines, jline, RenderSection(s), at);
    WindowLine(lines, jline, RenderSection(s), at + 1);
    WindowLine(lines, jline, RenderSection(s), at + 2);
    ParseRenderedBranch(lines, jline + at, ins);
  }

  lemma WindowLine<T>(s: seq<T>, lo: nat, window: seq<T>, i: nat)
    requires lo + |window| <= |s| && s[lo..lo + |window|] == window && i < |window|
    ensures s[lo + i] == window[i]
  {
  }

  lemma ParseSectionsStep(lines: seq<string>, jline: nat, acc: map<string, State>, name: string, st: State)
    requires jline < |lines|
    requires FindWord(lines[jline], "In state ", ":") == Some(name)
    requires ParseBranch(lines, jline + 2) == Ok(st.branch0)
    requires ParseBranch(lines, jline + 6) == Ok(st.branch1)
    ensures ParseSections(lines, jline, acc) == ParseSections(lines, jline + 10, acc[name := st])
  {
  }

  lemma SplitSlice<T>(s: seq<T>, lo: nat, a: seq<T>, b: seq<T>)
    requires lo <= |s| && s[lo..] == a + b
    ensures lo + |a| <= |s| && s[lo..lo + |a|] == a && s[lo + |a|..] == b
  {
    assert s[lo..][..|a|] == a;
    assert s[lo..][|a|..] == b;
  }

  lemma {:induction false} ParseRenderedSections(lines: seq<string>, jline: nat, secs: seq<Section>, acc: map<string, State>)
    requires forall i :: 0 <= i < |secs| ==> WellFormedSection(secs[i])
    requires jline <= |lines| && lines[jline..] == RenderSections(secs)
    ensures ParseSections(lines, jline, acc) == Ok(SectionsMap(secs, acc))
    decreases |secs|
  {
    if secs != [] {
      FirstSectionParsed(lines, jline, secs, acc);
      ParseRenderedSections(lines, jline + 10, secs[1..], acc[secs[0].name := secs[0].state]);
    }
  }

  /** The first rendered section is read into the map; the others follow its ten lines. */
  lemma FirstSectionParsed(lines: seq<string>, jline: nat, secs: seq<Section>, acc: map<string, State>)
    requires secs != [] && forall i :: 0 <= i < |secs| ==> WellFormedSection(secs[i])
    requires jline <= |lines| && lines[jline..] == RenderSections(secs)
    ensures jline + 10 <= |lines| && lines[jline + 10..] == RenderSections(secs[1..])
    ensures forall i :: 0 <= i < |secs[1..]| ==> WellFormedSection(secs[1..][i])
    ensures ParseSections(lines, jline, acc) == ParseSections(lines, jline + 10, acc[secs[0].name := secs[0].state])
  {
    var s := secs[0];
    var block := RenderSection(s);
    var rest := RenderSections(secs[1..]);
    assert lines[jline..] == block + rest;
    SplitSlice(lines, jline, block, rest);
    ParseRenderedHeader(lines, jline, s);
    ParseRenderedSectionBranch(lines, jline, s, 2, s.state.branch0);
    ParseRenderedSectionBranch(lines, jline, s, 6, s.state.branch1);
    ParseSectionsStep(lines, jline, acc, s.name, s.state);
  }

  /** Reading a written blueprint gives back its start state, step count and states. */
  lemma ReadRenderedBlueprint(start: string, steps: nat, secs: seq<Section>)
    requires IsName(start)
    requires forall i :: 0 <= i < |secs| ==> WellFormedSection(secs[i])
    ensures ParseBlueprint(RenderBlueprint(start, steps, secs)) == Ok(Blueprint(start, steps, SectionsMap(secs, map[])))
  {
    var lines := RenderBlueprint(start, steps, secs);
    RenderBlueprintLines(start, steps, secs);
    ReadStartLine(start);
    ReadStepsLine(steps);
    ParseRenderedSections(lines, 3, secs, map[]);
    ParseBlueprintOk(lines, start, NatToString(steps), SectionsMap(secs, map[]));
  }

  lemma RenderBlueprintLines(start: string, steps: nat, secs: seq<Section>)
    requires forall i :: 0 <= i < |secs| ==> WellFormedSection(secs[i])
    ensures RenderBlueprint(start, steps, secs)[0] == StartLine(start)
    ensures RenderBlueprint(start, steps, secs)[1] == StepsLine(steps)
    ensures RenderBlueprint(start, steps, secs)[3..] == RenderSections(secs)
  {
  }

  lemma ReadStartLine(start: string)
    requires IsName(start)
    ensures FindWord(StartLine(start), "Begin in state ", ".") == Some(start)
  {
    CaptureOfRendered("Begin in state ", start, Word, ".", ".");
  }

  lemma ReadStepsLine(steps: nat)
    ensures FindCapture(StepsLine(steps), "Perform a diagnostic checksum after ", Digits, " steps.", 0)
            == Some(NatToString(steps))
    ensures AllDigits(NatToString(steps)) && DigitsValue(NatToString(steps)) == steps
  {
    CaptureOfRendered("Perform a diagnostic checksum after ", NatToString(steps), Digits, " steps.", " steps.");
    ReadNumber(steps);
  }

  lemma ParseBlueprintOk(lines: seq<string>, start: string, digits: string, states: map<string, State>)
    requires |lines| >= 3 && AllDigits(digits)
    requires FindWord(lines[0], "Begin in state ", ".") == Some(start)
    requires FindCapture(lines[1], "Perform a diagnostic checksum after ", Digits, " steps.", 0) == Some(digits)
    requires ParseSections(lines, 3, map[]) == Ok(states)
    ensures ParseBlueprint(lines) == Ok(Blueprint(start, DigitsValue(digits), states))
  {
  }

  // ---------------------------------------------------------------------------
  // The machine itself

  class TuringMachine {
    var nextState: string
    var stepsRemaining: int
    var position: int
    var states: map<string, State>
    var tape: map<int, int>

    function Snapshot(): Config
      reads this
    {
      Config(nextState, stepsRemaining, position, tape)
    }

    /** A machine as NewTuringMachine leaves it: head at 0 on a blank tape. */
    constructor (bp: Blueprint)
      ensures Snapshot() == Config(bp.start, bp.steps, 0, map[]) && states == bp.states
    {
      nextState := bp.start;
      stepsRemaining := bp.steps;
      position := 0;
      states := bp.states;
      tape := map[];
    }

    method Step()
      requires TapeAt(tape, position) == 0 || TapeAt(tape, position) == 1
      modifies this
      ensures states == old(states)
      ensures Snapshot() == StepConfig(states, old(Snapshot()))
    {
      var state := Lookup(states, nextState);
      var ins := Branch(state, TapeAt(tape, position));
      tape := tape[position := ins.write];
      nextState := ins.nextState;
      if ins.move == Right {
        position := position + 1;
      } else {
        position := position - 1;
      }
      stepsRemaining := stepsRemaining - 1;
    }

    method Run()
      requires WritesBinary(states) && TapeBinary(tape)
      modifies this
      ensures states == old(states)
      ensures Snapshot() == RunConfig(states, old(Snapshot()))
    {
      while stepsRemaining > 0
        invariant states == old(states) && TapeBinary(tape)
        invariant RunConfig(states, Snapshot()) == RunConfig(states, old(Snapshot()))
        decreases stepsRemaining
      {
        StepKeepsBinary(states, Snapshot());
        Step();
      }
    }

    /** The number of cells holding 1; cells written back to 0 are not counted. */
    method Checksum() returns (count: nat)
      ensures count == |Ones(tape)|
    {
      var t := tape;
      count := 0;
      var remaining := t.Keys;
      ghost var visited: set<int> := {};
      while remaining != {}
        invariant remaining !! visited && remaining + visited == t.Keys
        invariant count == |OnesAmong(t, visited)|
        decreases |remaining|
      {
        ghost var some := SomeMember(remaining);
        var p :| p in remaining;
        if t[p] == 1 {
          assert OnesAmong(t, visited + {p}) == OnesAmong(t, visited) + {p};
          count := count + 1;
        } else {
          assert OnesAmong(t, visited + {p}) == OnesAmong(t, visited);
        }
        remaining := remaining - {p};
        visited := visited + {p};
      }
      assert OnesAmong(t, visited) == Ones(t);
    }
  }

  function OnesAmong(tape: map<int, int>, keys: set<int>): set<int>
  {
    set p | p in keys && p in tape && tape[p] == 1
  }

  // The blueprint of the example: state A writes 1 and goes right to B on 0,
  // writes 0 and goes left to B on 1; state B writes 1 and goes left to A on 0,
  // writes 1 and goes right to A on 1.
  const ExampleStates: map<string, State> := map[
    "A" := State(Instruction(1, Right, "B"), Instruction(0, Left, "B")),
    "B" := State(Instruction(1, Left, "A"), Instruction(1, Right, "A"))]

  lemma ExampleSteps1to3()
    ensures StepConfig(ExampleStates, Config("A", 6, 0, map[])) == Config("B", 5, 1, map[0 := 1])
    ensures StepConfig(ExampleStates, Config("B", 5, 1, map[0 := 1])) == Config("A", 4, 0, map[0 := 1, 1 := 1])
    ensures StepConfig(ExampleStates, Config("A", 4, 0, map[0 := 1, 1 := 1]))
            == Config("B", 3, -1, map[0 := 0, 1 := 1])
  {
  }

  lemma ExampleSteps4to6()
    ensures StepConfig(ExampleStates, Config("B", 3, -1, map[0 := 0, 1 := 1]))
            == Config("A", 2, -2, map[0 := 0, 1 := 1, -1 := 1])
    ensures StepConfig(ExampleStates, Config("A", 2, -2, map[0 := 0, 1 := 1, -1 := 1]))
            == Config("B", 1, -1, map[0 := 0, 1 := 1, -1 := 1, -2 := 1])
    ensures StepConfig(ExampleStates, Config("B", 1, -1, map[0 := 0, 1 := 1, -1 := 1, -2 := 1]))
            == Config("A", 0, 0, map[0 := 0, 1 := 1, -1 := 1, -2 := 1])
  {
  }

  lemma RunUnfold(states: map<string, State>, c: Config)
    requires WritesBinary(states) && TapeBinary(c.tape) && c.stepsRemaining > 0
    ensures TapeAt(c.tape, c.position) in {0, 1} && TapeBinary(StepConfig(states, c).tape)
    ensures RunConfig(states, c) == RunConfig(states, StepConfig(states, c))
  {
    StepKeepsBinary(states, c);
  }

  const C0 := Config("A", 6, 0, map[])
  const C3 := Config("B", 3, -1, map[0 := 0, 1 := 1])
  const C6 := Config("A", 0, 0, map[0 := 0, 1 := 1, -1 := 1, -2 := 1])

  lemma ExampleRunFirstHalf()
    ensures RunConfig(ExampleStates, C0) == RunConfig(ExampleStates, C3)
  {
    ExampleSteps1to3();
    RunUnfold(ExampleStates, C0);
    RunUnfold(ExampleStates, Config("B", 5, 1, map[0 := 1]));
    RunUnfold(ExampleStates, Config("A", 4, 0, map[0 := 1, 1 := 1]));
  }

  lemma ExampleRunSecondHalf()
    ensures RunConfig(ExampleStates, C3) == C6
  {
    ExampleSteps4to6();
    RunUnfold(ExampleStates, C3);
    RunUnfold(ExampleStates, Config("A", 2, -2, map[0 := 0, 1 := 1, -1 := 1]));
    RunUnfold(ExampleStates, Config("B", 1, -1, map[0 := 0, 1 := 1, -1 := 1, -2 := 1]));
  }

  lemma ExampleOnes()
    ensures |Ones(C6.tape)| == 3
  {
    assert Ones(C6.tape) == {1, -1, -2};
  }

  /** Six steps of the example end with the head back at 0 and three ones on the tape. */
  lemma ExampleRun()
    ensures var d := RunConfig(ExampleStates, Config("A", 6, 0, map[]));
            d.position == 0 && d.stepsRemaining == 0 && |Ones(d.tape)| == 3
  {
    ExampleRunFirstHalf();
    ExampleRunSecondHalf();
    ExampleOnes();
  }
}
