// The jump maze of day 5: a list of jump offsets, each incremented (or, in the
// second variant, nudged towards 3) after it is used, walked until the address
// leaves the list.
module Trampoline {
  import opened Common
  import opened Text

  // ---------------------------------------------------------------------------
  // NewCpuTrampolineMaze's reading

  /** The integers of the fields, in order, or None as soon as one field is not an integer. */
  function ParseFields(fields: seq<string>): (r: Option<seq<int>>)
    ensures r.Some? <==> forall i :: 0 <= i < |fields| ==> Atoi(fields[i]).Some?
    ensures r.Some? ==> |r.value| == |fields|
    ensures r.Some? ==> forall i :: 0 <= i < |fields| ==> Atoi(fields[i]) == Some(r.value[i])
  {
    if fields == [] then Some([])
    else
      var front := fields[..|fields| - 1];
      assert forall i :: 0 <= i < |front| ==> fields[i] == front[i];
      var vs, v := ParseFields(front), Atoi(fields[|fields| - 1]);
      if vs.Some? && v.Some? then Some(vs.value + [v.value]) else None
  }

  /** The offsets NewCpuTrampolineMaze reads from whitespace-separated text; None where it panics. */
  function ParseOffsets(text: string): Option<seq<int>>
  {
    ParseFields(Fields(text))
  }

  /** The offsets written out with strconv.Itoa. */
  function Render(offsets: seq<int>): (words: seq<string>)
    ensures |words| == |offsets|
  {
    seq(|offsets|, i requires 0 <= i < |offsets| => Itoa(offsets[i]))
  }

  /** Reading the offsets back from their decimal forms gives them again. */
  lemma ParseFieldsRender(offsets: seq<int>)
    ensures ParseFields(Render(offsets)) == Some(offsets)
  {
    var words := Render(offsets);
    forall i | 0 <= i < |words| ensures Atoi(words[i]) == Some(offsets[i]) {
      AtoiItoa(offsets[i]);
      assert words[i] == Itoa(offsets[i]);
    }
    var r := ParseFields(words);
    assert r.Some?;
    assert |r.value| == |offsets|;
    assert forall i :: 0 <= i < |offsets| ==> r.value[i] == offsets[i];
    assert r.value == offsets;
  }

  /** Any non-empty list of offsets, written space-separated, reads back as itself. */
  lemma ParseOffsetsRoundTrip(offsets: seq<int>)
    requires |offsets| >= 1
    ensures ParseOffsets(Join(Render(offsets), ' ')) == Some(offsets)
  {
    var words := Render(offsets);
    forall i | 0 <= i < |words| ensures IsWord(words[i]) {
      ItoaIsWord(offsets[i]);
    }
    FieldsJoin(words);
    ParseFieldsRender(offsets);
  }

  // ---------------------------------------------------------------------------
  // tick, tick2, run and run2 on values

  /** The maze: the offsets, the address of the next jump (negative once outside), the jumps taken. */
  datatype Maze = Maze(cells: seq<int>, addr: int, steps: int)

  /** tick and tick2 read the cell at addr, so addr must lie inside the list. */
  predicate Inside(m: Maze)
  {
    0 <= m.addr < |m.cells|
  }

  /** Where a jump from `addr` by `jump` lands: an address past the end becomes -1. */
  function Land(addr: int, jump: int, len: nat): (r: int)
    ensures r < len
    ensures r >= 0 <==> 0 <= addr + jump < len
  {
    if addr + jump >= len then -1 else addr + jump
  }

  /** tick: jump by the current cell, which is incremented. */
  function Jump(m: Maze): (r: Maze)
    requires Inside(m)
  {
    var jump := m.cells[m.addr];
    Maze(m.cells[m.addr := jump + 1], Land(m.addr, jump, |m.cells|), m.steps + 1)
  }

  /** tick2: jump by the current cell, which is decremented when at least 3, incremented otherwise. */
  function Jump2(m: Maze): (r: Maze)
    requires Inside(m)
  {
    var jump := m.cells[m.addr];
    var cell := if jump >= 3 then jump - 1 else jump + 1;
    Maze(m.cells[m.addr := cell], Land(m.addr, jump, |m.cells|), m.steps + 1)
  }

  /**
   * What tick and tick2 do: one more step, the jump by the old cell value,
   * and only the cell at the old address changed, by +1 for tick and towards
   * 3 for tick2.
   */
  lemma TickEffects(m: Maze)
    requires Inside(m)
    ensures var r, jump := Jump(m), m.cells[m.addr];
            && |r.cells| == |m.cells| && r.steps == m.steps + 1
            && r.cells[m.addr] == jump + 1
            && (forall k :: 0 <= k < |m.cells| && k != m.addr ==> r.cells[k] == m.cells[k])
            && (r.addr >= 0 ==> r.addr == m.addr + jump)
            && (r.addr < 0 <==> m.addr + jump < 0 || m.addr + jump >= |m.cells|)
    ensures var r, jump := Jump2(m), m.cells[m.addr];
            && |r.cells| == |m.cells| && r.steps == m.steps + 1
            && (jump >= 3 ==> r.cells[m.addr] == jump - 1)
            && (jump < 3 ==> r.cells[m.addr] == jump + 1)
            && (forall k :: 0 <= k < |m.cells| && k != m.addr ==> r.cells[k] == m.cells[k])
            && (r.addr >= 0 ==> r.addr == m.addr + jump)
            && (r.addr < 0 <==> m.addr + jump < 0 || m.addr + jump >= |m.cells|)
  {
  }

  /**
   * How far the offsets are from sending every jump past the end: each cell
   * below n contributes n minus its value.
   */
  function Room(cells: seq<int>, n: int): nat
  {
    if cells == [] then 0
    else Room(cells[..|cells| - 1], n) + (if cells[|cells| - 1] < n then n - cells[|cells| - 1] else 0)
  }

  /** Incrementing a cell below n takes one unit of room away. */
  lemma {:induction false} RoomIncrement(cells: seq<int>, n: int, a: nat)
    requires a < |cells| && cells[a] < n
    ensures Room(cells[a := cells[a] + 1], n) == Room(cells, n) - 1
    decreases |cells|
  {
    var last := |cells| - 1;
    var t := cells[a := cells[a] + 1];
    assert t[..last] == if a < last then cells[..last][a := cells[a] + 1] else cells[..last];
    if a < last {
      RoomIncrement(cells[..last], n, a);
    }
  }

  /**
   * A tick that stays inside the list uses up room; one that leaves sets the
   * address negative. Either way run's measure decreases.
   */
  lemma TickUsesRoom(m: Maze)
    requires Inside(m)
    ensures var r := Jump(m);
            r.addr >= 0 ==> Room(r.cells, |r.cells|) < Room(m.cells, |m.cells|)
  {
    var jump := m.cells[m.addr];
    if Jump(m).addr >= 0 {
      assert jump < |m.cells|;
      RoomIncrement(m.cells, |m.cells|, m.addr);
    }
  }

  /** A tick never adds room. */
  lemma TickKeepsRoomBound(m: Maze)
    requires Inside(m)
    ensures Room(Jump(m).cells, |m.cells|) <= Room(m.cells, |m.cells|)
  {
    var jump := m.cells[m.addr];
    if jump < |m.cells| {
      RoomIncrement(m.cells, |m.cells|, m.addr);
    } else {
      RoomAtOrAbove(m.cells, |m.cells|, m.addr, jump + 1);
    }
  }

  /** Setting a cell that is at or above n to another value at or above n leaves the room as it is. */
  lemma {:induction false} RoomAtOrAbove(cells: seq<int>, n: int, a: nat, x: int)
    requires a < |cells| && cells[a] >= n && x >= n
    ensures Room(cells[a := x], n) == Room(cells, n)
    decreases |cells|
  {
    var last := |cells| - 1;
    var t := cells[a := x];
    assert t[..last] == if a < last then cells[..last][a := x] else cells[..last];
    if a < last {
      RoomAtOrAbove(cells[..last], n, a, x);
    }
  }

  /** The flag part of run's measure: 1 while the loop goes on. */
  function Running(m: Maze): nat
  {
    if m.addr >= 0 then 1 else 0
  }

  /** run: tick while addr >= 0. It always stops: every tick that stays inside uses up room. */
  function Escape(m: Maze): (r: Maze)
    requires m.addr < |m.cells|
    ensures r.addr < 0 && |r.cells| == |m.cells| && r.steps >= m.steps
    decreases Room(m.cells, |m.cells|), Running(m)
  {
    if m.addr < 0 then m
    else
      TickKeepsRoomBound(m);
      TickUsesRoom(m);
      Escape(Jump(m))
  }

  /** One tick of run. */
  lemma RunStep(m: Maze)
    requires Inside(m)
    ensures Escape(m) == Escape(Jump(m))
  {
  }

  /** How far a jump of run2 still has to go forward to leave the list: 0 once outside. */
  function Distance(m: Maze): nat
    requires m.addr < |m.cells|
  {
    if m.addr < 0 then 0 else |m.cells| - m.addr
  }

  /**
   * Every tick2 that stays inside makes progress: a cell below 1 is
   * incremented, using up room below 1, and every other cell is at least 1 and
   * stays so while the jump goes forward by its value.
   */
  lemma Tick2Progress(m: Maze)
    requires Inside(m)
    ensures var r := Jump2(m);
      || Room(r.cells, 1) < Room(m.cells, 1)
      || (Room(r.cells, 1) == Room(m.cells, 1) && Distance(r) < Distance(m))
  {
    var jump := m.cells[m.addr];
    if jump < 1 {
      RoomIncrement(m.cells, 1, m.addr);
    } else {
      RoomAtOrAbove(m.cells, 1, m.addr, if jump >= 3 then jump - 1 else jump + 1);
    }
  }

  /** run2: tick2 while addr >= 0. It always stops, by Tick2Progress. */
  function Escape2(m: Maze): (r: Maze)
    requires m.addr < |m.cells|
    ensures r.addr < 0 && |r.cells| == |m.cells| && r.steps >= m.steps
    decreases Room(m.cells, 1), Distance(m)
  {
    if m.addr < 0 then m
    else
      Tick2Progress(m);
      Escape2(Jump2(m))
  }

  /**
   * tick2 nudges cells towards 3, so no cell ever rises above the larger of
   * 3 and the largest starting offset.
   */
  lemma {:induction false} Run2Bounded(m: Maze, bound: int)
    requires m.addr < |m.cells| && bound >= 3
    requires forall k :: 0 <= k < |m.cells| ==> m.cells[k] <= bound
    ensures forall k :: 0 <= k < |m.cells| ==> Escape2(m).cells[k] <= bound
    decreases Room(m.cells, 1), Distance(m)
  {
    if m.addr >= 0 {
      Tick2Progress(m);
      TickEffects(m);
      Run2Bounded(Jump2(m), bound);
    }
  }

  /** Each jump of run is one step: run ends after as many steps as it ticked. */
  lemma {:induction false} RunCountsTicks(m: Maze)
    requires m.addr < |m.cells|
    ensures Escape(m).steps == m.steps + Ticks(m)
    decreases Room(m.cells, |m.cells|), Running(m)
  {
    if m.addr >= 0 {
      TickKeepsRoomBound(m);
      TickUsesRoom(m);
      RunCountsTicks(Jump(m));
    }
  }

  /** The number of ticks run makes. */
  function Ticks(m: Maze): nat
    requires m.addr < |m.cells|
    decreases Room(m.cells, |m.cells|), Running(m)
  {
    if m.addr < 0 then 0
    else
      TickKeepsRoomBound(m);
      TickUsesRoom(m);
      1 + Ticks(Jump(m))
  }

  // ---------------------------------------------------------------------------
  // CpuTrampolineMaze

  class CpuTrampolineMaze {
    var instructions: array<int>
    var addr: int
    var steps: int

    function Snapshot(): Maze
      reads this, instructions
    {
      Maze(instructions[..], addr, steps)
    }

    /** NewCpuTrampolineMaze: the offsets read from the text, address 0, no steps; it panics on a non-integer field. */
    constructor (instructionList: string)
      requires ParseOffsets(instructionList).Some?
      ensures fresh(instructions)
      ensures Snapshot() == Maze(ParseOffsets(instructionList).value, 0, 0)
    {
      var fields := Fields(instructionList);
      var parsed: seq<int> := [];
      for i := 0 to |fields|
        invariant ParseFields(fields[..i]) == Some(parsed)
      {
        assert fields[..i + 1][..i] == fields[..i];
        var instruction := Atoi(fields[i]);
        parsed := parsed + [instruction.value];
      }
      assert fields[..|fields|] == fields;
      instructions := new int[|parsed|](k requires 0 <= k < |parsed| => parsed[k]);
      addr := 0;
      steps := 0;
    }

    method Tick()
      requires 0 <= addr < instructions.Length
      modifies this, instructions
      ensures instructions == old(instructions)
      ensures Snapshot() == Jump(old(Snapshot()))
    {
      var jump := instructions[addr];
      steps := steps + 1;
      instructions[addr] := instructions[addr] + 1;
      addr := addr + jump;
      if addr >= instructions.Length {
        addr := -1;
      }
    }

    method Run()
      requires addr < instructions.Length
      modifies this, instructions
      ensures instructions == old(instructions)
      ensures Snapshot() == Escape(old(Snapshot()))
    {
      while addr >= 0
        invariant instructions == old(instructions) && addr < instructions.Length
        invariant Escape(Snapshot()) == Escape(old(Snapshot()))
        decreases Room(instructions[..], instructions.Length), Running(Snapshot())
      {
        TickKeepsRoomBound(Snapshot());
        TickUsesRoom(Snapshot());
        Tick();
      }
    }

    method Tick2()
      requires 0 <= addr < instructions.Length
      modifies this, instructions
      ensures instructions == old(instructions)
      ensures Snapshot() == Jump2(old(Snapshot()))
    {
      var jump := instructions[addr];
      steps := steps + 1;
      if instructions[addr] >= 3 {
        instructions[addr] := instructions[addr] - 1;
      } else {
        instructions[addr] := instructions[addr] + 1;
      }
      addr := addr + jump;
      if addr >= instructions.Length {
        addr := -1;
      }
    }

    method Run2()
      requires addr < instructions.Length
      modifies this, instructions
      ensures instructions == old(instructions)
      ensures Snapshot() == Escape2(old(Snapshot()))
    {
      while addr >= 0
        invariant instructions == old(instructions) && addr < instructions.Length
        invariant Escape2(Snapshot()) == Escape2(old(Snapshot()))
        decreases Room(instructions[..], 1), Distance(Snapshot())
      {
        Tick2Progress(Snapshot());
        Tick2();
      }
    }
  }

  // ---------------------------------------------------------------------------
  // The example: 0 3 0 1 -3

  /** The example's offsets as strconv.Itoa writes them. */
  lemma ExampleRender()
    ensures Render([0, 3, 0, 1, -3]) == ["0", "3", "0", "1", "-3"]
  {
    assert Itoa(-3) == "-3";
  }

  /** The example's text, read by strings.Fields and strconv.Atoi. */
  lemma ExampleParse()
    ensures ParseOffsets("0 3 0 1 -3") == Some([0, 3, 0, 1, -3])
  {
    ExampleRender();
    assert Join(["0", "3", "0", "1", "-3"], ' ') == "0 3 0 1 -3";
    ParseOffsetsRoundTrip([0, 3, 0, 1, -3]);
  }

  /** The five ticks the test steps through, and run's end state after them. */
  lemma ExampleTicks()
    ensures Jump(Maze([0, 3, 0, 1, -3], 0, 0)) == Maze([1, 3, 0, 1, -3], 0, 1)
    ensures Jump(Maze([1, 3, 0, 1, -3], 0, 1)) == Maze([2, 3, 0, 1, -3], 1, 2)
    ensures Jump(Maze([2, 3, 0, 1, -3], 1, 2)) == Maze([2, 4, 0, 1, -3], 4, 3)
    ensures Jump(Maze([2, 4, 0, 1, -3], 4, 3)) == Maze([2, 4, 0, 1, -2], 1, 4)
    ensures Jump(Maze([2, 4, 0, 1, -2], 1, 4)) == Maze([2, 5, 0, 1, -2], -1, 5)
  {
  }

  lemma ExampleRun()
    ensures Escape(Maze([0, 3, 0, 1, -3], 0, 0)) == Maze([2, 5, 0, 1, -2], -1, 5)
  {
    ExampleTicks();
    RunStep(Maze([0, 3, 0, 1, -3], 0, 0));
    RunStep(Maze([1, 3, 0, 1, -3], 0, 1));
    RunStep(Maze([2, 3, 0, 1, -3], 1, 2));
    RunStep(Maze([2, 4, 0, 1, -3], 4, 3));
    RunStep(Maze([2, 4, 0, 1, -2], 1, 4));
  }

  /** One tick of run2. */
  lemma Run2Step(m: Maze)
    requires Inside(m)
    ensures Escape2(m) == Escape2(Jump2(m))
  {
  }

  /** The first five ticks of run2 on the example. */
  lemma ExampleTicks2()
    ensures Jump2(Maze([0, 3, 0, 1, -3], 0, 0)) == Maze([1, 3, 0, 1, -3], 0, 1)
    ensures Jump2(Maze([1, 3, 0, 1, -3], 0, 1)) == Maze([2, 3, 0, 1, -3], 1, 2)
    ensures Jump2(Maze([2, 3, 0, 1, -3], 1, 2)) == Maze([2, 2, 0, 1, -3], 4, 3)
    ensures Jump2(Maze([2, 2, 0, 1, -3], 4, 3)) == Maze([2, 2, 0, 1, -2], 1, 4)
    ensures Jump2(Maze([2, 2, 0, 1, -2], 1, 4)) == Maze([2, 3, 0, 1, -2], 3, 5)
  {
  }

  /** The last five ticks of run2 on the example. */
  lemma ExampleTicks2Later()
    ensures Jump2(Maze([2, 3, 0, 1, -2], 3, 5)) == Maze([2, 3, 0, 2, -2], 4, 6)
    ensures Jump2(Maze([2, 3, 0, 2, -2], 4, 6)) == Maze([2, 3, 0, 2, -1], 2, 7)
    ensures Jump2(Maze([2, 3, 0, 2, -1], 2, 7)) == Maze([2, 3, 1, 2, -1], 2, 8)
    ensures Jump2(Maze([2, 3, 1, 2, -1], 2, 8)) == Maze([2, 3, 2, 2, -1], 3, 9)
    ensures Jump2(Maze([2, 3, 2, 2, -1], 3, 9)) == Maze([2, 3, 2, 3, -1], -1, 10)
  {
  }

  /** run2 on the example gets out after 10 jumps, leaving 2 3 2 3 -1. */
  lemma ExampleRun2()
    ensures Escape2(Maze([0, 3, 0, 1, -3], 0, 0)) == Maze([2, 3, 2, 3, -1], -1, 10)
  {
    ExampleTicks2();
    ExampleTicks2Later();
    Run2Step(Maze([0, 3, 0, 1, -3], 0, 0));
    Run2Step(Maze([1, 3, 0, 1, -3], 0, 1));
    Run2Step(Maze([2, 3, 0, 1, -3], 1, 2));
    Run2Step(Maze([2, 2, 0, 1, -3], 4, 3));
    Run2Step(Maze([2, 2, 0, 1, -2], 1, 4));
    Run2Step(Maze([2, 3, 0, 1, -2], 3, 5));
    Run2Step(Maze([2, 3, 0, 2, -2], 4, 6));
    Run2Step(Maze([2, 3, 0, 2, -1], 2, 7));
    Run2Step(Maze([2, 3, 1, 2, -1], 2, 8));
    Run2Step(Maze([2, 3, 2, 2, -1], 3, 9));
  }
}
