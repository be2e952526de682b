// The day 12 example: seven records in two groups, one of six pids and one
// of the lone pid 1.
module PipesExamples {
  import opened Common
  import opened Text
  import opened Pipes

  const P0 := Process("0", ["2"])
  const P1 := Process("1", ["1"])
  const P2 := Process("2", ["0", "3", "4"])
  const P3 := Process("3", ["2", "4"])
  const P4 := Process("4", ["2", "3", "6"])
  const P5 := Process("5", ["6"])
  const P6 := Process("6", ["4", "5"])

  const ExampleRecords: seq<Process> := [P0, P1, P2, P3, P4, P5, P6]

  /** The example's lines; the text ends with a newline, so the last line is empty. */
  const ExampleLines: seq<string> :=
    ["0 <-> 2", "1 <-> 1", "2 <-> 0, 3, 4", "3 <-> 2, 4", "4 <-> 2, 3, 6", "5 <-> 6", "6 <-> 4, 5", ""]

  /** The example input, as parseRecords receives it. */
  const ExampleText: string := Join(ExampleLines, '\n')

  const ExampleTable: Table :=
    map["0" := P0, "1" := P1, "2" := P2, "3" := P3, "4" := P4, "5" := P5, "6" := P6]

  const BigGroup: set<string> := {"0", "2", "3", "4", "5", "6"}

  // Each record line is the rendering of its process, so it reads back as that
  // process (RecordOfRender); the rendering is worked out one line at a time.

  lemma Render0()
    ensures RenderRecord(Process("0", ["2"])) == "0 <-> 2"
  {
    assert Spaced(["2"]) == ["2"];
  }

  lemma Read0()
    ensures RecordOf("0 <-> 2") == Some(P0)
  {
    Render0();
    assert Clean("2");
    RecordOfRender(P0);
  }

  lemma Render1()
    ensures RenderRecord(Process("1", ["1"])) == "1 <-> 1"
  {
    assert Spaced(["1"]) == ["1"];
  }

  lemma Render2()
    ensures RenderRecord(Process("2", ["0", "3", "4"])) == "2 <-> 0, 3, 4"
  {
    var parts := Spaced(["0", "3", "4"]);
    assert parts[0] == "0" && parts[1] == " 3" && parts[2] == " 4";
    assert parts == ["0", " 3", " 4"];
    assert parts[1..][1..] == [" 4"];
    assert Join([" 3", " 4"], ',') == " 3, 4";
  }

  lemma Read2()
    ensures RecordOf("2 <-> 0, 3, 4") == Some(P2)
  {
    Render2();
    assert Clean("0") && Clean("3") && Clean("4");
    RecordOfRender(P2);
  }

  lemma Render3()
    ensures RenderRecord(Process("3", ["2", "4"])) == "3 <-> 2, 4"
  {
    var parts := Spaced(["2", "4"]);
    assert parts[0] == "2" && parts[1] == " 4";
    assert parts == ["2", " 4"];
    assert parts[1..] == [" 4"];
  }

  lemma Render4()
    ensures RenderRecord(Process("4", ["2", "3", "6"])) == "4 <-> 2, 3, 6"
  {
    var parts := Spaced(["2", "3", "6"]);
    assert parts[0] == "2" && parts[1] == " 3" && parts[2] == " 6";
    assert parts == ["2", " 3", " 6"];
    assert parts[1..][1..] == [" 6"];
    assert Join([" 3", " 6"], ',') == " 3, 6";
  }

  lemma Render5()
    ensures RenderRecord(Process("5", ["6"])) == "5 <-> 6"
  {
    assert Spaced(["6"]) == ["6"];
  }

  lemma Render6()
    ensures RenderRecord(Process("6", ["4", "5"])) == "6 <-> 4, 5"
  {
    var parts := Spaced(["4", "5"]);
    assert parts[0] == "4" && parts[1] == " 5";
    assert parts == ["4", " 5"];
    assert parts[1..] == [" 5"];
  }

  /** The two records the parseRecord test reads. */
  lemma ExampleParseRecord()
    ensures RecordOf("0 <-> 2") == Some(P0)
    ensures RecordOf("2 <-> 0, 3, 4") == Some(P2)
  {
    Read0();
    Read2();
  }

  /** One more line of StoreLines. */
  lemma StoreNext(procs: Table, lines: seq<string>, k: nat)
    requires Parsable(lines) && k < |lines|
    ensures Parsable(lines[..k]) && Parsable(lines[..k + 1])
    ensures StoreLines(procs, lines[..k + 1])
      == if lines[k] == "" then StoreLines(procs, lines[..k])
         else StoreLines(procs, lines[..k])[RecordOf(lines[k]).value.pid := RecordOf(lines[k]).value]
  {
    assert lines[..k + 1][..k] == lines[..k];
  }

  /** Each example line is its record written out. */
  lemma ExampleLinesRender()
    ensures forall k :: 0 <= k < 7 ==> Readable(ExampleRecords[k]) && ExampleLines[k] == RenderRecord(ExampleRecords[k])
  {
    Render0(); Render1(); Render2(); Render3(); Render4(); Render5(); Render6();
    assert Clean("0") && Clean("1") && Clean("2") && Clean("3") && Clean("4") && Clean("5") && Clean("6");
  }

  lemma ExampleStored()
    ensures Parsable(ExampleLines)
    ensures forall k :: 0 <= k < 7 ==> HasRecord(StoreLines(map[], ExampleLines), ExampleRecords[k])
    ensures forall pid :: pid in StoreLines(map[], ExampleLines) ==> OneOf(pid, ExampleRecords)
  {
    ExampleLinesRender();
    StoreRendered(ExampleRecords, ExampleLines);
  }

  predicate HasRecord(t: Table, p: Process)
  {
    p.pid in t && t[p.pid] == p
  }

  predicate OneOf(pid: string, ps: seq<Process>)
  {
    exists k :: 0 <= k < |ps| && ps[k].pid == pid
  }

  /** Two tables holding exactly the same records are the same table. */
  lemma SameTable(t: Table, u: Table, ps: seq<Process>)
    requires forall k :: 0 <= k < |ps| ==> HasRecord(t, ps[k]) && HasRecord(u, ps[k])
    requires forall pid :: pid in t ==> OneOf(pid, ps)
    requires forall pid :: pid in u ==> OneOf(pid, ps)
    ensures t == u
  {
    assert t.Keys == u.Keys;
  }

  lemma ExampleTableHolds()
    ensures forall k :: 0 <= k < 7 ==> HasRecord(ExampleTable, ExampleRecords[k])
    ensures forall pid :: pid in ExampleTable ==> OneOf(pid, ExampleRecords)
  {
    forall pid | pid in ExampleTable ensures OneOf(pid, ExampleRecords) {
      if pid == "0" { assert ExampleRecords[0].pid == pid; }
      else if pid == "1" { assert ExampleRecords[1].pid == pid; }
      else if pid == "2" { assert ExampleRecords[2].pid == pid; }
      else if pid == "3" { assert ExampleRecords[3].pid == pid; }
      else if pid == "4" { assert ExampleRecords[4].pid == pid; }
      else if pid == "5" { assert ExampleRecords[5].pid == pid; }
      else { assert ExampleRecords[6].pid == pid; }
    }
  }

  /** parseRecords on the example text gives the seven records. */
  lemma ExampleParseRecords()
    ensures Split(ExampleText, '\n') == ExampleLines
    ensures Parsable(ExampleLines)
    ensures StoreLines(map[], ExampleLines) == ExampleTable
  {
    SplitJoin(ExampleLines, '\n');
    ExampleStored();
    ExampleTableHolds();
    SameTable(StoreLines(map[], ExampleLines), ExampleTable, ExampleRecords);
  }

  // ---------------------------------------------------------------------------
  // The groups.

  lemma ExampleClosed()
    ensures Closed(ExampleTable)
  {
    ClosedByMembers(ExampleTable);
  }

  lemma ExampleListsBack()
    ensures ListsBack(ExampleTable)
  {
  }

  lemma ExampleShape()
    ensures WellFormed(ExampleTable) && Closed(ExampleTable) && Symmetric(ExampleTable)
    ensures ExampleTable.Keys == BigGroup + {"1"}
  {
    ExampleClosed();
    ExampleListsBack();
    ListsBackSymmetric(ExampleTable);
  }

  /** No connection leads out of the big group. */
  lemma BigGroupShut()
    ensures forall x, b :: x in BigGroup && Edge(ExampleTable, x, b) ==> b in BigGroup
  {
    ExampleClosed();
    EdgesWithin(ExampleTable, BigGroup);
  }

  /** Pid 0 reaches the rest of its group along 0-2, 2-3, 2-4, 4-6, 6-5. */
  lemma ZeroReaches()
    ensures forall b :: b in BigGroup ==> Reaches(ExampleTable, {}, "0", b)
  {
    var t := ExampleTable;
    Hop(t, "0", 0);
    Hop(t, "2", 1);
    Hop(t, "2", 2);
    Hop(t, "4", 2);
    Hop(t, "6", 1);
    ReachesSelf(t, {}, "0");
    ReachesTrans(t, {}, "0", "2", "3");
    ReachesTrans(t, {}, "0", "2", "4");
    ReachesTrans(t, {}, "0", "4", "6");
    ReachesTrans(t, {}, "0", "6", "5");
  }

  /** Everything pid 0 reaches: the six pids other than 1. */
  lemma ExampleGroupOfZero()
    ensures Group(ExampleTable, "0") == BigGroup
  {
    var t := ExampleTable;
    BigGroupShut();
    ReachInside(t, {}, BigGroup, "0");
    ZeroReaches();
    forall b | b in BigGroup ensures b in Group(t, "0") {
      InReachSet(t, {}, "0", b);
    }
  }

  lemma GroupOfBig(x: string)
    requires x in BigGroup
    ensures Group(ExampleTable, x) == BigGroup
  {
    ExampleShape();
    ExampleGroupOfZero();
    SameGroup(ExampleTable, "0", x);
  }

  /** Pid 1 only talks to itself. */
  lemma ExampleGroupOfOne()
    ensures Group(ExampleTable, "1") == {"1"}
  {
    var t := ExampleTable;
    ExampleShape();
    EdgesWithin(t, {"1"});
    ReachInside(t, {}, {"1"}, "1");
    ReachesSelf(t, {}, "1");
    InReachSet(t, {}, "1", "1");
  }

  lemma ExactlyTwo<T>(A: set<T>, a: T, b: T)
    requires a in A && b in A && forall x :: x in A ==> x == a || x == b
    ensures A == {a, b}
  {
  }

  /** The example has two groups. */
  lemma ExampleComponents()
    ensures Components(ExampleTable) == {BigGroup, {"1"}}
  {
    var t := ExampleTable;
    ExampleShape();
    ExampleGroupOfOne();
    GroupOfBig("0");
    assert Group(t, "0") in Components(t) && Group(t, "1") in Components(t);
    forall g | g in Components(t) ensures g == BigGroup || g == {"1"} {
      var x :| x in t && g == Group(t, x);
      if x in BigGroup {
        GroupOfBig(x);
      }
    }
    ExactlyTwo(Components(t), BigGroup, {"1"});
  }

  lemma TwoGroups()
    ensures |{BigGroup, {"1"}}| == 2
  {
    assert "0" in BigGroup && "0" !in {"1"};
  }

  lemma BigGroupSize()
    ensures |BigGroup| == 6
  {
  }

  /** The countPidGroup and countGroups tests: 6 in pid 0's group, and 2 groups. */
  method ExampleCounts() returns (group: nat, groups: nat)
    ensures group == 6 && groups == 2
  {
    var pm := new PipeMapper();
    ExampleParseRecords();
    pm.ParseRecords(ExampleText);
    ExampleShape();
    group := CountPidGroup(pm.processes, "0");
    groups := CountGroups(pm.processes);
    ExampleGroupOfZero();
    ExampleComponents();
    TwoGroups();
    BigGroupSize();
  }
}
