// The example tower of the day 7 tests: thirteen programs under tknk.
module TowerExamples {
  import opened Common
  import opened Text
  import opened Tower

  /** The example description, one line per program in the order written. */
  const ExampleLines: seq<Line> := [
    Line("pbga", 66, []),
    Line("xhth", 57, []),
    Line("ebii", 61, []),
    Line("havc", 66, []),
    Line("ktlj", 57, []),
    Line("fwft", 72, ["ktlj", "cntj", "xhth"]),
    Line("qoyq", 66, []),
    Line("padx", 45, ["pbga", "havc", "qoyq"]),
    Line("tknk", 41, ["ugml", "padx", "fwft"]),
    Line("jptl", 61, []),
    Line("ugml", 68, ["gyxo", "ebii", "jptl"]),
    Line("gyxo", 61, []),
    Line("cntj", 57, [])
  ]

  /** The programs the example description stores. */
  const ExamplePrograms: Programs := map[
    "pbga" := Program(66, []),
    "xhth" := Program(57, []),
    "ebii" := Program(61, []),
    "havc" := Program(66, []),
    "ktlj" := Program(57, []),
    "fwft" := Program(72, ["ktlj", "cntj", "xhth"]),
    "qoyq" := Program(66, []),
    "padx" := Program(45, ["pbga", "havc", "qoyq"]),
    "tknk" := Program(41, ["ugml", "padx", "fwft"]),
    "jptl" := Program(61, []),
    "ugml" := Program(68, ["gyxo", "ebii", "jptl"]),
    "gyxo" := Program(61, []),
    "cntj" := Program(57, [])
  ]

  function Leaf(name: string, weight: int): Tree
  {
    Node(name, weight, [])
  }

  /** The tower the example's pointers lead to from tknk. */
  const ExampleTree: Tree :=
    Node("tknk", 41, [
      Node("ugml", 68, [Leaf("gyxo", 61), Leaf("ebii", 61), Leaf("jptl", 61)]),
      Node("padx", 45, [Leaf("pbga", 66), Leaf("havc", 66), Leaf("qoyq", 66)]),
      Node("fwft", 72, [Leaf("ktlj", 57), Leaf("cntj", 57), Leaf("xhth", 57)])])

  /** Four lower-case letters make a name. */
  lemma Lower4(w: string)
    requires |w| == 4 && forall k :: 0 <= k < 4 ==> 'a' <= w[k] <= 'z'
    ensures IsName(w)
  {
  }

  lemma ExampleReadable()
    ensures forall i :: 0 <= i < |ExampleLines| ==> Readable(ExampleLines[i])
  {
    var ls := ExampleLines;
    forall i | 0 <= i < |ls| ensures IsName(ls[i].name) {
      Lower4(ls[i].name);
    }
    forall i, j | 0 <= i < |ls| && 0 <= j < |ls[i].children| ensures IsName(ls[i].children[j]) {
      Lower4(ls[i].children[j]);
    }
  }

  predicate HasProgram(progs: Programs, l: Line)
  {
    l.name in progs && progs[l.name] == Program(l.weight, l.children)
  }

  predicate OneOf(name: string, ls: seq<Line>)
  {
    exists k :: 0 <= k < |ls| && ls[k].name == name
  }

  /** Two tables holding the same programs and nothing else are equal. */
  lemma SamePrograms(t: Programs, u: Programs, ls: seq<Line>)
    requires forall k :: 0 <= k < |ls| ==> HasProgram(t, ls[k]) && HasProgram(u, ls[k])
    requires forall n :: n in t ==> OneOf(n, ls)
    requires forall n :: n in u ==> OneOf(n, ls)
    ensures t == u
  {
    assert t.Keys == u.Keys;
  }

  lemma ExampleProgramsHas()
    ensures forall k :: 0 <= k < |ExampleLines| ==> HasProgram(ExamplePrograms, ExampleLines[k])
  {
  }

  /** The example's program names, in the order of its lines. */
  const ExampleNames: seq<string> :=
    ["pbga", "xhth", "ebii", "havc", "ktlj", "fwft", "qoyq", "padx", "tknk", "jptl", "ugml", "gyxo", "cntj"]

  lemma ExampleKeys()
    ensures forall n :: n in ExamplePrograms ==> n in ExampleNames
  {
  }

  lemma ExampleNamesInOrder()
    ensures forall k :: 0 <= k < |ExampleNames| ==> ExampleLines[k].name == ExampleNames[k]
  {
  }

  lemma ExampleProgramsOnly()
    ensures forall n :: n in ExamplePrograms ==> OneOf(n, ExampleLines)
  {
    ExampleKeys();
    ExampleNamesInOrder();
    forall n | n in ExamplePrograms ensures OneOf(n, ExampleLines) {
      var k :| 0 <= k < |ExampleNames| && ExampleNames[k] == n;
      assert ExampleLines[k].name == n;
    }
  }

  lemma ExampleDistinct()
    ensures forall i, j :: 0 <= i < j < |ExampleLines| ==> ExampleLines[i].name != ExampleLines[j].name
  {
  }

  /** NewProgramTree's first loop stores the example's thirteen programs. */
  lemma ExampleStored()
    ensures StoreAll(map[], ExampleLines) == ExamplePrograms
  {
    ExampleDistinct();
    StoreAllDistinct(ExampleLines);
    StoreAllOnly(ExampleLines);
    ExampleProgramsHas();
    ExampleProgramsOnly();
    SamePrograms(StoreAll(map[], ExampleLines), ExamplePrograms, ExampleLines);
  }

  // ---------------------------------------------------------------------------
  // Linking and the root.

  lemma ExampleLinked()
    ensures Linked(ExamplePrograms)
  {
  }

  /** Where each program other than tknk is listed: its parent and its place among the children. */
  const ExampleParents: map<string, (string, int)> := map[
    "ugml" := ("tknk", 0), "padx" := ("tknk", 1), "fwft" := ("tknk", 2),
    "gyxo" := ("ugml", 0), "ebii" := ("ugml", 1), "jptl" := ("ugml", 2),
    "pbga" := ("padx", 0), "havc" := ("padx", 1), "qoyq" := ("padx", 2),
    "ktlj" := ("fwft", 0), "cntj" := ("fwft", 1), "xhth" := ("fwft", 2)
  ]

  lemma RootUnlisted()
    ensures "tknk" in ExamplePrograms && !HasParent(ExamplePrograms, "tknk")
  {
  }

  lemma OthersListed()
    ensures forall n :: n in ExamplePrograms && n != "tknk" ==> HasParent(ExamplePrograms, n)
  {
    ExampleKeys();
    forall n | n in ExamplePrograms && n != "tknk" ensures HasParent(ExamplePrograms, n) {
      assert n in ExampleParents;
      var (p, i) := ExampleParents[n];
      assert ExamplePrograms[p].children[i] == n;
    }
  }

  /** tknk is the one program no line lists as a child, so it is the root whichever order the map is visited in. */
  lemma ExampleRoot()
    ensures "tknk" in ExamplePrograms && !HasParent(ExamplePrograms, "tknk")
    ensures forall n :: n in ExamplePrograms && n != "tknk" ==> HasParent(ExamplePrograms, n)
  {
    RootUnlisted();
    OthersListed();
  }

  /** NewProgramTree on the example description: its programs, and tknk as the root. */
  method ExampleNewProgramTree() returns (progs: Programs, root: Option<string>)
    ensures progs == ExamplePrograms && root == Some("tknk")
  {
    ExampleReadable();
    DescribeParsed(ExampleLines);
    ExampleStored();
    ExampleLinked();
    progs, root := NewProgramTree(Describe(ExampleLines));
    ExampleRoot();
  }

  // ---------------------------------------------------------------------------
  // The tower, its weights and the weight check.

  /** The pointers from tknk lead to the example tower. */
  lemma ExampleUnfolds()
    ensures Unfolds(ExamplePrograms, "tknk", ExampleTree)
  {
    var t := ExampleTree;
    forall i | 0 <= i < 3 ensures Unfolds(ExamplePrograms, ExamplePrograms["tknk"].children[i], t.children[i]) {
      var c := t.children[i];
      forall j | 0 <= j < 3 ensures Unfolds(ExamplePrograms, ExamplePrograms[c.name].children[j], c.children[j]) {
      }
    }
  }

  /** A program over three leaves weighs its own weight plus theirs. */
  lemma OverThreeLeaves(t: Tree)
    requires |t.children| == 3 && forall i :: 0 <= i < 3 ==> t.children[i].children == []
    ensures Weights(t.children) == [t.children[0].weight, t.children[1].weight, t.children[2].weight]
    ensures RecursiveWeight(t) == t.weight + t.children[0].weight + t.children[1].weight + t.children[2].weight
  {
    forall i | 0 <= i < 3 ensures RecursiveWeight(t.children[i]) == t.children[i].weight {
      assert Weights(t.children[i].children) == [];
    }
    SumThree(Weights(t.children));
  }

  lemma SumThree(ws: seq<int>)
    requires |ws| == 3
    ensures Sum(ws) == ws[0] + ws[1] + ws[2]
  {
    assert ws[..2][..1] == ws[..1];
    assert ws[..1][..0] == [];
    assert Sum(ws[..1]) == ws[0];
    assert Sum(ws[..2]) == ws[0] + ws[1];
  }

  lemma CountThree(ws: seq<int>, w: int)
    requires |ws| == 3
    ensures Count(ws, w) == (if ws[0] == w then 1 else 0) + (if ws[1] == w then 1 else 0) + (if ws[2] == w then 1 else 0)
  {
    assert ws[..2][..1] == ws[..1];
    assert ws[..1][..0] == [];
    assert Count(ws[..1], w) == (if ws[0] == w then 1 else 0);
  }

  /**
   * The shape and weights of the example tower: tknk (41) over ugml (68),
   * padx (45) and fwft (72), which hold up leaves of 61, 66 and 57.
   */
  predicate ExampleShape(t: Tree)
  {
    t.weight == 41 && |t.children| == 3
    && (forall i :: 0 <= i < 3 ==> |t.children[i].children| == 3)
    && (forall i, j :: 0 <= i < 3 && 0 <= j < 3 ==> t.children[i].children[j].children == [])
    && t.children[0].name == "ugml" && t.children[0].weight == 68
    && t.children[1].weight == 45 && t.children[2].weight == 72
    && (forall j :: 0 <= j < 3 ==> t.children[0].children[j].weight == 61)
    && (forall j :: 0 <= j < 3 ==> t.children[1].children[j].weight == 66)
    && (forall j :: 0 <= j < 3 ==> t.children[2].children[j].weight == 57)
  }

  lemma ExampleTreeShape()
    ensures ExampleShape(ExampleTree)
  {
  }

  /** The recursive weights of tknk's children: ugml 251, padx 243 and fwft 243. */
  lemma ShapeWeights(t: Tree)
    requires ExampleShape(t)
    ensures Weights(t.children) == [251, 243, 243]
  {
    OverThreeLeaves(t.children[0]);
    OverThreeLeaves(t.children[1]);
    OverThreeLeaves(t.children[2]);
  }

  /** Each of tknk's children holds up leaves of one weight, so none of them reports. */
  lemma ShapeChildrenBalanced(t: Tree)
    requires ExampleShape(t)
    ensures forall i :: 0 <= i < |t.children| ==> !Found(t.children[i])
  {
    forall i | 0 <= i < 3 ensures !Found(t.children[i]) {
      var c := t.children[i];
      OverThreeLeaves(c);
      assert AllSame(Weights(c.children));
    }
  }

  /** weightCheck on the example reports ugml, which should weigh 60. */
  lemma ShapeCheck(t: Tree, problem: Option<Tree>, right: int)
    requires ExampleShape(t) && Outcome(t, problem, right)
    ensures problem == Some(t.children[0]) && right == 60
  {
    ShapeWeights(t);
    ShapeChildrenBalanced(t);
    var ws := Weights(t.children);
    CountThree(ws, 251);
    CountThree(ws, 243);
    Corrected(t, problem, right, 251, 243);
  }

  /** The recursive weights of tknk's children in the example. */
  lemma ExampleWeights()
    ensures Weights(ExampleTree.children) == [251, 243, 243]
  {
    ExampleTreeShape();
    ShapeWeights(ExampleTree);
  }

  /** weightCheck on the example tower returns ugml and 60. */
  method ExampleWeightCheck() returns (problem: Option<Tree>, right: int)
    ensures problem.Some? && problem.value.name == "ugml" && right == 60
  {
    problem, right := WeightCheck(ExampleTree);
    ExampleTreeShape();
    ShapeCheck(ExampleTree, problem, right);
  }
}
