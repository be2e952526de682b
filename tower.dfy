// The program tower of day 7: every program has a weight and holds up the
// programs named after its arrow. A program is out of balance when the towers
// it holds up do not all weigh the same.
module Tower {
  import opened Common
  import opened Text

  /** A ProgramNode together with the nodes its children slice points to. */
  datatype Tree = Node(name: string, weight: int, children: seq<Tree>)

  // ---------------------------------------------------------------------------
  // recursiveWeight

  /** The recursive weights of a list of towers, in order. */
  function Weights(ts: seq<Tree>): (ws: seq<int>)
    ensures |ws| == |ts|
    decreases ts
  {
    seq(|ts|, i requires 0 <= i < |ts| => RecursiveWeight(ts[i]))
  }

  /** A program's weight plus the recursive weights of the towers it holds up. */
  function RecursiveWeight(t: Tree): int
    decreases t
  {
    t.weight + Sum(Weights(t.children))
  }

  /** The weight of every program in the tower, the root first and then each child's tower. */
  function AllWeights(t: Tree): seq<int>
    decreases t
  {
    [t.weight] + ListWeights(t.children)
  }

  function ListWeights(ts: seq<Tree>): seq<int>
    decreases ts
  {
    if ts == [] then [] else ListWeights(ts[..|ts| - 1]) + AllWeights(ts[|ts| - 1])
  }

  /** The recursive weight is the total weight of all programs in the tower. */
  lemma {:induction false} RecursiveWeightIsTotal(t: Tree)
    ensures RecursiveWeight(t) == Sum(AllWeights(t))
    decreases t
  {
    ListWeightsTotal(t.children);
    SumAppend([t.weight], ListWeights(t.children));
    assert Sum([t.weight]) == t.weight by {
      assert [t.weight][..0] == [];
    }
  }

  lemma {:induction false} ListWeightsTotal(ts: seq<Tree>)
    ensures Sum(Weights(ts)) == Sum(ListWeights(ts))
    decreases ts
  {
    if ts != [] {
      var n := |ts| - 1;
      ListWeightsTotal(ts[..n]);
      RecursiveWeightIsTotal(ts[n]);
      assert Weights(ts)[..n] == Weights(ts[..n]);
      SumAppend(ListWeights(ts[..n]), AllWeights(ts[n]));
    }
  }

  /** recursiveWeight: the program's own weight, then each child's recursive weight added in a loop. */
  method RecursiveWeightOf(t: Tree) returns (weight: int)
    ensures weight == RecursiveWeight(t)
    decreases t
  {
    weight := t.weight;
    ghost var ws := Weights(t.children);
    for i := 0 to |t.children|
      invariant weight == t.weight + Sum(ws[..i])
    {
      var w := RecursiveWeightOf(t.children[i]);
      assert ws[..i + 1][..i] == ws[..i];
      weight := weight + w;
    }
    assert ws[..|t.children|] == ws;
  }

  // ---------------------------------------------------------------------------
  // weightCheck

  /** How many of ws are w. */
  function Count(ws: seq<int>, w: int): nat
  {
    if ws == [] then 0 else Count(ws[..|ws| - 1], w) + (if ws[|ws| - 1] == w then 1 else 0)
  }

  /** childWeightMap once the bucketing loop has gone over ws: weight to count. */
  function Buckets(ws: seq<int>): map<int, nat>
  {
    if ws == [] then map[]
    else
      var m := Buckets(ws[..|ws| - 1]);
      var w := ws[|ws| - 1];
      if w in m then m[w := m[w] + 1] else m[w := 1]
  }

  /** The map has a key for each weight present, counting its occurrences. */
  lemma {:induction false} BucketsCount(ws: seq<int>)
    ensures forall w :: w in Buckets(ws) <==> w in ws
    ensures forall w :: w in Buckets(ws) ==> Buckets(ws)[w] == Count(ws, w)
  {
    if ws != [] {
      var n := |ws| - 1;
      BucketsCount(ws[..n]);
      assert ws == ws[..n] + [ws[n]];
      forall w ensures w in ws <==> w in ws[..n] || w == ws[n] {
        if w in ws {
          var k :| 0 <= k < |ws| && ws[k] == w;
          if k < n {
            assert ws[..n][k] == w;
          }
        }
      }
      forall w | w !in ws[..n] ensures Count(ws[..n], w) == 0 {
        CountAbsent(ws[..n], w);
      }
    }
  }

  lemma {:induction false} CountAbsent(ws: seq<int>, w: int)
    requires w !in ws
    ensures Count(ws, w) == 0
  {
    if ws != [] {
      assert forall x :: x in ws[..|ws| - 1] ==> x in ws;
      CountAbsent(ws[..|ws| - 1], w);
    }
  }

  /** Every child's tower weighs the same. */
  predicate AllSame(ws: seq<int>)
  {
    forall i :: 0 <= i < |ws| ==> ws[i] == ws[0]
  }

  /** len(childWeightMap) == 1 exactly when every weight is the same. */
  lemma OneBucket(ws: seq<int>)
    requires ws != []
    ensures |Buckets(ws)| == 1 <==> AllSame(ws)
  {
    BucketsCount(ws);
    var keys := Buckets(ws).Keys;
    assert ws[0] in ws;
    assert ws[0] in Buckets(ws);
    if AllSame(ws) {
      forall k | k in keys ensures k == ws[0] {
        assert k in ws;
      }
      assert keys == {ws[0]};
    } else {
      var i :| 0 <= i < |ws| && ws[i] != ws[0];
      assert ws[i] in ws;
      assert ws[i] in Buckets(ws);
      TwoMembers(keys, ws[0], ws[i]);
    }
  }

  lemma TwoMembers<T>(s: set<T>, x: T, y: T)
    requires x in s && y in s && x != y
    ensures |s| >= 2
  {
    assert {x, y} <= s;
    assert |{x, y}| == 2;
    SubsetCard({x, y}, s);
  }

  /**
   * A weight the loop over childWeightMap can leave in problemWeight (single)
   * or okWeight (not single): a visited key whose count is, or is not, 1,
   * since any of them may be visited last; Go's zero value when none was visited.
   */
  ghost predicate Pick(counts: map<int, nat>, seen: set<int>, v: int, single: bool)
  {
    if exists w :: w in seen && w in counts && (counts[w] == 1) == single
    then v in seen && v in counts && (counts[v] == 1) == single
    else v == 0
  }

  /** The first index at or after from whose weight is w. */
  function FirstWith(ws: seq<int>, w: int, from: nat): (r: Option<nat>)
    ensures r.Some? ==> from <= r.value < |ws| && ws[r.value] == w
    ensures r.Some? ==> forall j :: from <= j < r.value ==> ws[j] != w
    ensures r.None? ==> forall j :: from <= j < |ws| ==> ws[j] != w
    decreases |ws| - from
  {
    if from >= |ws| then None
    else if ws[from] == w then Some(from)
    else FirstWith(ws, w, from + 1)
  }

  /** What the search for the outlier returns, given problemWeight p and okWeight o. */
  function Report(t: Tree, p: int, o: int): (Option<Tree>, int)
  {
    match FirstWith(Weights(t.children), p, 0)
    case Some(i) => (Some(t.children[i]), t.children[i].weight + o - p)
    case None => (None, -3)
  }

  /** The results weightCheck's own comparison at t can give, once no child has reported. */
  ghost predicate LocalOutcome(t: Tree, problem: Option<Tree>, right: int)
  {
    var ws := Weights(t.children);
    var counts := Buckets(ws);
    if AllSame(ws) then problem == None && right == -2
    else exists p, o :: Pick(counts, counts.Keys, p, true) && Pick(counts, counts.Keys, o, false)
                        && Report(t, p, o) == (problem, right)
  }

  /** Some weight is held by exactly one child. */
  predicate HasSingle(ws: seq<int>)
  {
    exists i :: 0 <= i < |ws| && Count(ws, ws[i]) == 1
  }

  /** The comparison at a node reports a child: problemWeight is then a weight some child has. */
  predicate LocalFound(ws: seq<int>)
  {
    !AllSame(ws) && (HasSingle(ws) || 0 in ws)
  }

  /** weightCheck on t reports a program, whichever order the maps are visited in. */
  ghost predicate Found(t: Tree)
    decreases t
  {
    t.children != []
    && ((exists i :: 0 <= i < |t.children| && Found(t.children[i])) || LocalFound(Weights(t.children)))
  }

  /** The first child at or after from that reports a program. */
  ghost function FirstFound(ts: seq<Tree>, from: nat): (r: Option<nat>)
    ensures r.Some? ==> from <= r.value < |ts| && Found(ts[r.value])
    ensures r.Some? ==> forall j :: from <= j < r.value ==> !Found(ts[j])
    ensures r.None? ==> forall j :: from <= j < |ts| ==> !Found(ts[j])
    decreases |ts| - from
  {
    if from >= |ts| then None
    else if Found(ts[from]) then Some(from)
    else FirstFound(ts, from + 1)
  }

  /**
   * The results weightCheck can return: (nil, -1) at a leaf; the first
   * child's report when a child reports; otherwise the comparison at t.
   */
  ghost predicate Outcome(t: Tree, problem: Option<Tree>, right: int)
    decreases t
  {
    if t.children == [] then problem == None && right == -1
    else
      match FirstFound(t.children, 0)
      case Some(i) => Outcome(t.children[i], problem, right)
      case None => LocalOutcome(t, problem, right)
  }

  lemma {:induction false} FirstFoundIs(ts: seq<Tree>, from: nat, i: nat)
    requires from <= i < |ts| && Found(ts[i])
    requires forall j :: from <= j < i ==> !Found(ts[j])
    ensures FirstFound(ts, from) == Some(i)
    decreases i - from
  {
    if from < i {
      FirstFoundIs(ts, from + 1, i);
    }
  }

  lemma {:induction false} FirstWithIs(ws: seq<int>, w: int, from: nat, i: nat)
    requires from <= i < |ws| && ws[i] == w
    requires forall j :: from <= j < i ==> ws[j] != w
    ensures FirstWith(ws, w, from) == Some(i)
    decreases i - from
  {
    if from < i {
      FirstWithIs(ws, w, from + 1, i);
    }
  }

  /** Visiting one more key of childWeightMap. */
  lemma PickStep(counts: map<int, nat>, seen: set<int>, w: int, v: int, single: bool)
    requires w in counts && seen <= counts.Keys && Pick(counts, seen, v, single)
    ensures (counts[w] == 1) == single ==> Pick(counts, seen + {w}, w, single)
    ensures (counts[w] == 1) != single ==> Pick(counts, seen + {w}, v, single)
  {
  }

  lemma CountPositive(ws: seq<int>, w: int)
    requires Count(ws, w) > 0
    ensures w in ws
  {
    if w !in ws {
      CountAbsent(ws, w);
    }
  }

  /** Once the picks are made, the search finds a child exactly when the comparison reports one. */
  lemma LocalFoundIff(t: Tree, p: int)
    requires !AllSame(Weights(t.children))
    requires Pick(Buckets(Weights(t.children)), Buckets(Weights(t.children)).Keys, p, true)
    ensures FirstWith(Weights(t.children), p, 0).Some? <==> LocalFound(Weights(t.children))
  {
    var ws := Weights(t.children);
    var counts := Buckets(ws);
    BucketsCount(ws);
    if HasSingle(ws) {
      var i :| 0 <= i < |ws| && Count(ws, ws[i]) == 1;
      assert ws[i] in ws;
      assert ws[i] in counts;
    }
    if p in ws {
      var k :| 0 <= k < |ws| && ws[k] == p;
    }
  }

  /** weightCheck returns a program exactly when some comparison in the tower reports one. */
  lemma {:induction false} OutcomeFound(t: Tree, problem: Option<Tree>, right: int)
    requires Outcome(t, problem, right)
    ensures problem.Some? <==> Found(t)
    decreases t
  {
    if t.children != [] {
      match FirstFound(t.children, 0)
      case Some(i) =>
        OutcomeFound(t.children[i], problem, right);
      case None =>
        var ws := Weights(t.children);
        var counts := Buckets(ws);
        if !AllSame(ws) {
          var p, o :| Pick(counts, counts.Keys, p, true) && Pick(counts, counts.Keys, o, false)
                      && Report(t, p, o) == (problem, right);
          LocalFoundIff(t, p);
        }
    }
  }

  /**
   * weightCheck: a leaf reports nothing (-1); otherwise the children are
   * checked first, in order, and the first report is passed up; otherwise the
   * children's recursive weights are counted into childWeightMap; one key means
   * balanced (-2); otherwise the loop over the map leaves problemWeight and
   * okWeight, and the first child weighing problemWeight is reported with the
   * weight that would balance it (-3 when no child weighs problemWeight).
   */
  method WeightCheck(t: Tree) returns (problem: Option<Tree>, right: int)
    ensures Outcome(t, problem, right)
    decreases t
  {
    if |t.children| == 0 {
      return None, -1;
    }
    for i := 0 to |t.children|
      invariant forall j :: 0 <= j < i ==> !Found(t.children[j])
    {
      var p, r := WeightCheck(t.children[i]);
      OutcomeFound(t.children[i], p, r);
      if p.Some? {
        FirstFoundIs(t.children, 0, i);
        return p, r;
      }
    }
    assert FirstFound(t.children, 0) == None;
    var counts := ChildWeightMap(t.children);
    OneBucket(Weights(t.children));
    if |counts| == 1 {
      return None, -2;
    }
    var problemWeight, okWeight := PickWeights(counts);
    problem, right := FindOutlier(t, problemWeight, okWeight);
  }

  /** The bucketing loop: each child's recursive weight counted into a map. */
  method ChildWeightMap(ts: seq<Tree>) returns (counts: map<int, nat>)
    ensures counts == Buckets(Weights(ts))
  {
    ghost var ws := Weights(ts);
    counts := map[];
    for i := 0 to |ts|
      invariant counts == Buckets(ws[..i])
    {
      var w := RecursiveWeightOf(ts[i]);
      assert ws[..i + 1][..i] == ws[..i];
      if w in counts {
        counts := counts[w := counts[w] + 1];
      } else {
        counts := counts[w := 1];
      }
    }
    assert ws[..|ts|] == ws;
  }

  /** The loop over childWeightMap: the last key seen with count 1, and the last with another count. */
  method PickWeights(counts: map<int, nat>) returns (problemWeight: int, okWeight: int)
    ensures Pick(counts, counts.Keys, problemWeight, true)
    ensures Pick(counts, counts.Keys, okWeight, false)
  {
    problemWeight, okWeight := 0, 0;
    var keys := counts.Keys;
    while keys != {}
      invariant keys <= counts.Keys
      invariant Pick(counts, counts.Keys - keys, problemWeight, true)
      invariant Pick(counts, counts.Keys - keys, okWeight, false)
      decreases |keys|
    {
      ghost var some := SomeMember(keys);
      var w :| w in keys;
      PickStep(counts, counts.Keys - keys, w, problemWeight, true);
      PickStep(counts, counts.Keys - keys, w, okWeight, false);
      assert counts.Keys - (keys - {w}) == (counts.Keys - keys) + {w};
      if counts[w] == 1 {
        problemWeight := w;
      } else {
        okWeight := w;
      }
      keys := keys - {w};
    }
    assert counts.Keys - keys == counts.Keys;
  }

  /** The search for the first child weighing problemWeight. */
  method FindOutlier(t: Tree, problemWeight: int, okWeight: int) returns (problem: Option<Tree>, right: int)
    ensures (problem, right) == Report(t, problemWeight, okWeight)
  {
    ghost var ws := Weights(t.children);
    for i := 0 to |t.children|
      invariant forall j :: 0 <= j < i ==> ws[j] != problemWeight
    {
      var w := RecursiveWeightOf(t.children[i]);
      if w == problemWeight {
        FirstWithIs(ws, problemWeight, 0, i);
        return Some(t.children[i]), t.children[i].weight + okWeight - problemWeight;
      }
    }
    return None, -3;
  }

  /** s is t or a tower held up somewhere inside t. */
  ghost predicate Within(s: Tree, t: Tree)
    decreases t
  {
    s == t || exists i :: 0 <= i < |t.children| && Within(s, t.children[i])
  }

  /**
   * Children are checked before their parent, so the reported program is a
   * child of the deepest unbalanced program: one within the tower whose own
   * children all check out but whose children's towers differ in weight.
   */
  lemma {:induction false} ReportedNode(t: Tree, n: Tree, right: int) returns (s: Tree)
    requires Outcome(t, Some(n), right)
    ensures Within(s, t) && n in s.children
    ensures forall c :: c in s.children ==> !Found(c)
    ensures !AllSame(Weights(s.children)) && LocalOutcome(s, Some(n), right)
    decreases t
  {
    match FirstFound(t.children, 0)
    case Some(i) =>
      s := ReportedNode(t.children[i], n, right);
    case None =>
      s := t;
      var ws := Weights(t.children);
      var counts := Buckets(ws);
      var p, o :| Pick(counts, counts.Keys, p, true) && Pick(counts, counts.Keys, o, false)
                  && Report(t, p, o) == (Some(n), right);
  }

  /** Exactly one of the weights is p and every other one is o. */
  predicate OneOutlier(ws: seq<int>, p: int, o: int)
  {
    p != o && Count(ws, p) == 1 && Count(ws, o) >= 2 && forall i :: 0 <= i < |ws| ==> ws[i] == p || ws[i] == o
  }

  /**
   * When the children check out and one child's tower weighs p while the
   * others weigh o, weightCheck reports that child, and the weight it returns
   * brings that child's tower to o.
   */
  lemma Corrected(t: Tree, problem: Option<Tree>, right: int, p: int, o: int)
    requires Outcome(t, problem, right)
    requires forall i :: 0 <= i < |t.children| ==> !Found(t.children[i])
    requires OneOutlier(Weights(t.children), p, o)
    ensures problem.Some? && problem.value in t.children && RecursiveWeight(problem.value) == p
    ensures RecursiveWeight(problem.value) - problem.value.weight + right == o
  {
    var ws := Weights(t.children);
    var counts := Buckets(ws);
    CountPositive(ws, p);
    CountPositive(ws, o);
    BucketsCount(ws);
    var ip :| 0 <= ip < |ws| && ws[ip] == p;
    var io :| 0 <= io < |ws| && ws[io] == o;
    assert !AllSame(ws) by {
      assert ws[ip] != ws[io];
    }
    assert FirstFound(t.children, 0) == None;
    var p', o' :| Pick(counts, counts.Keys, p', true) && Pick(counts, counts.Keys, o', false)
                  && Report(t, p', o') == (problem, right);
    assert p in counts && counts[p] == 1;
    assert o in counts && counts[o] != 1;
    assert p' == p by {
      assert p' in counts.Keys;
      assert p' in ws;
    }
    assert o' == o by {
      assert o' in counts.Keys;
      assert o' in ws;
    }
    assert FirstWith(ws, p, 0).Some?;
  }

  // ---------------------------------------------------------------------------
  // NewProgramTree. Each non-empty line is read with the regexp
  // `^(\w+) \((\d+)\)(?: -> (.*))?`; the names after the arrow are split on ", ".

  /** The captures of one description line: name, weight and the names after the arrow. */
  datatype Line = Line(name: string, weight: int, children: seq<string>)

  /**
   * The regexp on one line. `\w+` and `\d+` take maximal runs (the character
   * that must follow each, ' ' and ')', is outside its class, so there is
   * nothing to backtrack into); the optional group takes the rest of the line
   * when it starts with " -> ", and is empty otherwise. None when the line does
   * not match, where the source indexes a nil slice of matches.
   */
  function ParseLine(line: string): (r: Option<Line>)
    ensures r.Some? ==> IsName(r.value.name) && r.value.weight >= 0
  {
    var n := RunLength(line, Word);
    if n == 0 || !HasPrefix(line[n..], " (") then None
    else
      var rest := line[n + 2..];
      var d := RunLength(rest, Digits);
      if d == 0 || !HasPrefix(rest[d..], ")") then None
      else
        Some(Line(line[..n], AtoiOrZero(rest[..d]), ChildNames(rest[d + 1..])))
  }

  /** The third capture split on ", ": the rest of the line after " -> ", when it is there and not empty. */
  function ChildNames(tail: string): seq<string>
  {
    var kids := if HasPrefix(tail, " -> ") then tail[4..] else "";
    if |kids| > 0 then SplitOn(kids, ", ") else []
  }

  /** A line the description format can hold: names of word characters and a weight written in digits. */
  predicate Readable(l: Line)
  {
    IsName(l.name) && l.weight >= 0 && forall i :: 0 <= i < |l.children| ==> IsName(l.children[i])
  }

  /** The description line for l: `name (weight)`, then ` -> ` and the children when there are any. */
  function RenderLine(l: Line): string
  {
    l.name + " (" + Itoa(l.weight) + ")" + (if l.children == [] then "" else " -> " + JoinOn(l.children, ", "))
  }

  lemma NameAndRest(name: string, rest: string)
    requires IsName(name) && HasPrefix(rest, " (")
    ensures RunLength(name + rest, Word) == |name|
    ensures (name + rest)[..|name|] == name && (name + rest)[|name|..] == rest
  {
    RunLengthOf(name, rest, Word);
  }

  lemma WeightAndRest(w: nat, tail: string)
    ensures RunLength(Itoa(w) + ")" + tail, Digits) == |Itoa(w)|
    ensures AtoiOrZero((Itoa(w) + ")" + tail)[..|Itoa(w)|]) == w
    ensures (Itoa(w) + ")" + tail)[|Itoa(w)|..] == ")" + tail
  {
    var s := Itoa(w) + ")" + tail;
    assert s == Itoa(w) + (")" + tail);
    RunLengthOf(Itoa(w), ")" + tail, Digits);
    assert s[..|Itoa(w)|] == Itoa(w);
    AtoiItoa(w);
  }

  lemma ArrowOf(children: seq<string>)
    requires children != [] && forall i :: 0 <= i < |children| ==> IsName(children[i])
    ensures ChildNames(" -> " + JoinOn(children, ", ")) == children
  {
    var kids := JoinOn(children, ", ");
    JoinOnStarts(children, ", ");
    ArrowTail(kids);
    SplitOnJoin(children, ", ");
  }

  lemma ArrowTail(kids: string)
    requires |kids| > 0
    ensures ChildNames(" -> " + kids) == SplitOn(kids, ", ")
  {
    var tail := " -> " + kids;
    assert tail[..4] == " -> ";
    assert tail[4..] == kids;
  }

  /** A line made of a name, " (", a weight in digits and ")" reads back that name and weight. */
  lemma ParseParts(name: string, w: nat, tail: string)
    requires IsName(name)
    ensures ParseLine(name + " (" + Itoa(w) + ")" + tail) == Some(Line(name, w, ChildNames(tail)))
  {
    var rest := Itoa(w) + ")" + tail;
    var s := name + " (" + Itoa(w) + ")" + tail;
    assert s == name + (" (" + rest);
    NameAndRest(name, " (" + rest);
    var n := RunLength(s, Word);
    assert HasPrefix(s[n..], " (");
    assert s[n + 2..] == rest;
    WeightAndRest(w, tail);
    var d := RunLength(rest, Digits);
    assert HasPrefix(rest[d..], ")");
    assert rest[d + 1..] == tail;
    assert AtoiOrZero(rest[..d]) == w;
  }

  /** The regexp reads back every line written in the description format. */
  lemma ParseRender(l: Line)
    requires Readable(l)
    ensures ParseLine(RenderLine(l)) == Some(l)
  {
    var arrow := if l.children == [] then "" else " -> " + JoinOn(l.children, ", ");
    ParseParts(l.name, l.weight, arrow);
    if l.children != [] {
      ArrowOf(l.children);
    } else {
      assert !HasPrefix(arrow, " -> ");
    }
  }

  /** A program as the two maps hold it once linked: the weight from programMap, the children from childMap. */
  datatype Program = Program(weight: int, children: seq<string>)

  type Programs = map<string, Program>

  /**
   * One line stored: programMap[name] replaced by a node with the new weight,
   * the line's children appended to childMap[name].
   */
  function Store(progs: Programs, l: Line): (r: Programs)
  {
    var earlier := if l.name in progs then progs[l.name].children else [];
    progs[l.name := Program(l.weight, earlier + l.children)]
  }

  /** Every non-empty line matches the regexp. */
  predicate Parsable(lines: seq<string>)
  {
    forall i :: 0 <= i < |lines| ==> |lines[i]| > 0 ==> ParseLine(lines[i]).Some?
  }

  lemma ParsablePrefix(lines: seq<string>, k: nat)
    requires Parsable(lines) && k <= |lines|
    ensures Parsable(lines[..k])
  {
    forall i | 0 <= i < k ensures |lines[..k][i]| > 0 ==> ParseLine(lines[..k][i]).Some? {
      assert lines[..k][i] == lines[i];
    }
  }

  /** The non-empty lines, parsed, in order: what the first loop stores. */
  function Parsed(lines: seq<string>): (ls: seq<Line>)
    requires Parsable(lines)
    ensures |ls| <= |lines|
  {
    if lines == [] then []
    else
      var n := |lines| - 1;
      ParsablePrefix(lines, n);
      var before := Parsed(lines[..n]);
      if |lines[n]| == 0 then before else before + [ParseLine(lines[n]).value]
  }

  /** The programs after the first loop has stored the lines ls in order. */
  function StoreAll(progs: Programs, ls: seq<Line>): Programs
  {
    if ls == [] then progs else Store(StoreAll(progs, ls[..|ls| - 1]), ls[|ls| - 1])
  }

  lemma StoreAllSnoc(progs: Programs, ls: seq<Line>, l: Line)
    ensures StoreAll(progs, ls + [l]) == Store(StoreAll(progs, ls), l)
  {
    assert (ls + [l])[..|ls|] == ls;
  }

  /** The lines of ls naming the program, in order. */
  function Naming(ls: seq<Line>, name: string): (r: seq<Line>)
    ensures forall k :: 0 <= k < |r| ==> r[k].name == name
  {
    if ls == [] then []
    else
      var before := Naming(ls[..|ls| - 1], name);
      if ls[|ls| - 1].name == name then before + [ls[|ls| - 1]] else before
  }

  /** All the children listed on the lines ls, in order. */
  function AllChildren(ls: seq<Line>): seq<string>
  {
    if ls == [] then [] else AllChildren(ls[..|ls| - 1]) + ls[|ls| - 1].children
  }

  /**
   * A stored program has the weight of the last line naming it (programMap
   * keeps the last node) and the children of all those lines, in order
   * (childMap appends).
   */
  lemma {:induction false} StoreAllProgram(ls: seq<Line>, name: string)
    requires name in StoreAll(map[], ls)
    ensures var named := Naming(ls, name);
            named != [] && StoreAll(map[], ls)[name] == Program(named[|named| - 1].weight, AllChildren(named))
  {
    var n := |ls| - 1;
    var before := StoreAll(map[], ls[..n]);
    if ls[n].name == name {
      if name in before {
        StoreAllProgram(ls[..n], name);
      } else {
        NoneNaming(ls[..n], name);
      }
    } else {
      StoreAllProgram(ls[..n], name);
    }
  }

  lemma {:induction false} NoneNaming(ls: seq<Line>, name: string)
    requires name !in StoreAll(map[], ls)
    ensures Naming(ls, name) == []
  {
    if ls != [] {
      NoneNaming(ls[..|ls| - 1], name);
    }
  }

  /** A program is stored exactly when some line names it. */
  lemma StoreAllKeys(ls: seq<Line>, name: string)
    ensures name in StoreAll(map[], ls) <==> Naming(ls, name) != []
  {
    if name in StoreAll(map[], ls) {
      StoreAllProgram(ls, name);
    } else {
      NoneNaming(ls, name);
    }
  }

  /** Every child named on a line is a program of its own; otherwise the linking loop panics. */
  predicate Linked(progs: Programs)
  {
    forall p, i :: p in progs && 0 <= i < |progs[p].children| ==> progs[p].children[i] in progs
  }

  /** Some program lists name among its children, so the linking loop sets its parent. */
  predicate HasParent(progs: Programs, name: string)
  {
    exists p, i :: p in progs && 0 <= i < |progs[p].children| && progs[p].children[i] == name
  }

  /** name is a child of one of the programs in done, or one of the first j children of p. */
  ghost predicate ListedBy(progs: Programs, done: set<string>, p: string, j: int, name: string)
    requires p in progs
  {
    (exists q, i :: q in done && q in progs && 0 <= i < |progs[q].children| && progs[q].children[i] == name)
    || exists i :: 0 <= i < j && i < |progs[p].children| && progs[p].children[i] == name
  }

  /**
   * The linking loop: for each program (in any order) and each of its
   * children, the child is looked up and given a parent. Returns the programs
   * that got one.
   */
  method Link(progs: Programs) returns (parented: set<string>)
    requires Linked(progs)
    ensures forall n :: n in parented <==> HasParent(progs, n)
  {
    parented := {};
    var todo := progs.Keys;
    while todo != {}
      invariant todo <= progs.Keys
      invariant forall n :: n in parented <==>
        exists q, i :: q in progs.Keys - todo && q in progs && 0 <= i < |progs[q].children| && progs[q].children[i] == n
      decreases |todo|
    {
      ghost var some := SomeMember(todo);
      var p :| p in todo;
      ghost var done := progs.Keys - todo;
      var kids := progs[p].children;
      for j := 0 to |kids|
        invariant forall n :: n in parented <==> ListedBy(progs, done, p, j, n)
      {
        assert kids[j] in progs;
        parented := parented + {kids[j]};
      }
      todo := todo - {p};
      LinkStep(progs, done, p, parented);
    }
  }

  lemma LinkStep(progs: Programs, done: set<string>, p: string, parented: set<string>)
    requires p in progs
    requires forall n :: n in parented <==> ListedBy(progs, done, p, |progs[p].children|, n)
    ensures forall n :: n in parented <==>
      exists q, i :: q in done + {p} && q in progs && 0 <= i < |progs[q].children| && progs[q].children[i] == n
  {
  }

  /** The root loop: the first program, in any order, that has no parent. */
  method FindRoot(progs: Programs, parented: set<string>) returns (root: Option<string>)
    ensures root.Some? ==> root.value in progs && root.value !in parented
    ensures root.None? ==> forall n :: n in progs ==> n in parented
  {
    var todo := progs.Keys;
    while todo != {}
      invariant todo <= progs.Keys
      invariant forall n :: n in progs && n !in todo ==> n in parented
      decreases |todo|
    {
      ghost var some := SomeMember(todo);
      var n :| n in todo;
      if n !in parented {
        return Some(n);
      }
      todo := todo - {n};
    }
    return None;
  }

  /**
   * NewProgramTree: the lines stored, the programs linked (a child that is not
   * a program panics), then a program without a parent chosen as the root;
   * None when every program has a parent.
   */
  method NewProgramTree(description: string) returns (progs: Programs, root: Option<string>)
    requires Parsable(Split(description, '\n'))
    requires Linked(StoreAll(map[], Parsed(Split(description, '\n'))))
    ensures progs == StoreAll(map[], Parsed(Split(description, '\n')))
    ensures root.Some? ==> root.value in progs && !HasParent(progs, root.value)
    ensures root.None? ==> forall n :: n in progs ==> HasParent(progs, n)
  {
    var lines := Split(description, '\n');
    progs := map[];
    for i := 0 to |lines|
      invariant Parsable(lines[..i])
      invariant progs == StoreAll(map[], Parsed(lines[..i]))
    {
      ParsablePrefix(lines, i + 1);
      assert lines[..i + 1][..i] == lines[..i];
      if |lines[i]| > 0 {
        var l := ParseLine(lines[i]).value;
        StoreAllSnoc(map[], Parsed(lines[..i]), l);
        progs := Store(progs, l);
      }
    }
    assert lines[..|lines|] == lines;
    var parented := Link(progs);
    root := FindRoot(progs, parented);
  }

  /**
   * t is the tower the child pointers lead to from program name: its name and
   * weight, and for each child name in order, that child's tower. Pointers
   * that run in a cycle have no such finite tower.
   */
  ghost predicate Unfolds(progs: Programs, name: string, t: Tree)
    decreases t
  {
    name in progs && t.name == name && t.weight == progs[name].weight
    && |t.children| == |progs[name].children|
    && forall i :: 0 <= i < |t.children| ==> Unfolds(progs, progs[name].children[i], t.children[i])
  }

  /** The pointers determine the tower: two unfoldings from one program are the same tree. */
  lemma {:induction false} UnfoldsUnique(progs: Programs, name: string, t1: Tree, t2: Tree)
    requires Unfolds(progs, name, t1) && Unfolds(progs, name, t2)
    ensures t1 == t2
    decreases t1
  {
    forall i | 0 <= i < |t1.children| ensures t1.children[i] == t2.children[i] {
      UnfoldsUnique(progs, progs[name].children[i], t1.children[i], t2.children[i]);
    }
  }

  // ---------------------------------------------------------------------------
  // Descriptions written from lines.

  /** Lines with distinct names store each program exactly as its line gives it. */
  lemma {:induction false} StoreAllDistinct(ls: seq<Line>)
    requires forall i, j :: 0 <= i < j < |ls| ==> ls[i].name != ls[j].name
    ensures forall k :: 0 <= k < |ls| ==>
              ls[k].name in StoreAll(map[], ls) && StoreAll(map[], ls)[ls[k].name] == Program(ls[k].weight, ls[k].children)
  {
    if ls != [] {
      var n := |ls| - 1;
      var before := StoreAll(map[], ls[..n]);
      StoreAllDistinct(ls[..n]);
      StoreAllOnly(ls[..n]);
      assert forall k :: 0 <= k < n ==> ls[..n][k].name != ls[n].name;
      assert [] + ls[n].children == ls[n].children;
      forall k | 0 <= k < n
        ensures ls[k].name in StoreAll(map[], ls) && StoreAll(map[], ls)[ls[k].name] == Program(ls[k].weight, ls[k].children)
      {
        assert ls[..n][k] == ls[k];
      }
    }
  }

  /** Only programs some line names are stored. */
  lemma {:induction false} StoreAllOnly(ls: seq<Line>)
    ensures forall n :: n in StoreAll(map[], ls) ==> exists k :: 0 <= k < |ls| && ls[k].name == n
  {
    if ls != [] {
      var n := |ls| - 1;
      StoreAllOnly(ls[..n]);
      forall nm | nm in StoreAll(map[], ls) ensures exists k :: 0 <= k < |ls| && ls[k].name == nm {
        if nm in StoreAll(map[], ls[..n]) {
          var k :| 0 <= k < n && ls[..n][k].name == nm;
          assert ls[..n][k] == ls[k];
        }
      }
    }
  }

  function Rendered(ls: seq<Line>): (lines: seq<string>)
    ensures |lines| == |ls|
  {
    seq(|ls|, i requires 0 <= i < |ls| => RenderLine(ls[i]))
  }

  /** The description with one line per element of ls, each ending in a newline. */
  function Describe(ls: seq<Line>): string
  {
    Join(Rendered(ls) + [""], '\n')
  }

  lemma {:induction false} NoNewlineInJoin(parts: seq<string>)
    requires |parts| >= 1 && forall i :: 0 <= i < |parts| ==> IsName(parts[i])
    ensures '\n' !in JoinOn(parts, ", ")
    decreases |parts|
  {
    if |parts| > 1 {
      NoNewlineInJoin(parts[1..]);
    }
  }

  lemma NoNewline(l: Line)
    requires Readable(l)
    ensures '\n' !in RenderLine(l)
  {
    if l.children != [] {
      NoNewlineInJoin(l.children);
    }
  }

  /** Non-empty lines that each parse to the corresponding element of ls give ls. */
  lemma {:induction false} ParsedOf(lines: seq<string>, ls: seq<Line>)
    requires |lines| == |ls|
    requires forall i :: 0 <= i < |lines| ==> |lines[i]| > 0 && ParseLine(lines[i]) == Some(ls[i])
    ensures Parsable(lines) && Parsed(lines) == ls
  {
    if ls != [] {
      var n := |ls| - 1;
      assert forall i :: 0 <= i < n ==> lines[..n][i] == lines[i];
      ParsedOf(lines[..n], ls[..n]);
      ParsedLast(lines);
      PrefixLast(ls);
    }
  }

  /** The lines of a written description parse back into the lines written. */
  lemma RenderedParsed(ls: seq<Line>)
    requires forall i :: 0 <= i < |ls| ==> Readable(ls[i])
    ensures Parsable(Rendered(ls)) && Parsed(Rendered(ls)) == ls
  {
    RenderedParse(ls);
    forall i | 0 <= i < |ls| ensures |Rendered(ls)[i]| > 0 {
    }
    ParsedOf(Rendered(ls), ls);
  }

  lemma ParsedLast(lines: seq<string>)
    requires Parsable(lines) && lines != [] && |lines[|lines| - 1]| > 0
    ensures Parsable(lines[..|lines| - 1])
    ensures Parsed(lines) == Parsed(lines[..|lines| - 1]) + [ParseLine(lines[|lines| - 1]).value]
  {
    ParsablePrefix(lines, |lines| - 1);
  }

  lemma RenderedParse(ls: seq<Line>)
    requires forall i :: 0 <= i < |ls| ==> Readable(ls[i])
    ensures forall i :: 0 <= i < |ls| ==> ParseLine(Rendered(ls)[i]) == Some(ls[i])
    ensures Parsable(Rendered(ls))
  {
    forall i | 0 <= i < |ls| ensures ParseLine(Rendered(ls)[i]) == Some(ls[i]) {
      ParseRender(ls[i]);
    }
  }

  /** NewProgramTree's lines for a written description: the rendered lines, then the empty line after the last newline. */
  lemma DescribeLines(ls: seq<Line>)
    requires forall i :: 0 <= i < |ls| ==> Readable(ls[i])
    ensures Split(Describe(ls), '\n') == Rendered(ls) + [""]
  {
    var lines := Rendered(ls) + [""];
    forall i | 0 <= i < |lines| ensures '\n' !in lines[i] {
      if i < |ls| {
        NoNewline(ls[i]);
      }
    }
    SplitJoin(lines, '\n');
  }

  /** A written description parses back, line for line, into the lines written. */
  lemma DescribeParsed(ls: seq<Line>)
    requires forall i :: 0 <= i < |ls| ==> Readable(ls[i])
    ensures Parsable(Split(Describe(ls), '\n')) && Parsed(Split(Describe(ls), '\n')) == ls
  {
    DescribeLines(ls);
    RenderedParsed(ls);
    var lines := Rendered(ls) + [""];
    assert lines[..|ls|] == Rendered(ls);
  }
}
