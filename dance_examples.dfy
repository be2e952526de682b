// The steps the day 16 tests dance on five programs, abcde: how step() reads
// each text, what each step does to the line, the three steps in order, and
// danceN repeating them twice.
module DanceExamples {
  import opened Common
  import opened Text
  import opened Dance
  import P = Promenade

  lemma ParseSpinOne()
    ensures ParseStep("s1") == Some(Spin(1))
  {
    var s := "s1";
    assert s[1..] == "1" && s[2..] == [];
    assert RunLength(s[1..], Digits) == 1;
    assert MatchesAt(s, 0, "s", Digits, "");
    assert CaptureAt(s, 0, "s", Digits) == "1";
  }

  lemma ParseSpinThree()
    ensures ParseStep("s3") == Some(Spin(3))
  {
    var s := "s3";
    assert s[1..] == "3" && s[2..] == [];
    assert RunLength(s[1..], Digits) == 1;
    assert MatchesAt(s, 0, "s", Digits, "");
    assert CaptureAt(s, 0, "s", Digits) == "3";
  }

  /** A text with no 's' in it holds no spin. */
  lemma NoSpin(s: string)
    requires 's' !in s
    ensures FindCapture(s, "s", Digits, "", 0).None?
  {
    forall i | 0 <= i <= |s| ensures !MatchesAt(s, i, "s", Digits, "") {
      if i + 1 <= |s| {
        assert s[i..][..1] == [s[i]];
      }
    }
  }

  /** A text with no 'x' in it holds no exchange. */
  lemma NoExchange(s: string)
    requires 'x' !in s
    ensures FindPair(s, 'x', Digits, '/', 0).None?
  {
    FindPairNone(s, 'x', Digits, '/', 0);
  }

  /** A text with no 'p' in it holds no partner swap. */
  lemma NoPartner(s: string)
    requires 'p' !in s
    ensures FindPair(s, 'p', Word, '/', 0).None?
  {
    FindPairNone(s, 'p', Word, '/', 0);
  }

  /** A run of one character of the class, then one outside it (or the end of the text). */
  lemma RunOfOne(s: string, cls: CharClass)
    requires 1 <= |s| && InClass(s[0], cls) && (|s| >= 2 ==> !InClass(s[1], cls))
    ensures RunLength(s, cls) == 1
  {
    assert RunLength(s[1..], cls) == 0;
  }

  /** Four characters lead, a, sep, b, with a and b in the class, read as the pair (a, b). */
  lemma PairOfFour(s: string, cls: CharClass)
    requires |s| == 4 && InClass(s[1], cls) && InClass(s[3], cls) && !InClass(s[2], cls)
    ensures FindPair(s, s[0], cls, s[2], 0) == Some(([s[1]], [s[3]]))
  {
    RunOfOne(s[1..], cls);
    RunOfOne(s[3..], cls);
    assert PairAt(s, 0, s[0], cls, s[2]);
    assert s[1..2] == [s[1]] && s[3..4] == [s[3]];
  }

  lemma ParseExchange()
    ensures ParseStep("x3/4") == Some(Exchange(3, 4))
  {
    var s := "x3/4";
    NoSpin(s);
    PairOfFour(s, Digits);
  }

  lemma ParsePartnerEB()
    ensures ParseStep("pe/b") == Some(Partner('e', 'b'))
  {
    var s := "pe/b";
    NoSpin(s);
    NoExchange(s);
    PairOfFour(s, Word);
  }

  /** A text read as a spin of x, 0 < x <= |p|, moves the last x programs to the front. */
  lemma StepSpin(p: seq<char>, s: string, x: nat)
    requires ParseStep(s) == Some(Spin(x)) && 0 < x <= |p|
    ensures StepText(p, s) == Some(p[|p| - x..] + p[..|p| - x])
  {
  }

  /** A text read as an exchange of two positions inside the line swaps them. */
  lemma StepExchange(p: seq<char>, s: string, a: nat, b: nat)
    requires ParseStep(s) == Some(Exchange(a, b)) && a < |p| && b < |p|
    ensures StepText(p, s) == Some(p[a := p[b]][b := p[a]])
  {
  }

  /** A text read as a partner swap of a, first at i, and b, first at j, swaps those two positions. */
  lemma StepPartner(p: seq<char>, s: string, a: char, b: char, i: nat, j: nat)
    requires ParseStep(s) == Some(Partner(a, b))
    requires i < |p| && p[i] == a && forall k :: 0 <= k < i ==> p[k] != a
    requires j < |p| && p[j] == b && forall k :: 0 <= k < j ==> p[k] != b
    ensures StepText(p, s) == Some(p[i := b][j := a])
  {
    assert IndexOf(p, a) == i && IndexOf(p, b) == j;
  }

  /** A text read as pe/b on a line with e first at i and b first at j. */
  lemma PartnerEB(p: seq<char>, s: string, i: nat, j: nat, q: seq<char>)
    requires ParseStep(s) == Some(Partner('e', 'b'))
    requires i < |p| && p[i] == 'e' && forall k :: 0 <= k < i ==> p[k] != 'e'
    requires j < |p| && p[j] == 'b' && forall k :: 0 <= k < j ==> p[k] != 'b'
    requires q == p[i := 'b'][j := 'e']
    ensures StepText(p, s) == Some(q)
  {
    StepPartner(p, s, 'e', 'b', i, j);
  }

  /** A text read as x3/4 on a line of five. */
  lemma ExchangeThreeFour(p: seq<char>, s: string, q: seq<char>)
    requires ParseStep(s) == Some(Exchange(3, 4)) && |p| == 5
    requires q == p[3 := p[4]][4 := p[3]]
    ensures StepText(p, s) == Some(q)
  {
    StepExchange(p, s, 3, 4);
  }

  /** A text read as a spin of x on a line of five, 0 < x <= 5. */
  lemma SpinOfFive(p: seq<char>, s: string, x: nat, q: seq<char>)
    requires ParseStep(s) == Some(Spin(x)) && |p| == 5 && 0 < x <= 5
    requires q == p[5 - x..] + p[..5 - x]
    ensures StepText(p, s) == Some(q)
  {
    StepSpin(p, s, x);
  }

  /** NewProgramDance(5). */
  lemma ExampleNew()
    ensures Letters(5) == "abcde"
  {
  }

  /** s3 moves the last three programs to the front. */
  lemma ExampleSpin()
    ensures StepText("abcde", "s3") == Some("cdeab")
  {
    ParseSpinThree();
    SpinOfFive("abcde", "s3", 3, "cdeab");
  }

  /** x3/4 swaps the programs at positions 3 and 4. */
  lemma ExampleExchange()
    ensures StepText("abcde", "x3/4") == Some("abced")
  {
    ParseExchange();
    ExchangeThreeFour("abcde", "x3/4", "abced");
  }

  /** pe/b swaps the programs named e and b. */
  lemma ExamplePartner()
    ensures StepText("abcde", "pe/b") == Some("aecdb")
  {
    ParsePartnerEB();
    PartnerEB("abcde", "pe/b", 4, 1, "aecdb");
  }

  /** Three texts whose steps take p to q1, q1 to q2 and q2 to q3 take p to q3 in turn. */
  lemma RunThree(p: seq<char>, a: string, b: string, c: string, q1: seq<char>, q2: seq<char>, q3: seq<char>)
    requires StepText(p, a) == Some(q1) && StepText(q1, b) == Some(q2) && StepText(q2, c) == Some(q3)
    ensures RunSteps(p, [a, b, c]) == Some(q3)
  {
    var ss := [a, b, c];
    assert ss[..2][..1] == [a] && ss[..2] == [a, b] && ss[..2][..1][..0] == [];
    assert RunSteps(p, [a]) == Some(q1);
    assert RunSteps(p, [a, b]) == Some(q2);
  }

  lemma SpinOneOnce()
    ensures StepText("abcde", "s1") == Some("eabcd")
  {
    ParseSpinOne();
    SpinOfFive("abcde", "s1", 1, "eabcd");
  }

  lemma ExchangeOnce()
    ensures StepText("eabcd", "x3/4") == Some("eabdc")
  {
    ParseExchange();
    ExchangeThreeFour("eabcd", "x3/4", "eabdc");
  }

  lemma PartnerOnce()
    ensures StepText("eabdc", "pe/b") == Some("baedc")
  {
    ParsePartnerEB();
    PartnerEB("eabdc", "pe/b", 0, 2, "baedc");
  }

  lemma SpinOneTwice()
    ensures StepText("baedc", "s1") == Some("cbaed")
  {
    ParseSpinOne();
    SpinOfFive("baedc", "s1", 1, "cbaed");
  }

  lemma ExchangeTwice()
    ensures StepText("cbaed", "x3/4") == Some("cbade")
  {
    ParseExchange();
    ExchangeThreeFour("cbaed", "x3/4", "cbade");
  }

  lemma PartnerTwice()
    ensures StepText("cbade", "pe/b") == Some("ceadb")
  {
    ParsePartnerEB();
    PartnerEB("cbade", "pe/b", 4, 1, "ceadb");
  }

  /** s1, x3/4 and pe/b in turn take abcde through eabcd and eabdc to baedc. */
  lemma ExampleSteps()
    ensures RunSteps("abcde", ["s1", "x3/4", "pe/b"]) == Some("baedc")
  {
    SpinOneOnce();
    ExchangeOnce();
    PartnerOnce();
    RunThree("abcde", "s1", "x3/4", "pe/b", "eabcd", "eabdc", "baedc");
  }

  /** The dance again, from baedc, through cbaed and cbade to ceadb. */
  lemma ExampleStepsAgain()
    ensures RunSteps("baedc", ["s1", "x3/4", "pe/b"]) == Some("ceadb")
  {
    SpinOneTwice();
    ExchangeTwice();
    PartnerTwice();
    RunThree("baedc", "s1", "x3/4", "pe/b", "cbaed", "cbade", "ceadb");
  }

  /** dance splits its text at the commas. */
  lemma ExampleSplit()
    ensures Split("s1,x3/4,pe/b", ',') == ["s1", "x3/4", "pe/b"]
  {
    var parts := ["s1", "x3/4", "pe/b"];
    assert parts[1..] == ["x3/4", "pe/b"] && parts[1..][1..] == ["pe/b"];
    assert Join(["pe/b"], ',') == "pe/b";
    assert Join(["x3/4", "pe/b"], ',') == "x3/4" + [','] + "pe/b" == "x3/4,pe/b";
    assert Join(parts, ',') == "s1" + [','] + "x3/4,pe/b" == "s1,x3/4,pe/b";
    SplitJoin(parts, ',');
  }

  /** Three texts that step() reads, the third alone a partner swap by both readings, are consistent. */
  lemma ConsistentThree(a: string, b: string, c: string)
    requires ParseStep(a).Some? && !ParseStep(a).value.Partner? && !IsPartnerStep(a)
    requires ParseStep(b).Some? && !ParseStep(b).value.Partner? && !IsPartnerStep(b)
    requires ParseStep(c).Some? && ParseStep(c).value.Partner? && IsPartnerStep(c)
    ensures P.Consistent([a, b, c])
  {
    var ss := [a, b, c];
    assert [a][..0] == [] && [a, b][..1] == [a] && ss[..2] == [a, b];
    assert P.AllParse([a]) && P.SortedAlike([a]);
    assert P.AllParse([a, b]) && P.SortedAlike([a, b]);
    assert P.AllParse(ss) && P.SortedAlike(ss);
  }

  /** The three texts read the same to step() and to danceN's sorting. */
  lemma ExampleConsistent()
    ensures P.Consistent(["s1", "x3/4", "pe/b"])
  {
    ParseSpinOne();
    ParseExchange();
    ParsePartnerEB();
    NoPartner("s1");
    NoPartner("x3/4");
    ConsistentThree("s1", "x3/4", "pe/b");
  }

  /** Dancing a text once, where stepping through it takes p to q. */
  lemma DanceOnce(p: seq<char>, dance: string, q: seq<char>)
    requires Distinct(p) && P.Small(p)
    requires P.Consistent(Split(dance, ','))
    requires RunSteps(p, Split(dance, ',')) == Some(q)
    ensures P.DanceNSpec(p, dance, 1) == Some(q)
  {
    P.DanceInOrder(p, dance);
  }

  /** dance("s1,x3/4,pe/b") on abcde gives baedc. */
  lemma ExampleDance()
    ensures P.DanceNSpec("abcde", "s1,x3/4,pe/b", 1) == Some("baedc")
  {
    ExampleSplit();
    ExampleConsistent();
    ExampleSteps();
    ExampleNew();
    assert P.Small(Letters(5));
    DanceOnce("abcde", "s1,x3/4,pe/b", "baedc");
  }

  /** Dancing a text twice over, where once takes p to q1 and again takes q1 to q2. */
  lemma DanceTwice(p: seq<char>, dance: string, q1: seq<char>, q2: seq<char>)
    requires Distinct(p) && P.Small(p)
    requires P.Consistent(Split(dance, ','))
    requires RunSteps(p, Split(dance, ',')) == Some(q1) && RunSteps(q1, Split(dance, ',')) == Some(q2)
    ensures P.DanceNSpec(p, dance, 2) == Some(q2)
  {
    P.DanceNRepeats(p, dance, 2);
    assert P.DanceTimes(p, Split(dance, ','), 1) == Some(q1);
  }

  /** danceN("s1,x3/4,pe/b", 2) on abcde gives ceadb, as dancing it twice in order does. */
  lemma ExampleDanceN()
    ensures P.DanceNSpec("abcde", "s1,x3/4,pe/b", 2) == Some("ceadb")
  {
    ExampleSplit();
    ExampleConsistent();
    ExampleSteps();
    ExampleStepsAgain();
    ExampleNew();
    assert P.Small(Letters(5));
    DanceTwice("abcde", "s1,x3/4,pe/b", "baedc", "ceadb");
  }
}
