/** The examples of day21_test.go, stated about the model of the fractal art generator. */
module FractalExamples {
  import opened Common
  import opened Text
  import opened Fractal

  /** Three rows of three pixels written one after the other pack into those rows. */
  lemma Packed(s: string, a: string, b: string, c: string)
    requires |a| == 3 && |b| == 3 && |c| == 3 && s == a + b + c
    requires forall i :: 0 <= i < 3 ==> !IsSeparator(a[i]) && !IsSeparator(b[i]) && !IsSeparator(c[i])
    ensures StoreImage(s) == [a, b, c]
  {
    var rows := [a, b, c];
    assert rows[1..] == [b, c] && rows[1..][1..] == [c] && [c][1..] == [];
    assert Concat([c]) == c;
    assert Concat(rows) == s;
    StoreConcat(rows);
  }

  /** Two 2 x 2 images that agree pixel by pixel are equal. */
  lemma Equal2(a: Image, b: Image)
    requires IsSquare(a) && IsSquare(b) && |a| == 2 && |b| == 2
    requires a[0][0] == b[0][0] && a[0][1] == b[0][1]
    requires a[1][0] == b[1][0] && a[1][1] == b[1][1]
    ensures a == b
  {
    forall r, c | 0 <= r < 2 && 0 <= c < 2
      ensures a[r][c] == b[r][c]
    {
      assert r in {0, 1} && c in {0, 1};
    }
    SquareEq(a, b);
  }

  /** Two 3 x 3 images that agree pixel by pixel are equal. */
  lemma Equal3(a: Image, b: Image)
    requires IsSquare(a) && IsSquare(b) && |a| == 3 && |b| == 3
    requires a[0][0] == b[0][0] && a[0][1] == b[0][1] && a[0][2] == b[0][2]
    requires a[1][0] == b[1][0] && a[1][1] == b[1][1] && a[1][2] == b[1][2]
    requires a[2][0] == b[2][0] && a[2][1] == b[2][1] && a[2][2] == b[2][2]
    ensures a == b
  {
    forall r, c | 0 <= r < 3 && 0 <= c < 3
      ensures a[r][c] == b[r][c]
    {
      assert r in {0, 1, 2} && c in {0, 1, 2};
    }
    SquareEq(a, b);
  }

  /** Two 4 x 4 images that agree pixel by pixel are equal. */
  lemma Equal4(a: Image, b: Image)
    requires IsSquare(a) && IsSquare(b) && |a| == 4 && |b| == 4
    requires a[0][0] == b[0][0] && a[0][1] == b[0][1] && a[0][2] == b[0][2] && a[0][3] == b[0][3]
    requires a[1][0] == b[1][0] && a[1][1] == b[1][1] && a[1][2] == b[1][2] && a[1][3] == b[1][3]
    requires a[2][0] == b[2][0] && a[2][1] == b[2][1] && a[2][2] == b[2][2] && a[2][3] == b[2][3]
    requires a[3][0] == b[3][0] && a[3][1] == b[3][1] && a[3][2] == b[3][2] && a[3][3] == b[3][3]
    ensures a == b
  {
    forall r, c | 0 <= r < 4 && 0 <= c < 4
      ensures a[r][c] == b[r][c]
    {
      assert r in {0, 1, 2, 3} && c in {0, 1, 2, 3};
    }
    SquareEq(a, b);
  }

  /** Two 6 x 6 images that agree pixel by pixel are equal. */
  lemma Equal6(a: Image, b: Image)
    requires IsSquare(a) && IsSquare(b) && |a| == 6 && |b| == 6
    requires a[0][0] == b[0][0] && a[0][1] == b[0][1] && a[0][2] == b[0][2] && a[0][3] == b[0][3] && a[0][4] == b[0][4] && a[0][5] == b[0][5]
    requires a[1][0] == b[1][0] && a[1][1] == b[1][1] && a[1][2] == b[1][2] && a[1][3] == b[1][3] && a[1][4] == b[1][4] && a[1][5] == b[1][5]
    requires a[2][0] == b[2][0] && a[2][1] == b[2][1] && a[2][2] == b[2][2] && a[2][3] == b[2][3] && a[2][4] == b[2][4] && a[2][5] == b[2][5]
    requires a[3][0] == b[3][0] && a[3][1] == b[3][1] && a[3][2] == b[3][2] && a[3][3] == b[3][3] && a[3][4] == b[3][4] && a[3][5] == b[3][5]
    requires a[4][0] == b[4][0] && a[4][1] == b[4][1] && a[4][2] == b[4][2] && a[4][3] == b[4][3] && a[4][4] == b[4][4] && a[4][5] == b[4][5]
    requires a[5][0] == b[5][0] && a[5][1] == b[5][1] && a[5][2] == b[5][2] && a[5][3] == b[5][3] && a[5][4] == b[5][4] && a[5][5] == b[5][5]
    ensures a == b
  {
    forall r, c | 0 <= r < 6 && 0 <= c < 6
      ensures a[r][c] == b[r][c]
    {
      assert r in {0, 1, 2, 3, 4, 5} && c in {0, 1, 2, 3, 4, 5};
    }
    SquareEq(a, b);
  }

  /** pack/unpack: "#..#....." packs into three rows, unpacks back to itself, and unpacks with
      newlines to "#..\n#..\n...\n". */
  lemma ExamplePack(s: string)
    requires s == "#..#....."
    ensures StoreImage(s) == ["#..", "#..", "..."]
    ensures StringImage(StoreImage(s), false) == s
    ensures StringImage(StoreImage(s), true) == "#..\n#..\n...\n"
  {
    Packed(s, "#..", "#..", "...");
    StringOfStore(s, 3);
    var img := StoreImage(s);
    StringImageRows(img, true);
    var lines := Lines(img, true);
    assert lines[0] == "#..\n" && lines[1] == "#..\n" && lines[2] == "...\n";
    assert lines == ["#..\n", "#..\n", "...\n"];
    assert lines[1..] == ["#..\n", "...\n"] && lines[1..][1..] == ["...\n"] && ["...\n"][1..] == [];
  }

  /** imageMirrors: the image and its mirror "..#..#...". */
  lemma ExampleMirrors(s: string)
    requires s == "#..#....."
    ensures Mirrors(StoreImage(s)) == [StoreImage("#..#....."), StoreImage("..#..#...")]
  {
    Packed(s, "#..", "#..", "...");
    Packed("..#..#...", "..#", "..#", "...");
    Equal3(Mirror(["#..", "#..", "..."]), ["..#", "..#", "..."]);
  }

  /** The quarter turns of "#..#.....", one after another. */
  lemma TurnsOfExample(x: Image)
    requires x == ["#..", "#..", "..."]
    ensures Rotate(x) == ["...", "...", "##."]
    ensures Rotate(Rotate(x)) == ["...", "..#", "..#"]
    ensures Rotate(Rotate(Rotate(x))) == [".##", "...", "..."]
  {
    Equal3(Rotate(x), ["...", "...", "##."]);
    Equal3(Rotate(["...", "...", "##."]), ["...", "..#", "..#"]);
    Equal3(Rotate(["...", "..#", "..#"]), [".##", "...", "..."]);
  }

  /** The quarter turns of the mirror image "..#..#...", one after another. */
  lemma TurnsOfMirror(m: Image)
    requires m == ["..#", "..#", "..."]
    ensures Rotate(m) == ["##.", "...", "..."]
    ensures Rotate(Rotate(m)) == ["...", "#..", "#.."]
    ensures Rotate(Rotate(Rotate(m))) == ["...", "...", ".##"]
  {
    Equal3(Rotate(m), ["##.", "...", "..."]);
    Equal3(Rotate(["##.", "...", "..."]), ["...", "#..", "#.."]);
    Equal3(Rotate(["...", "#..", "#.."]), ["...", "...", ".##"]);
  }

  /** imageRotations: the four quarter turns of "#..#.....", in the order they are made (the
      test compares them as a collection, listed there in another order). */
  lemma ExampleRotations(s: string)
    requires s == "#..#....."
    ensures Rotations(StoreImage(s)) ==
      [StoreImage("#..#....."), StoreImage("......##."), StoreImage(".....#..#"), StoreImage(".##......")]
  {
    Packed(s, "#..", "#..", "...");
    Packed("......##.", "...", "...", "##.");
    Packed(".....#..#", "...", "..#", "..#");
    Packed(".##......", ".##", "...", "...");
    TurnsOfExample(StoreImage(s));
  }

  /** imagePermutations: the eight rotations and mirror images of "#..#.....". */
  lemma ExamplePermutations(s: string)
    requires s == "#..#....."
    ensures Permutations(StoreImage(s)) ==
      [StoreImage("#..#....."), StoreImage("......##."), StoreImage(".....#..#"), StoreImage(".##......"),
       StoreImage("..#..#..."), StoreImage("##......."), StoreImage("...#..#.."), StoreImage(".......##")]
  {
    var x := StoreImage(s);
    var m := StoreImage("..#..#...");
    ExampleRotations(s);
    ExampleMirrors(s);
    assert Mirror(x) == m;
    Packed("..#..#...", "..#", "..#", "...");
    Packed("##.......", "##.", "...", "...");
    Packed("...#..#..", "...", "#..", "#..");
    Packed(".......##", "...", "...", ".##");
    TurnsOfMirror(m);
    assert Rotations(m) == [m, StoreImage("##......."), StoreImage("...#..#.."), StoreImage(".......##")];
  }

  /** The starting pattern packs into three rows. */
  lemma InitialRows()
    ensures StoreImage(InitialImage) == [".#.", "..#", "###"]
  {
    var rows := [".#.", "..#", "###"];
    assert rows[1..] == ["..#", "###"] && rows[1..][1..] == ["###"];
    assert Join(rows, '\n') == InitialImage;
    StoreRows(rows, '\n');
  }

  /** NewFractalArt(""): no rules, and the image is the starting pattern ".#.\n..#\n###\n". */
  lemma ExampleNewFractalArt(text: string)
    requires text == ""
    ensures RulesOf(text) == Some(map[])
    ensures StringImage(StoreImage(InitialImage), true) == ".#.\n..#\n###\n"
  {
    assert Split(text, '\n') == [""];
    InitialRows();
    var img := StoreImage(InitialImage);
    StringImageRows(img, true);
    var lines := Lines(img, true);
    assert lines[0] == ".#.\n" && lines[1] == "..#\n" && lines[2] == "###\n";
    assert lines == [".#.\n", "..#\n", "###\n"];
    assert lines[1..] == ["..#\n", "###\n"] && lines[1..][1..] == ["###\n"] && ["###\n"][1..] == [];
  }

  /** The two rules of the ZoomAndEnhance tests, in the notation of the rules text. */
  /** The two rule lines of the tests, each followed by a newline. */
  const TestRulesText := TestLine1 + "\n" + TestLine2 + "\n"

  const SmallPattern: Image := ["..", ".#"]
  const SmallResult: Image := ["##.", "#..", "..."]
  const LargePattern: Image := [".#.", "..#", "###"]
  const LargeResult: Image := ["#..#", "....", "....", "#..#"]

  /** The rules NewFractalArt stores for two rule lines: every rotation and mirror image of
      each pattern maps to its result. */
  function TwoRules(p1: Image, r1: Image, p2: Image, r2: Image): map<string, Image>
    requires IsSquare(p1) && IsSquare(p2)
  {
    AddRule(AddRule(map[], Permutations(p1), r1), Permutations(p2), r2)
  }

  const TestLine1 := "../.# => ##./#../..."
  const TestLine2 := ".#./..#/### => #..#/..../..../#..#"

  lemma TestLines(text: string)
    requires text == TestRulesText
    ensures Split(text, '\n') == [TestLine1, TestLine2, ""]
  {
    var lines := [TestLine1, TestLine2, ""];
    assert lines[1..] == [TestLine2, ""] && lines[1..][1..] == [""];
    assert Join([TestLine2, ""], '\n') == TestLine2 + "\n";
    assert Join(lines, '\n') == text;
    SplitJoin(lines, '\n');
  }

  lemma TestMatch1()
    ensures MatchRule(TestLine1) == Some(("../.#", "##./#../..."))
  {
    assert TestLine1 == "../.#" + " => " + "##./#../...";
    MatchRuleOf("../.#", "##./#../...");
  }

  lemma TestMatch2()
    ensures MatchRule(TestLine2) == Some((".#./..#/###", "#..#/..../..../#..#"))
  {
    assert TestLine2 == ".#./..#/###" + " => " + "#..#/..../..../#..#";
    MatchRuleOf(".#./..#/###", "#..#/..../..../#..#");
  }

  lemma TestPacksSmall()
    ensures StoreImage("../.#") == SmallPattern && StoreImage("##./#../...") == SmallResult
  {
    var p1 := SmallPattern;
    assert Join(p1, '/') == "../.#" by { assert p1[1..] == [".#"]; }
    StoreRows(p1, '/');
    var r1 := SmallResult;
    assert Join(r1, '/') == "##./#../..." by { assert r1[1..] == ["#..", "..."] && r1[1..][1..] == ["..."]; }
    StoreRows(r1, '/');
  }

  lemma TestPacksLarge()
    ensures StoreImage(".#./..#/###") == LargePattern && StoreImage("#..#/..../..../#..#") == LargeResult
  {
    var p2 := LargePattern;
    assert Join(p2, '/') == ".#./..#/###" by { assert p2[1..] == ["..#", "###"] && p2[1..][1..] == ["###"]; }
    StoreRows(p2, '/');
    var r2 := LargeResult;
    assert Join(r2, '/') == "#..#/..../..../#..#" by {
      assert r2[1..] == ["....", "....", "#..#"] && r2[1..][1..] == ["....", "#..#"] && r2[1..][1..][1..] == ["#..#"];
    }
    StoreRows(r2, '/');
  }

  /** NewFractalArt reads the test rules text into TestRules. */
  lemma ExampleRules(text: string)
    requires text == TestRulesText
    ensures RulesOf(text) == Some(TwoRules(SmallPattern, SmallResult, LargePattern, LargeResult))
  {
    var lines := [TestLine1, TestLine2, ""];
    TestLines(text);
    TestMatch1();
    TestMatch2();
    TestPacksSmall();
    TestPacksLarge();
    var m1 := AddRule(map[], Permutations(SmallPattern), SmallResult);
    assert RulesFrom(map[], lines) == RulesFrom(m1, lines[1..]);
    assert lines[1..][1..] == [""];
    assert RulesFrom(m1, lines[1..]) == RulesFrom(TwoRules(SmallPattern, SmallResult, LargePattern, LargeResult), [""]);
    assert [""][1..] == [];
  }

  /** The 4 x 4 result written out with newlines, and its pixels that are on. */
  lemma LargeResultWritten()
    ensures StringImage(LargeResult, true) == "#..#\n....\n....\n#..#\n"
    ensures PixelsOn(LargeResult, 4) == 4
  {
    var img := LargeResult;
    StringImageRows(img, true);
    var lines := Lines(img, true);
    assert lines[0] == "#..#\n" && lines[1] == "....\n" && lines[2] == "....\n" && lines[3] == "#..#\n";
    assert lines == ["#..#\n", "....\n", "....\n", "#..#\n"];
    assert lines[1..] == ["....\n", "....\n", "#..#\n"] && lines[1..][1..] == ["....\n", "#..#\n"];
    assert lines[1..][1..][1..] == ["#..#\n"] && ["#..#\n"][1..] == [];
  }

  /** Two rules of square images keep every stored result square. */
  lemma TwoRulesSquare(p1: Image, r1: Image, p2: Image, r2: Image)
    requires IsSquare(p1) && IsSquare(r1) && IsSquare(p2) && IsSquare(r2)
    ensures RulesSquare(TwoRules(p1, r1, p2, r2))
  {
    assert RulesSquare(AddRule(map[], Permutations(p1), r1));
  }

  /** The quarter turns of the small pattern. */
  const SmallTurns: seq<Image> := [["..", ".#"], [".#", ".."], ["#.", ".."], ["..", "#."]]

  /** What the ZoomAndEnhance tests need of the rules: every quarter turn of the small pattern
      maps to the small result and the large pattern to the large result. */
  predicate TestRulesHold(rules: map<string, Image>)
  {
    RulesSquare(rules)
    && (forall chunk :: chunk in SmallTurns ==>
          StringImage(chunk, false) in rules && rules[StringImage(chunk, false)] == SmallResult)
    && StringImage(LargePattern, false) in rules && rules[StringImage(LargePattern, false)] == LargeResult
  }

  /** The large pattern finds the large result once both rules are stored. */
  lemma SecondOfTwoRules(p1: Image, r1: Image, p2: Image, r2: Image)
    requires IsSquare(p1) && IsSquare(p2)
    ensures StringImage(p2, false) in TwoRules(p1, r1, p2, r2)
      && TwoRules(p1, r1, p2, r2)[StringImage(p2, false)] == r2
  {
    assert Permutations(p2)[0] == p2;
  }

  /** The two test rules have what the ZoomAndEnhance tests need. */
  lemma TwoRulesHold(p1: Image, r1: Image, p2: Image, r2: Image)
    requires p1 == SmallPattern && r1 == SmallResult && p2 == LargePattern && r2 == LargeResult
    ensures TestRulesHold(TwoRules(p1, r1, p2, r2))
  {
    TwoRulesSquare(p1, r1, p2, r2);
    TurnsOfSmall(p1);
    forall chunk | chunk in SmallTurns
      ensures StringImage(chunk, false) in TwoRules(p1, r1, p2, r2)
        && TwoRules(p1, r1, p2, r2)[StringImage(chunk, false)] == r1
    {
      PermutationSymmetric(p1, chunk);
      FirstOfTwoRules(p1, r1, p2, r2, chunk);
    }
    SecondOfTwoRules(p1, r1, p2, r2);
  }

  /** NewFractalArt on the test rules text stores rules with what the ZoomAndEnhance tests need. */
  lemma ExampleTestRules(text: string)
    requires text == TestRulesText
    ensures RulesOf(text).Some? && TestRulesHold(RulesOf(text).value)
  {
    ExampleRules(text);
    TwoRulesHold(SmallPattern, SmallResult, LargePattern, LargeResult);
  }


  /** ZoomAndEnhance on the starting pattern (InitialRows) with the test rules: the one 3 x 3
      chunk is the large pattern itself, so the image becomes "#..#\n....\n....\n#..#\n" with 4 pixels on. */
  lemma ExampleFirstZoom(img: Image, rules: map<string, Image>)
    requires img == LargePattern && TestRulesHold(rules)
    ensures Enhanced(img, rules) == Some(LargeResult)
    ensures StringImage(LargeResult, true) == "#..#\n....\n....\n#..#\n"
    ensures PixelsOn(LargeResult, 4) == 4
  {
    LargeResultWritten();
    assert ChunkSizes(3) == Some((3, 4));
    EnhancedOneChunk(img, rules);
  }

  /** The quarter turns of the small pattern "../.#", one after another. */
  lemma TurnsOfSmall(p: Image)
    requires p == SmallPattern
    ensures Rotations(p) == [["..", ".#"], [".#", ".."], ["#.", ".."], ["..", "#."]]
  {
    Equal2(Rotate(p), [".#", ".."]);
    Equal2(Rotate([".#", ".."]), ["#.", ".."]);
    Equal2(Rotate(["#.", ".."]), ["..", "#."]);
  }

  /** Storing rules for patterns of another size leaves an image's rule as it was. */
  lemma AddRuleOtherSize(rules: map<string, Image>, perms: seq<Image>, result: Image, img: Image)
    requires IsSquare(img) && forall i :: 0 <= i < |perms| ==> IsSquare(perms[i]) && |perms[i]| != |img|
    ensures var key := StringImage(img, false);
      (key in AddRule(rules, perms, result) <==> key in rules)
      && (key in rules ==> AddRule(rules, perms, result)[key] == rules[key])
  {
    forall i | 0 <= i < |perms|
      ensures StringImage(img, false) != StringImage(perms[i], false)
    {
      var a, b := |img|, |perms[i]|;
      if a < b {
        MulLe(a, b, a);
        MulLe(a, b, b);
        assert a * a < b * b;
      } else {
        MulLe(b, a, b);
        MulLe(b, a, a);
        assert b * b < a * a;
      }
    }
  }

  /** With two rules stored, a chunk of another size than the second pattern finds the first
      result when the first pattern is one of its rotations or mirror images. */
  lemma FirstOfTwoRules(p1: Image, r1: Image, p2: Image, r2: Image, chunk: Image)
    requires IsSquare(p1) && IsSquare(p2) && IsSquare(chunk) && p1 in Permutations(chunk) && |p2| != |chunk|
    ensures StringImage(chunk, false) in TwoRules(p1, r1, p2, r2)
      && TwoRules(p1, r1, p2, r2)[StringImage(chunk, false)] == r1
  {
    RuleMatches(map[], p1, r1, chunk);
    AddRuleOtherSize(AddRule(map[], Permutations(p1), r1), Permutations(p2), r2, chunk);
  }

  /** The 2 x 2 window of an image at (r, c). */
  lemma Pluck2(img: Image, r: nat, c: nat)
    requires IsSquare(img) && r + 2 <= |img| && c + 2 <= |img|
    ensures Pluck(img, r, c, 2) == [[img[r][c], img[r][c + 1]], [img[r + 1][c], img[r + 1][c + 1]]]
  {
    Equal2(Pluck(img, r, c, 2), [[img[r][c], img[r][c + 1]], [img[r + 1][c], img[r + 1][c + 1]]]);
  }

  /** Each of the four 2 x 2 chunks of the 4 x 4 result is a quarter turn of the small pattern. */
  lemma SecondZoomChunk(img: Image, rules: map<string, Image>, cr: nat, cc: nat)
    requires img == LargeResult && TestRulesHold(rules) && cr < 2 && cc < 2
    ensures ChunkResult(img, rules, 2, 3, 2, cr, cc) == Some(SmallResult)
  {
    var chunk := Pluck(img, cr * 2, cc * 2, 2);
    Pluck2(img, cr * 2, cc * 2);
    if cr == 0 && cc == 0 {
      assert chunk == ["#.", ".."];
    } else if cr == 0 {
      assert chunk == [".#", ".."];
    } else if cc == 0 {
      assert chunk == ["..", "#."];
    } else {
      assert chunk == ["..", ".#"];
    }
    assert chunk in SmallTurns;
  }

  /** The image made of k x k copies of t. */
  function Tiled(t: Image, k: nat): (img: Image)
    requires IsSquare(t)
    ensures IsSquare(img) && |img| == k * |t|
  {
    var n := |t|;
    seq(k * n, i requires 0 <= i < k * n => seq(k * n, j requires 0 <= j < k * n => t[i % n][j % n]))
  }

  /** When every chunk finds the same rule result t, the enhanced image is copies of t. */
  lemma EnhancedUniform(img: Image, rules: map<string, Image>, c: nat, n: nat, k: nat, t: Image)
    requires IsSquare(img) && RulesSquare(rules) && IsSquare(t)
    requires ChunkSizes(|img|) == Some((c, n)) && |t| == n && k == |img| / c && |img| == k * c
    requires forall cr, cc :: 0 <= cr < k && 0 <= cc < k ==> ChunkResult(img, rules, c, n, k, cr, cc) == Some(t)
    ensures Enhanced(img, rules) == Some(Tiled(t, k))
  {
    assert AllChunksMatch(img, rules, c, n, k);
    var v := Enhanced(img, rules).value;
    var w := Tiled(t, k);
    forall i, j | 0 <= i < k * n && 0 <= j < k * n
      ensures v[i][j] == w[i][j]
    {
      DivMod(i, n, k);
      DivMod(j, n, k);
    }
    SquareEq(v, w);
  }

  const SixBySix: Image := ["##.##.", "#..#..", "......", "##.##.", "#..#..", "......"]

  /** The pixels of the 6 x 6 image that are on. */
  lemma SixBySixPixels()
    ensures PixelsOn(SixBySix, 6) == 12
  {
  }

  lemma ConcatSix(a: string, b: string, c: string, d: string, e: string, f: string)
    ensures Concat([a, b, c, d, e, f]) == a + (b + (c + (d + (e + f))))
  {
    var rows := [a, b, c, d, e, f];
    assert rows[1..] == [b, c, d, e, f] && rows[1..][1..] == [c, d, e, f];
    assert rows[1..][1..][1..] == [d, e, f] && rows[1..][1..][1..][1..] == [e, f];
    assert rows[1..][1..][1..][1..][1..] == [f] && [f][1..] == [];
    assert Concat([f]) == f + [] == f;
    assert Concat([e, f]) == e + f;
    assert Concat([d, e, f]) == d + (e + f);
    assert Concat([c, d, e, f]) == c + (d + (e + f));
    assert Concat([b, c, d, e, f]) == b + (c + (d + (e + f)));
  }

  /** The 6 x 6 image written out with newlines. */
  lemma SixBySixWritten()
    ensures StringImage(SixBySix, true) == "##.##.\n" + ("#..#..\n" + ("......\n" + ("##.##.\n" + ("#..#..\n" + "......\n"))))
  {
    var img := SixBySix;
    StringImageRows(img, true);
    var lines := Lines(img, true);
    var l0, l1, l2 := "##.##.\n", "#..#..\n", "......\n";
    assert lines[0] == l0 && lines[1] == l1 && lines[2] == l2;
    assert lines[3] == l0 && lines[4] == l1 && lines[5] == l2;
    assert lines == [l0, l1, l2, l0, l1, l2];
    ConcatSix(l0, l1, l2, l0, l1, l2);
  }

  /** Two by two copies of the small result make the 6 x 6 image. */
  lemma TiledSmall()
    ensures Tiled(SmallResult, 2) == SixBySix
  {
    Equal6(Tiled(SmallResult, 2), SixBySix);
  }

  /** A second ZoomAndEnhance: all four 2 x 2 chunks match the small rule, so the image becomes
      "##.##.\n#..#..\n......\n##.##.\n#..#..\n......\n" with 12 pixels on. */
  lemma ExampleSecondZoom(img: Image, rules: map<string, Image>)
    requires img == LargeResult && TestRulesHold(rules)
    ensures Enhanced(img, rules) == Some(SixBySix)
    ensures StringImage(SixBySix, true) == "##.##.\n" + ("#..#..\n" + ("......\n" + ("##.##.\n" + ("#..#..\n" + "......\n"))))
    ensures PixelsOn(SixBySix, 6) == 12
  {
    SixBySixWritten();
    SixBySixPixels();
    assert ChunkSizes(4) == Some((2, 3));
    forall cr, cc | 0 <= cr < 2 && 0 <= cc < 2
      ensures ChunkResult(img, rules, 2, 3, 2, cr, cc) == Some(SmallResult)
    {
      SecondZoomChunk(img, rules, cr, cc);
    }
    EnhancedUniform(img, rules, 2, 3, 2, SmallResult);
    TiledSmall();
  }
}
