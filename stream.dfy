// The stream scorer of day 9: nested `{...}` groups, `<...>` garbage in which
// `!` cancels the next character, and a score of depth summed over all groups.
module Stream {

  // ---------------------------------------------------------------------------
  // parseGarbage

  /**
   * Where the garbage scan starting at j stops: the index of the first `>`
   * not cancelled by a `!`, or -1 when the stream ends first.
   */
  function GarbageClose(s: string, j: nat): (r: int)
    ensures r == -1 || (j <= r < |s| && s[r] == '>')
    decreases |s| - j
  {
    if j >= |s| then -1
    else if s[j] == '>' then j
    else if s[j] == '!' then GarbageClose(s, j + 2)
    else GarbageClose(s, j + 1)
  }

  /** parseGarbage: the index of the closing `>`, or -1 for unterminated garbage. */
  method ParseGarbage(stream: string) returns (length: int)
    requires |stream| > 0 && stream[0] == '<'
    ensures length == GarbageClose(stream, 1)
  {
    var jbyte := 1;
    while jbyte < |stream|
      invariant 1 <= jbyte <= |stream| + 1
      invariant GarbageClose(stream, jbyte) == GarbageClose(stream, 1)
      decreases |stream| - jbyte
    {
      if stream[jbyte] == '>' {
        return jbyte;
      } else if stream[jbyte] == '!' {
        jbyte := jbyte + 2;
      } else {
        jbyte := jbyte + 1;
      }
    }
    return -1;
  }

  // ---------------------------------------------------------------------------
  // parseGroup

  /**
   * What parseGroup does with a stream: it returns (score, index of the
   * matching `}`), returns (-1, -1) when the stream ends inside the group, or
   * never returns. The last happens when a nested group or garbage is
   * unterminated: the loop then adds 0 to its index and parses the same
   * child again forever.
   */
  datatype Outcome = Closed(score: int, length: nat) | Unclosed | Diverges

  /** The outcome of parseGroup on a stream that starts with `{`, at the given depth. */
  function GroupOutcome(stream: string, depth: int): (r: Outcome)
    requires |stream| > 0 && stream[0] == '{'
    ensures r.Closed? ==> 1 <= r.length < |stream| && stream[r.length] == '}'
    decreases |stream|, |stream| + 1
  {
    GroupScan(stream, depth, 1, depth)
  }

  /** The loop of parseGroup from index j, with the score gathered so far. */
  function GroupScan(stream: string, depth: int, j: nat, score: int): (r: Outcome)
    requires 1 <= j <= |stream| && stream[0] == '{'
    ensures r.Closed? ==> j <= r.length < |stream| && stream[r.length] == '}'
    decreases |stream|, |stream| - j
  {
    if j == |stream| then Unclosed
    else if stream[j] == '}' then Closed(score, j)
    else if stream[j] == '{' then
      match GroupOutcome(stream[j..], depth + 1)
      case Closed(childScore, childLen) => GroupScan(stream, depth, j + childLen + 1, score + childScore)
      case _ => Diverges
    else if stream[j] == '<' then
      var garbageLen := GarbageClose(stream[j..], 1);
      if garbageLen == -1 then Diverges
      else GroupScan(stream, depth, j + garbageLen + 1, score)
    else GroupScan(stream, depth, j + 1, score)
  }

  /** The pair parseGroup returns for an outcome that returns. */
  function Returned(o: Outcome): (int, int)
  {
    match o
    case Closed(score, length) => (score, length as int)
    case _ => (-1, -1)
  }

  /** parseGroup; it panics unless the stream starts with `{` and must return. */
  method ParseGroup(stream: string, depth: int) returns (score: int, length: int)
    requires |stream| > 0 && stream[0] == '{'
    requires !GroupOutcome(stream, depth).Diverges?
    ensures (score, length) == Returned(GroupOutcome(stream, depth))
    decreases |stream|
  {
    score := depth;
    var jbyte := 1;
    while jbyte < |stream|
      invariant 1 <= jbyte <= |stream|
      invariant GroupScan(stream, depth, jbyte, score) == GroupOutcome(stream, depth)
      decreases |stream| - jbyte
    {
      if stream[jbyte] == '}' {
        return score, jbyte;
      } else if stream[jbyte] == '{' {
        var childScore, childLen := ParseGroup(stream[jbyte..], depth + 1);
        score := score + childScore;
        jbyte := jbyte + childLen + 1;
      } else if stream[jbyte] == '<' {
        var garbageLen := ParseGarbage(stream[jbyte..]);
        jbyte := jbyte + garbageLen + 1;
      } else {
        jbyte := jbyte + 1;
      }
    }
    return -1, -1;
  }

  /** StreamProcessor.score: the score of the outermost group, at depth 1. */
  method Score(stream: string) returns (score: int)
    requires |stream| > 0 && stream[0] == '{'
    requires !GroupOutcome(stream, 1).Diverges?
    ensures score == Returned(GroupOutcome(stream, 1)).0
  {
    var length;
    score, length := ParseGroup(stream, 1);
  }

  // ---------------------------------------------------------------------------
  // The grammar the scorer reads, and its rendering

  /** A character inside garbage: an ordinary one, or one cancelled by `!`. */
  datatype GarbageChar = Plain(c: char) | Cancelled(c: char)

  /** A group holds child groups, garbage, and any other characters (such as commas). */
  datatype Group = Group(items: seq<Item>)
  datatype Item = Child(group: Group) | Garbage(content: seq<GarbageChar>) | Other(c: char)

  predicate GarbageOk(content: seq<GarbageChar>)
  {
    forall i :: 0 <= i < |content| ==> content[i].Plain? ==> content[i].c != '>' && content[i].c != '!'
  }

  predicate GroupOk(g: Group)
    decreases g
  {
    ItemsOk(g.items)
  }

  predicate ItemsOk(items: seq<Item>)
    decreases items
  {
    items != [] ==> ItemOk(items[0]) && ItemsOk(items[1..])
  }

  predicate ItemOk(it: Item)
    decreases it
  {
    match it
    case Child(g) => GroupOk(g)
    case Garbage(content) => GarbageOk(content)
    case Other(c) => c != '{' && c != '}' && c != '<'
  }

  function RenderGarbageChars(content: seq<GarbageChar>): string
  {
    if content == [] then []
    else
      var first := match content[0] case Plain(c) => [c] case Cancelled(c) => ['!', c];
      first + RenderGarbageChars(content[1..])
  }

  function RenderGarbage(content: seq<GarbageChar>): (s: string)
    ensures |s| >= 2 && s[0] == '<'
  {
    ['<'] + RenderGarbageChars(content) + ['>']
  }

  function RenderGroup(g: Group): (s: string)
    ensures |s| >= 2 && s[0] == '{'
    decreases g
  {
    ['{'] + RenderItems(g.items) + ['}']
  }

  function RenderItems(items: seq<Item>): string
    decreases items
  {
    if items == [] then []
    else RenderItem(items[0]) + RenderItems(items[1..])
  }

  function RenderItem(it: Item): string
    decreases it
  {
    match it
    case Child(g) => RenderGroup(g)
    case Garbage(content) => RenderGarbage(content)
    case Other(c) => [c]
  }

  /** A group at depth d scores d plus what its child groups score at depth d + 1. */
  function GroupScore(g: Group, depth: int): int
    decreases g
  {
    depth + ItemsScore(g.items, depth + 1)
  }

  function ItemsScore(items: seq<Item>, depth: int): int
    decreases items
  {
    if items == [] then 0 else ItemScore(items[0], depth) + ItemsScore(items[1..], depth)
  }

  function ItemScore(it: Item, depth: int): int
    decreases it
  {
    match it
    case Child(g) => GroupScore(g, depth)
    case _ => 0
  }

  // ---------------------------------------------------------------------------
  // Reading what was rendered

  /** `piece` occurs in `s` at index j, character by character. */
  predicate OccursAt(s: string, j: nat, piece: string)
    decreases piece
  {
    j + |piece| <= |s| && (piece != [] ==> s[j] == piece[0] && OccursAt(s, j + 1, piece[1..]))
  }

  /** A slice of `s` occurs in `s` where it was taken. */
  lemma {:induction false} OccursOfSlice(s: string, j: nat, piece: string)
    requires j + |piece| <= |s| && s[j..j + |piece|] == piece
    ensures OccursAt(s, j, piece)
    decreases piece
  {
    if piece != [] {
      assert s[j] == s[j..j + |piece|][0];
      assert s[j + 1..j + 1 + |piece[1..]|] == piece[1..];
      OccursOfSlice(s, j + 1, piece[1..]);
    }
  }

  lemma {:induction false} OccursSplit(s: string, j: nat, a: string, b: string)
    requires OccursAt(s, j, a + b)
    ensures OccursAt(s, j, a) && OccursAt(s, j + |a|, b)
    decreases a
  {
    if a == [] {
      assert a + b == b;
    } else {
      assert (a + b)[0] == a[0];
      assert (a + b)[1..] == a[1..] + b;
      OccursSplit(s, j + 1, a[1..], b);
    }
  }

  lemma {:induction false} OccursAtIndex(s: string, j: nat, piece: string, k: nat)
    requires OccursAt(s, j, piece) && k < |piece|
    ensures s[j + k] == piece[k]
    decreases k
  {
    if k > 0 {
      OccursAtIndex(s, j + 1, piece[1..], k - 1);
    }
  }

  lemma {:induction false} OccursSuffix(s: string, j: nat, piece: string)
    requires OccursAt(s, j, piece)
    ensures s[j..] == piece + s[j + |piece|..]
    decreases piece
  {
    if piece != [] {
      OccursSuffix(s, j + 1, piece[1..]);
      assert s[j..] == [s[j]] + s[j + 1..];
      assert piece == [piece[0]] + piece[1..];
    }
  }

  /** The garbage scan runs over rendered garbage characters to the `>` after them. */
  lemma {:induction false} GarbageCharsScan(s: string, j: nat, content: seq<GarbageChar>)
    requires GarbageOk(content)
    requires OccursAt(s, j, RenderGarbageChars(content) + ['>'])
    ensures GarbageClose(s, j) == j + |RenderGarbageChars(content)|
    decreases content
  {
    if content == [] {
      OccursAtIndex(s, j, RenderGarbageChars(content) + ['>'], 0);
    } else {
      var width := GarbageCons(s, j, content);
      GarbageCharsScan(s, j + width, content[1..]);
    }
  }

  /** Rendered garbage characters split into the first one, `width` characters wide, and the others. */
  lemma GarbageCons(s: string, j: nat, content: seq<GarbageChar>) returns (width: nat)
    requires content != [] && GarbageOk(content)
    requires OccursAt(s, j, RenderGarbageChars(content) + ['>'])
    ensures GarbageOk(content[1..])
    ensures OccursAt(s, j + width, RenderGarbageChars(content[1..]) + ['>'])
    ensures |RenderGarbageChars(content)| == width + |RenderGarbageChars(content[1..])|
    ensures content[0].Plain? ==> width == 1 && s[j] != '>' && s[j] != '!'
    ensures content[0].Cancelled? ==> width == 2 && s[j] == '!'
  {
    var tail := RenderGarbageChars(content[1..]);
    assert GarbageOk(content[1..]) by {
      forall i | 0 <= i < |content| - 1
        ensures content[1..][i].Plain? ==> content[1..][i].c != '>' && content[1..][i].c != '!'
      {
        assert content[1..][i] == content[i + 1];
      }
    }
    var head := match content[0] case Plain(c) => [c] case Cancelled(c) => ['!', c];
    assert RenderGarbageChars(content) + ['>'] == head + (tail + ['>']);
    OccursSplit(s, j, head, tail + ['>']);
    OccursAtIndex(s, j, head, 0);
    width := |head|;
  }

  /** parseGarbage on rendered garbage returns the index of its closing `>`, whatever follows. */
  lemma GarbageRoundTrip(content: seq<GarbageChar>, rest: string)
    requires GarbageOk(content)
    ensures GarbageClose(RenderGarbage(content) + rest, 1) == |RenderGarbage(content)| - 1
  {
    var s := RenderGarbage(content) + rest;
    var chars := RenderGarbageChars(content);
    assert s[1..1 + |chars| + 1] == chars + ['>'];
    OccursOfSlice(s, 1, chars + ['>']);
    GarbageCharsScan(s, 1, content);
  }

  /** parseGroup on a rendered group returns its score and the index of its closing `}`. */
  lemma {:induction false} GroupRoundTrip(g: Group, depth: int, rest: string)
    requires GroupOk(g)
    ensures var s := RenderGroup(g) + rest;
            GroupOutcome(s, depth) == Closed(GroupScore(g, depth), |RenderGroup(g)| - 1)
    decreases g, 2
  {
    var s := RenderGroup(g) + rest;
    var inner := RenderItems(g.items);
    assert s[1..1 + |inner|] == inner;
    OccursOfSlice(s, 1, inner);
    ItemsScan(s, depth, 1, depth, g.items, 1 + |inner|, GroupScore(g, depth));
    assert s[1 + |inner|] == '}';
  }

  /**
   * The group loop runs over rendered items, adding their scores: it reaches
   * index jEnd, just past them, with scoreEnd gathered.
   */
  lemma {:induction false} ItemsScan(s: string, depth: int, j: nat, score: int, items: seq<Item>, jEnd: nat, scoreEnd: int)
    requires 1 <= j && |s| > 0 && s[0] == '{'
    requires ItemsOk(items)
    requires OccursAt(s, j, RenderItems(items)) && jEnd < |s|
    requires jEnd == j + |RenderItems(items)| && scoreEnd == score + ItemsScore(items, depth + 1)
    ensures GroupScan(s, depth, j, score) == GroupScan(s, depth, jEnd, scoreEnd)
    decreases items, 1
  {
    if items != [] {
      var width, gain := FirstItemScan(s, depth, j, score, items);
      ItemsScan(s, depth, j + width, score + gain, items[1..], jEnd, scoreEnd);
    }
  }

  /**
   * The group loop steps over the first of the rendered items, `width`
   * characters, gaining `gain`; the others follow.
   */
  lemma {:induction false} FirstItemScan(s: string, depth: int, j: nat, score: int, items: seq<Item>) returns (width: nat, gain: int)
    requires 1 <= j && |s| > 0 && s[0] == '{'
    requires items != [] && ItemsOk(items)
    requires OccursAt(s, j, RenderItems(items)) && j + |RenderItems(items)| < |s|
    ensures |RenderItems(items)| == width + |RenderItems(items[1..])|
    ensures GroupScan(s, depth, j, score) == GroupScan(s, depth, j + width, score + gain)
    ensures ItemsOk(items[1..]) && OccursAt(s, j + width, RenderItems(items[1..]))
    ensures ItemsScore(items, depth + 1) == gain + ItemsScore(items[1..], depth + 1)
    decreases items, 0
  {
    width, gain := ItemsCons(s, j, depth + 1, items);
    ItemScan(s, depth, j, score, items[0], j + width, score + gain);
  }

  /** Rendered items split into the first item, `width` characters scoring `gain`, and the others. */
  lemma ItemsCons(s: string, j: nat, depth: int, items: seq<Item>) returns (width: nat, gain: int)
    requires items != []
    requires ItemsOk(items)
    requires OccursAt(s, j, RenderItems(items))
    ensures width == |RenderItem(items[0])| && gain == ItemScore(items[0], depth)
    ensures ItemOk(items[0]) && ItemsOk(items[1..])
    ensures OccursAt(s, j, RenderItem(items[0]))
    ensures OccursAt(s, j + width, RenderItems(items[1..]))
    ensures |RenderItems(items)| == width + |RenderItems(items[1..])|
    ensures ItemsScore(items, depth) == gain + ItemsScore(items[1..], depth)
  {
    OccursSplit(s, j, RenderItem(items[0]), RenderItems(items[1..]));
    width, gain := |RenderItem(items[0])|, ItemScore(items[0], depth);
  }

  /** The group loop steps over one rendered item, to jNext, and adds its score, to scoreNext. */
  lemma {:induction false} ItemScan(s: string, depth: int, j: nat, score: int, it: Item, jNext: nat, scoreNext: int)
    requires 1 <= j && |s| > 0 && s[0] == '{'
    requires ItemOk(it) && OccursAt(s, j, RenderItem(it)) && jNext < |s|
    requires jNext == j + |RenderItem(it)| && scoreNext == score + ItemScore(it, depth + 1)
    ensures GroupScan(s, depth, j, score) == GroupScan(s, depth, jNext, scoreNext)
    decreases it, 2
  {
    var piece := RenderItem(it);
    OccursSuffix(s, j, piece);
    OccursAtIndex(s, j, piece, 0);
    match it
    case Child(g) =>
      GroupRoundTrip(g, depth + 1, s[j + |piece|..]);
    case Garbage(content) =>
      GarbageRoundTrip(content, s[j + |piece|..]);
    case Other(c) =>
  }

  // ---------------------------------------------------------------------------
  // Examples

  /** A `{}` at the front of a stream closes at index 1 and scores its depth. */
  lemma EmptyChild(s: string, depth: int)
    requires |s| >= 2 && s[0] == '{' && s[1] == '}'
    ensures GroupOutcome(s, depth) == Closed(depth, 1)
  {
  }

  /** `{}` is one group at depth 1. */
  lemma ExampleEmpty()
    ensures GroupOutcome("{}", 1) == Closed(1, 1)
  {
    EmptyChild("{}", 1);
  }

  /** `{{{}}}` scores 1 + 2 + 3. */
  lemma ExampleThreeDeep()
    ensures GroupOutcome("{{{}}}", 1) == Closed(6, 5)
  {
    EmptyChild("{}}}", 3);
    assert "{{}}}"[1..] == "{}}}";
    assert GroupOutcome("{{}}}", 2) == Closed(5, 3);
    assert "{{{}}}"[1..] == "{{}}}";
  }

  /** `{{},{}}` scores 1 + 2 + 2. */
  lemma ExampleSiblings()
    ensures GroupOutcome("{{},{}}", 1) == Closed(5, 6)
  {
    var s := "{{},{}}";
    EmptyChild(s[1..], 2);
    EmptyChild(s[4..], 2);
  }

  /** The middle group of `{{{},{},{{}}}}`, read from index 1: 2 + 3 + 3 + 3 + 4. */
  lemma ExampleNestedInner()
    ensures GroupOutcome("{{},{},{{}}}}", 2) == Closed(15, 11)
  {
    var s := "{{},{},{{}}}}";
    EmptyChild(s[1..], 3);
    EmptyChild(s[4..], 3);
    ExampleNestedLast();
    assert s[7..] == "{{}}}}";
  }

  /** The last child of that group, read from its own `{`: 3 + 4. */
  lemma ExampleNestedLast()
    ensures GroupOutcome("{{}}}}", 3) == Closed(7, 3)
  {
  }

  /** `{{{},{},{{}}}}` scores 1 + 2 + 3 + 3 + 3 + 4. */
  lemma ExampleNested()
    ensures GroupOutcome("{{{},{},{{}}}}", 1) == Closed(16, 13)
  {
    ExampleNestedInner();
    assert "{{{},{},{{}}}}"[1..] == "{{},{},{{}}}}";
  }

  /** An item in front of others renders, scores and is well formed item by item. */
  lemma ItemsPrepend(it: Item, rest: seq<Item>, depth: int)
    ensures RenderItems([it] + rest) == RenderItem(it) + RenderItems(rest)
    ensures ItemsScore([it] + rest, depth) == ItemScore(it, depth) + ItemsScore(rest, depth)
    ensures ItemsOk([it] + rest) == (ItemOk(it) && ItemsOk(rest))
  {
    assert ([it] + rest)[0] == it;
    assert ([it] + rest)[1..] == rest;
  }

  /**
   * A group of four comma-separated copies of an item: it renders as the
   * copies and scores its depth plus four times the item one level down.
   */
  lemma FourOfGroup(it: Item, depth: int) returns (g: Group)
    requires ItemOk(it)
    ensures GroupOk(g)
    ensures RenderGroup(g) == FourJoined(RenderItem(it))
    ensures GroupScore(g, depth) == depth + 4 * ItemScore(it, depth + 1)
  {
    var items := FourItems(it, depth + 1);
    g := Group(items);
    var r := RenderItem(it);
    assert RenderGroup(g) == ['{'] + (r + [','] + r + [','] + r + [','] + r) + ['}'];
  }

  /** Four comma-separated copies of an item, as items. */
  lemma FourItems(it: Item, d: int) returns (items: seq<Item>)
    requires ItemOk(it)
    ensures ItemsOk(items)
    ensures var r := RenderItem(it); RenderItems(items) == r + [','] + r + [','] + r + [','] + r
    ensures ItemsScore(items, d) == 4 * ItemScore(it, d)
  {
    var r := RenderItem(it);
    ItemsPrepend(it, [], d);
    var t3 := CommaThen(it, [it] + [], d);
    var t5 := CommaThen(it, t3, d);
    items := CommaThen(it, t5, d);
  }

  /** A comma and an item in front of well-formed items: rendered, scored and well formed piece by piece. */
  lemma CommaThen(it: Item, rest: seq<Item>, d: int) returns (items: seq<Item>)
    requires ItemOk(it) && ItemsOk(rest)
    ensures ItemsOk(items)
    ensures RenderItems(items) == RenderItem(it) + [','] + RenderItems(rest)
    ensures ItemsScore(items, d) == ItemScore(it, d) + ItemsScore(rest, d)
  {
    ItemsPrepend(Other(','), rest, d);
    ItemsPrepend(it, [Other(',')] + rest, d);
    items := [it] + ([Other(',')] + rest);
  }

  /** Garbage whose rendering is `text` is an item that renders as `text` and scores nothing. */
  lemma GarbageItem(content: seq<GarbageChar>, text: string) returns (it: Item)
    requires GarbageOk(content) && RenderGarbage(content) == text
    ensures ItemOk(it) && RenderItem(it) == text && ItemScore(it, 2) == 0
  {
    it := Garbage(content);
  }

  /** A group holding only garbage, rendered as `text`, scores its depth. */
  lemma GarbageChild(content: seq<GarbageChar>, text: string) returns (it: Item)
    requires GarbageOk(content) && ['{'] + RenderGarbage(content) + ['}'] == text
    ensures ItemOk(it) && RenderItem(it) == text && ItemScore(it, 2) == 2
  {
    var g := Group([Garbage(content)]);
    ItemsPrepend(Garbage(content), [], 3);
    assert g.items == [Garbage(content)] + [];
    it := Child(g);
  }

  /** Four copies of a piece, separated by commas, inside braces. */
  function FourJoined(t: string): (s: string)
    ensures |s| == 4 * |t| + 5
  {
    ['{'] + t + [','] + t + [','] + t + [','] + t + ['}']
  }

  /** A stream of four copies of an item scores its depth plus four times the item one level down. */
  lemma FourOutcome(it: Item, text: string, depth: int)
    requires ItemOk(it) && RenderItem(it) == text
    ensures GroupOutcome(FourJoined(text), depth) == Closed(depth + 4 * ItemScore(it, depth + 1), 4 * |text| + 4)
  {
    var g := FourOfGroup(it, depth);
    GroupRoundTrip(g, depth, "");
    assert RenderGroup(g) + "" == RenderGroup(g);
  }

  /** `{<a>,<a>,<a>,<a>}`: garbage scores nothing, so only the outer group counts. */
  lemma ExampleGarbage()
    ensures GroupOutcome(FourJoined("<a>"), 1) == Closed(1, 16)
  {
    var a := GarbageItem([Plain('a')], "<a>");
    FourOutcome(a, "<a>", 1);
  }

  /** `{{<ab>},{<ab>},{<ab>},{<ab>}}` scores 1 + 2 + 2 + 2 + 2: the garbage inside is skipped. */
  lemma ExampleGarbageInGroups()
    ensures GroupOutcome(FourJoined("{<ab>}"), 1) == Closed(9, 28)
  {
    var c := GarbageChild([Plain('a'), Plain('b')], "{<ab>}");
    FourOutcome(c, "{<ab>}", 1);
  }

  /** `{{<!!>},{<!!>},{<!!>},{<!!>}}` scores 9: each `!!` cancels itself and the garbage closes at `>`. */
  lemma ExampleCancelledBang()
    ensures GroupOutcome(FourJoined("{<!!>}"), 1) == Closed(9, 28)
  {
    var c := GarbageChild([Cancelled('!')], "{<!!>}");
    FourOutcome(c, "{<!!>}", 1);
  }

  /** Two runs of garbage characters are well formed and render one after the other. */
  lemma {:induction false} GarbageAppend(x: seq<GarbageChar>, y: seq<GarbageChar>)
    requires GarbageOk(x) && GarbageOk(y)
    ensures GarbageOk(x + y)
    ensures RenderGarbageChars(x + y) == RenderGarbageChars(x) + RenderGarbageChars(y)
    decreases x
  {
    if x == [] {
      assert x + y == y;
    } else {
      assert (x + y)[0] == x[0];
      assert (x + y)[1..] == x[1..] + y;
      assert GarbageOk(x[1..]) by {
        forall i | 0 <= i < |x| - 1
          ensures x[1..][i].Plain? ==> x[1..][i].c != '>' && x[1..][i].c != '!'
        {
          assert x[1..][i] == x[i + 1];
        }
      }
      GarbageAppend(x[1..], y);
    }
  }

  /** An outer group holding a single group whose only item is garbage rendered as `text`. */
  function NestedGarbage(text: string): string
  {
    ['{', '{'] + text + ['}', '}']
  }

  /** A stream of one group holding one garbage-only group scores 1 + 2. */
  lemma NestedGarbageOutcome(content: seq<GarbageChar>, text: string)
    requires GarbageOk(content) && RenderGarbage(content) == text
    ensures GroupOutcome(NestedGarbage(text), 1) == Closed(3, |text| + 3)
  {
    var child := GarbageChild(content, ['{'] + text + ['}']);
    ItemsPrepend(child, [], 2);
    assert [child] + [] == [child];
    GroupRoundTrip(Group([child]), 1, "");
    assert RenderGroup(Group([child])) + "" == NestedGarbage(text);
  }

  /** `<a!>},{`, its `>` cancelled, as garbage characters. */
  lemma CancelledChunk() returns (chunk: seq<GarbageChar>)
    ensures GarbageOk(chunk) && RenderGarbageChars(chunk) == "a!>},{<"
  {
    chunk := [Plain('a'), Cancelled('>'), Plain('}'), Plain(','), Plain('{'), Plain('<')];
  }

  /** Three copies of a run of garbage characters, then another run, as garbage. */
  lemma ThriceThen(chunk: seq<GarbageChar>, tail: seq<GarbageChar>) returns (content: seq<GarbageChar>)
    requires GarbageOk(chunk) && GarbageOk(tail)
    ensures GarbageOk(content)
    ensures var c := RenderGarbageChars(chunk);
            RenderGarbage(content) == ['<'] + c + c + c + RenderGarbageChars(tail) + ['>']
  {
    GarbageAppend(chunk, chunk);
    GarbageAppend(chunk + chunk, chunk);
    GarbageAppend(chunk + chunk + chunk, tail);
    content := chunk + chunk + chunk + tail;
  }

  /** The garbage of the last test stream: three cancelled chunks, then `ab`. */
  lemma CancelledGarbage() returns (content: seq<GarbageChar>)
    ensures GarbageOk(content) && RenderGarbage(content) == "<a!>},{<a!>},{<a!>},{<ab>"
  {
    var chunk := CancelledChunk();
    var tail := [Plain('a'), Plain('b')];
    assert RenderGarbageChars(tail) == "ab";
    content := ThriceThen(chunk, tail);
    CancelledText();
  }

  lemma CancelledText()
    ensures "<a!>},{<a!>},{<a!>},{<ab>" == ['<'] + "a!>},{<" + "a!>},{<" + "a!>},{<" + "ab" + ['>']
  {
  }

  /**
   * `{{<a!>},{<a!>},{<a!>},{<ab>}}` scores 3: every `>` but the last is
   * cancelled, so one garbage runs from the first `<` to the last `>` and
   * only two groups remain, at depths 1 and 2.
   */
  lemma ExampleCancelled()
    ensures GroupOutcome(NestedGarbage("<a!>},{<a!>},{<a!>},{<ab>"), 1) == Closed(3, 28)
  {
    var content := CancelledGarbage();
    NestedGarbageOutcome(content, "<a!>},{<a!>},{<a!>},{<ab>");
  }

  /** The streams above, written out as the test writes them. */
  lemma StreamGarbage()
    ensures FourJoined("<a>") == "{<a>,<a>,<a>,<a>}"
  {
  }

  lemma StreamGarbageInGroups()
    ensures FourJoined("{<ab>}") == "{{<ab>},{<ab>},{<ab>},{<ab>}}"
  {
  }

  lemma StreamCancelledBang()
    ensures FourJoined("{<!!>}") == "{{<!!>},{<!!>},{<!!>},{<!!>}}"
  {
  }

  lemma StreamCancelled()
    ensures NestedGarbage("<a!>},{<a!>},{<a!>},{<ab>") == "{{<a!>},{<a!>},{<a!>},{<ab>}}"
  {
  }

  /** Unterminated input: a bare `{` returns (-1, -1); an unclosed child or garbage never returns. */
  lemma ExampleUnterminated()
    ensures GroupOutcome("{", 1) == Unclosed
    ensures GroupOutcome("{{", 1) == Diverges
    ensures GroupOutcome("{<a", 1) == Diverges
    ensures GarbageClose("<a!>", 1) == -1
  {
    assert "{{"[1..] == "{";
    assert "{<a"[1..] == "<a";
  }
}
