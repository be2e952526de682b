// The magnetic bridges of day 24: components with two ports are chained so that
// each one's port matches the previous one's free port, starting from a given
// port; the builder lists every such bridge and picks the strongest or longest.
module Bridges {
  import opened Common

  /** A component and its two ports, as `BridgeComponent.builder` reads "a/b". */
  datatype Component = Component(left: int, right: int)

  /** A bridge: its components in chain order. */
  type Bridge = seq<Component>

  /** The sum of a component's ports. */
  function Strength(c: Component): (s: int)
    ensures s == c.left + c.right
  {
    c.left + c.right
  }

  /** `match?`: one of the ports has the value. */
  predicate Matches(c: Component, value: int)
  {
    c.left == value || c.right == value
  }

  /** `other_plug`: the port opposite `value`, or the "no match" raise. */
  function OtherPlug(c: Component, value: int): (r: Result<int>)
    ensures r.Ok? <==> Matches(c, value)
    ensures r.Ok? ==> (c.left == value && r.value == c.right) || (c.left != value && c.right == value && r.value == c.left)
  {
    if !Matches(c, value) then Err("no match")
    else if c.left == value then Ok(c.right)
    else Ok(c.left)
  }

  /** Looking up the other port of the other port leads back to the value. */
  lemma OtherPlugReturns(c: Component, value: int)
    requires Matches(c, value)
    ensures Matches(c, OtherPlug(c, value).value)
    ensures OtherPlug(c, OtherPlug(c, value).value) == Ok(value)
  {
  }

  /** `Bridge#strength`: the sum of the components' strengths. */
  function BridgeStrength(b: Bridge): (s: int)
  {
    if b == [] then 0 else BridgeStrength(b[..|b| - 1]) + Strength(b[|b| - 1])
  }

  lemma {:induction false} BridgeStrengthAppend(a: Bridge, b: Bridge)
    ensures BridgeStrength(a + b) == BridgeStrength(a) + BridgeStrength(b)
    decreases |b|
  {
    if b == [] {
      assert a + b == a;
    } else {
      assert (a + b)[..|a + b| - 1] == a + b[..|b| - 1];
      BridgeStrengthAppend(a, b[..|b| - 1]);
    }
  }

  /** The strength of a bridge that starts with `c`. */
  lemma BridgeStrengthCons(c: Component, b: Bridge)
    ensures BridgeStrength([c] + b) == Strength(c) + BridgeStrength(b)
  {
    BridgeStrengthAppend([c], b);
    assert [c][..0] == [];
  }

  /** `components - [component]`: components are objects, so only that one goes. */
  function RemoveAt(comps: seq<Component>, i: int): (rest: seq<Component>)
    requires 0 <= i < |comps|
    ensures |rest| == |comps| - 1
  {
    comps[..i] + comps[i + 1..]
  }

  /** Removing one component takes exactly one copy of it out of the multiset. */
  lemma RemoveAtMultiset(comps: seq<Component>, i: int)
    requires 0 <= i < |comps|
    ensures multiset(RemoveAt(comps, i)) == multiset(comps) - multiset{comps[i]}
  {
    assert comps == comps[..i] + [comps[i]] + comps[i + 1..];
  }

  /** Every bridge of `bs`, with `c` put in front. */
  function Prefixed(c: Component, bs: seq<Bridge>): (r: seq<Bridge>)
    ensures |r| == |bs|
    ensures forall k :: 0 <= k < |bs| ==> r[k] == [c] + bs[k]
  {
    seq(|bs|, k requires 0 <= k < |bs| => [c] + bs[k])
  }

  /** `bridges(starting_plug)`: every bridge that starts at `plug`, in the builder's order. */
  function AllBridges(comps: seq<Component>, plug: int): seq<Bridge>
    decreases |comps|, 1
  {
    BridgesFrom(comps, plug, 0)
  }

  /** The bridges whose first component is one of comps[i..]. */
  function BridgesFrom(comps: seq<Component>, plug: int, i: int): seq<Bridge>
    requires 0 <= i <= |comps|
    decreases |comps|, 0, |comps| - i
  {
    if i == |comps| then []
    else Block(comps, plug, i) + BridgesFrom(comps, plug, i + 1)
  }

  /** The bridges that start with comps[i]: the one-component bridge, then its extensions. */
  function Block(comps: seq<Component>, plug: int, i: int): seq<Bridge>
    requires 0 <= i < |comps|
    decreases |comps|, 0, 0
  {
    var c := comps[i];
    if !Matches(c, plug) then []
    else [[c]] + Prefixed(c, AllBridges(RemoveAt(comps, i), OtherPlug(c, plug).value))
  }

  /** A valid chain from `plug`: every component matches the port left free before it. */
  predicate Chain(b: Bridge, plug: int)
    decreases |b|
  {
    b == [] || (Matches(b[0], plug) && Chain(b[1..], OtherPlug(b[0], plug).value))
  }

  /** A bridge the components can build: a non-empty chain using each component at most once. */
  predicate Buildable(comps: seq<Component>, plug: int, b: Bridge)
  {
    b != [] && Chain(b, plug) && multiset(b) <= multiset(comps)
  }

  lemma {:induction false} InBlockIn(comps: seq<Component>, plug: int, j: int, i: int, b: Bridge)
    requires 0 <= j <= i < |comps|
    requires b in Block(comps, plug, i)
    ensures b in BridgesFrom(comps, plug, j)
    decreases i - j
  {
    if j < i {
      InBlockIn(comps, plug, j + 1, i, b);
    }
  }

  lemma {:induction false} InFromBlock(comps: seq<Component>, plug: int, j: int, b: Bridge) returns (i: int)
    requires 0 <= j <= |comps|
    requires b in BridgesFrom(comps, plug, j)
    ensures j <= i < |comps| && b in Block(comps, plug, i)
    decreases |comps| - j
  {
    if b in Block(comps, plug, j) {
      i := j;
    } else {
      i := InFromBlock(comps, plug, j + 1, b);
    }
  }

  /** Every listed bridge is buildable. */
  lemma {:induction false} ListedAreBuildable(comps: seq<Component>, plug: int, b: Bridge)
    requires b in AllBridges(comps, plug)
    ensures Buildable(comps, plug, b)
    decreases |comps|
  {
    var i := InFromBlock(comps, plug, 0, b);
    var c := comps[i];
    var rest := RemoveAt(comps, i);
    var next := OtherPlug(c, plug).value;
    var inner := AllBridges(rest, next);
    RemoveAtMultiset(comps, i);
    if b != [c] {
      var k :| 0 <= k < |inner| && b == Prefixed(c, inner)[k];
      ListedAreBuildable(rest, next, inner[k]);
      assert b[1..] == inner[k];
      assert multiset(b) == multiset{c} + multiset(inner[k]);
    } else {
      assert Chain(b[1..], next);
    }
  }

  /** Every buildable bridge is listed. */
  lemma {:induction false} BuildableAreListed(comps: seq<Component>, plug: int, b: Bridge)
    requires Buildable(comps, plug, b)
    ensures b in AllBridges(comps, plug)
    decreases |comps|
  {
    var c := b[0];
    assert b == [c] + b[1..];
    assert multiset(b) == multiset{c} + multiset(b[1..]);
    assert c in multiset(b);
    assert c in multiset(comps);
    var i :| 0 <= i < |comps| && comps[i] == c;
    var rest := RemoveAt(comps, i);
    RemoveAtMultiset(comps, i);
    var next := OtherPlug(c, plug).value;
    assert Matches(c, plug);
    if b[1..] == [] {
      assert b == [c];
      assert Block(comps, plug, i)[0] == b;
    } else {
      assert multiset(b[1..]) <= multiset(rest);
      BuildableAreListed(rest, next, b[1..]);
      var inner := AllBridges(rest, next);
      var k :| 0 <= k < |inner| && inner[k] == b[1..];
      assert Prefixed(c, inner)[k] == b;
      assert b in Block(comps, plug, i);
    }
    InBlockIn(comps, plug, 0, i, b);
  }

  /** `bridges` lists exactly the buildable bridges. */
  lemma BridgesAreBuildable(comps: seq<Component>, plug: int, b: Bridge)
    ensures b in AllBridges(comps, plug) <==> Buildable(comps, plug, b)
  {
    if b in AllBridges(comps, plug) {
      ListedAreBuildable(comps, plug, b);
    }
    if Buildable(comps, plug, b) {
      BuildableAreListed(comps, plug, b);
    }
  }

  // Choosing a bridge with `max_by`.

  /** The block handed to `max_by`. */
  datatype Ranking = ByStrength | ByLengthThenStrength

  /** `b.strength`, or `b.length * 1000000 + b.strength`. */
  function Key(rank: Ranking, b: Bridge): int
  {
    match rank
    case ByStrength => BridgeStrength(b)
    case ByLengthThenStrength => |b| * 1000000 + BridgeStrength(b)
  }

  /** `max_by`: the first bridge with the largest key, or nil for an empty list. */
  function MaxBy(bs: seq<Bridge>, rank: Ranking): (r: Option<Bridge>)
    ensures r.None? <==> bs == []
    ensures r.Some? ==> r.value in bs
    ensures r.Some? ==> forall b :: b in bs ==> Key(rank, b) <= Key(rank, r.value)
  {
    if bs == [] then None
    else
      var best := MaxBy(bs[..|bs| - 1], rank);
      if best.Some? && Key(rank, bs[|bs| - 1]) <= Key(rank, best.value) then best
      else Some(bs[|bs| - 1])
  }

  /** `max_by` keeps the first of equal keys: every bridge before the choice has a smaller key. */
  lemma {:induction false} MaxByFirst(bs: seq<Bridge>, rank: Ranking) returns (k: int)
    requires bs != []
    ensures 0 <= k < |bs| && MaxBy(bs, rank) == Some(bs[k])
    ensures forall j :: 0 <= j < k ==> Key(rank, bs[j]) < Key(rank, bs[k])
  {
    var init := bs[..|bs| - 1];
    var best := MaxBy(init, rank);
    if best.Some? && Key(rank, bs[|bs| - 1]) <= Key(rank, best.value) {
      assert MaxBy(bs, rank) == best;
      k := MaxByFirst(init, rank);
      assert init[k] == bs[k];
      forall j | 0 <= j < k
        ensures Key(rank, bs[j]) < Key(rank, bs[k])
      {
        assert init[j] == bs[j];
      }
    } else {
      k := |bs| - 1;
      LastBeatsInit(bs, rank);
    }
  }

  /** When `max_by` takes the last bridge, every earlier key is smaller. */
  lemma LastBeatsInit(bs: seq<Bridge>, rank: Ranking)
    requires bs != []
    requires var best := MaxBy(bs[..|bs| - 1], rank);
      !(best.Some? && Key(rank, bs[|bs| - 1]) <= Key(rank, best.value))
    ensures forall j :: 0 <= j < |bs| - 1 ==> Key(rank, bs[j]) < Key(rank, bs[|bs| - 1])
  {
    var init := bs[..|bs| - 1];
    forall j | 0 <= j < |bs| - 1
      ensures Key(rank, bs[j]) < Key(rank, bs[|bs| - 1])
    {
      assert bs[j] in init;
    }
  }

  /** `strongest(starting_plug)`. */
  function Strongest(comps: seq<Component>, plug: int): Option<Bridge>
  {
    MaxBy(AllBridges(comps, plug), ByStrength)
  }

  /** `longest(starting_plug)`. */
  function Longest(comps: seq<Component>, plug: int): Option<Bridge>
  {
    MaxBy(AllBridges(comps, plug), ByLengthThenStrength)
  }

  /** The strongest bridge is buildable and no buildable bridge is stronger. */
  lemma StrongestIsStrongest(comps: seq<Component>, plug: int)
    ensures Strongest(comps, plug).None? <==> forall b :: !Buildable(comps, plug, b)
    ensures Strongest(comps, plug).Some? ==> Buildable(comps, plug, Strongest(comps, plug).value)
    ensures Strongest(comps, plug).Some? ==>
      forall b :: Buildable(comps, plug, b) ==> BridgeStrength(b) <= BridgeStrength(Strongest(comps, plug).value)
  {
    var bs := AllBridges(comps, plug);
    forall b
      ensures b in bs <==> Buildable(comps, plug, b)
    {
      BridgesAreBuildable(comps, plug, b);
    }
    if bs != [] {
      assert bs[0] in bs;
    }
  }

  /**
   * The longest key orders bridges by length first and strength second, as long
   * as strengths stay below one million.
   */
  lemma LongestKeyOrder(a: Bridge, b: Bridge)
    requires 0 <= BridgeStrength(a) < 1000000 && 0 <= BridgeStrength(b) < 1000000
    ensures Key(ByLengthThenStrength, a) <= Key(ByLengthThenStrength, b) <==>
      |a| < |b| || (|a| == |b| && BridgeStrength(a) <= BridgeStrength(b))
  {
    if |a| < |b| {
      MulAtLeast(|b| - |a|, 1000000);
      assert |b| * 1000000 - |a| * 1000000 == (|b| - |a|) * 1000000;
    } else if |a| > |b| {
      MulAtLeast(|a| - |b|, 1000000);
      assert |a| * 1000000 - |b| * 1000000 == (|a| - |b|) * 1000000;
    }
  }

  /**
   * With strengths below one million, the longest bridge is buildable, as long as any
   * buildable bridge, and the strongest among the buildable bridges of its length.
   */
  lemma LongestIsLongest(comps: seq<Component>, plug: int, b: Bridge)
    requires forall k :: 0 <= k < |comps| ==> 0 <= comps[k].left && 0 <= comps[k].right
    requires forall c :: Buildable(comps, plug, c) ==> BridgeStrength(c) < 1000000
    requires Buildable(comps, plug, b)
    ensures Longest(comps, plug).Some?
    ensures Buildable(comps, plug, Longest(comps, plug).value)
    ensures |b| <= |Longest(comps, plug).value|
    ensures |b| == |Longest(comps, plug).value| ==> BridgeStrength(b) <= BridgeStrength(Longest(comps, plug).value)
  {
    var bs := AllBridges(comps, plug);
    BridgesAreBuildable(comps, plug, b);
    var best := Longest(comps, plug).value;
    BridgesAreBuildable(comps, plug, best);
    NonNegativeStrength(comps, b);
    NonNegativeStrength(comps, best);
    LongestKeyOrder(b, best);
  }

  /** A bridge of components with non-negative ports has non-negative strength. */
  lemma {:induction false} NonNegativeStrength(comps: seq<Component>, b: Bridge)
    requires forall k :: 0 <= k < |comps| ==> 0 <= comps[k].left && 0 <= comps[k].right
    requires multiset(b) <= multiset(comps)
    ensures 0 <= BridgeStrength(b)
    decreases |b|
  {
    if b != [] {
      var init := b[..|b| - 1];
      assert b == init + [b[|b| - 1]];
      assert multiset(init) <= multiset(b);
      NonNegativeStrength(comps, init);
      assert b[|b| - 1] in multiset(comps);
    }
  }
}
