// The builder's test components 0/2, 2/2, 2/3, 3/4, 3/5, 0/1, 10/1 and 9/10:
// eleven bridges from port 0, the strongest of strength 31 and the longest of
// strength 19. Components are passed as variables bound to their ports, so the
// lists of bridges are worked out node by node of the builder's recursion.
module BridgesExamples {
  import opened Common
  import opened Bridges

  /** The test components, in the order of the test input. */
  predicate TestPorts(c02: Component, c22: Component, c23: Component, c34: Component,
                      c35: Component, c01: Component, c101: Component, c910: Component)
  {
    c02 == Component(0, 2) && c22 == Component(2, 2) && c23 == Component(2, 3) &&
    c34 == Component(3, 4) && c35 == Component(3, 5) && c01 == Component(0, 1) &&
    c101 == Component(10, 1) && c910 == Component(9, 10)
  }

  lemma {:induction false} NoneFrom(cs: seq<Component>, plug: int, i: int)
    requires 0 <= i <= |cs|
    requires forall k :: i <= k < |cs| ==> !Matches(cs[k], plug)
    ensures BridgesFrom(cs, plug, i) == []
    decreases |cs| - i
  {
    if i < |cs| {
      NoneFrom(cs, plug, i + 1);
    }
  }

  /** Prefixing spelled out bridge by bridge. */
  lemma PrefixedIs(c: Component, bs: seq<Bridge>, r: seq<Bridge>)
    requires |r| == |bs|
    requires forall k :: 0 <= k < |bs| ==> r[k] == [c] + bs[k]
    ensures Prefixed(c, bs) == r
  {
  }

  /** The block of a matching component, from the bridges that follow it. */
  lemma ExtendBlock(cs: seq<Component>, plug: int, i: int, rest: seq<Component>, inner: seq<Bridge>, r: seq<Bridge>)
    requires 0 <= i < |cs| && Matches(cs[i], plug)
    requires RemoveAt(cs, i) == rest
    requires AllBridges(rest, OtherPlug(cs[i], plug).value) == inner
    requires |r| == |inner|
    requires forall k :: 0 <= k < |inner| ==> r[k] == [cs[i]] + inner[k]
    ensures Block(cs, plug, i) == [[cs[i]]] + r
  {
    PrefixedIs(cs[i], inner, r);
  }

  /** A component that nothing left can follow is a bridge on its own. */
  lemma {:induction false} LeafBlock(cs: seq<Component>, plug: int, i: int)
    requires 0 <= i < |cs| && Matches(cs[i], plug)
    requires forall k :: 0 <= k < |cs| && k != i ==> !Matches(cs[k], OtherPlug(cs[i], plug).value)
    ensures Block(cs, plug, i) == [[cs[i]]]
  {
    var rest := RemoveAt(cs, i);
    var next := OtherPlug(cs[i], plug).value;
    forall k | 0 <= k < |rest|
      ensures !Matches(rest[k], next)
    {
      if k < i {
        assert rest[k] == cs[k];
      } else {
        assert rest[k] == cs[k + 1];
      }
    }
    NoneFrom(rest, next, 0);
  }

  /** After 0/2, 2/2 and 2/3, port 3 is followed by 3/4 or 3/5 and nothing after them. */
  lemma AfterTwoThree(c02: Component, c22: Component, c23: Component, c34: Component,
                      c35: Component, c01: Component, c101: Component, c910: Component)
    requires TestPorts(c02, c22, c23, c34, c35, c01, c101, c910)
    ensures AllBridges([c34, c35, c01, c101, c910], 3) == [[c34], [c35]]
  {
    var cs := [c34, c35, c01, c101, c910];
    LeafBlock(cs, 3, 0);
    LeafBlock(cs, 3, 1);
    NoneFrom(cs, 3, 2);
    assert BridgesFrom(cs, 3, 1) == [[c35]];
  }

  /** After 0/2 and 2/3, port 3 is again followed by 3/4 or 3/5 alone. */
  lemma AfterZeroTwoThree(c02: Component, c22: Component, c23: Component, c34: Component,
                          c35: Component, c01: Component, c101: Component, c910: Component)
    requires TestPorts(c02, c22, c23, c34, c35, c01, c101, c910)
    ensures AllBridges([c22, c34, c35, c01, c101, c910], 3) == [[c34], [c35]]
  {
    var cs := [c22, c34, c35, c01, c101, c910];
    assert Block(cs, 3, 0) == [];
    LeafBlock(cs, 3, 1);
    LeafBlock(cs, 3, 2);
    NoneFrom(cs, 3, 3);
    assert BridgesFrom(cs, 3, 2) == [[c35]];
    assert BridgesFrom(cs, 3, 1) == [[c34], [c35]];
  }

  /** After 0/2 and 2/2, port 2 leads on through 2/3. */
  lemma AfterTwoTwo(c02: Component, c22: Component, c23: Component, c34: Component,
                    c35: Component, c01: Component, c101: Component, c910: Component)
    requires TestPorts(c02, c22, c23, c34, c35, c01, c101, c910)
    ensures AllBridges([c23, c34, c35, c01, c101, c910], 2) == [[c23], [c23, c34], [c23, c35]]
  {
    var cs := [c23, c34, c35, c01, c101, c910];
    AfterTwoThree(c02, c22, c23, c34, c35, c01, c101, c910);
    assert RemoveAt(cs, 0) == [c34, c35, c01, c101, c910];
    assert Block(cs, 2, 0) == [[c23]] + Prefixed(c23, [[c34], [c35]]);
    PrefixedIs(c23, [[c34], [c35]], [[c23, c34], [c23, c35]]);
    NoneFrom(cs, 2, 1);
    assert BridgesFrom(cs, 2, 0) == Block(cs, 2, 0) + [];
  }

  /** From port 2 after 0/2, the bridges through 2/2. */
  lemma ThroughTwoTwo(c02: Component, c22: Component, c23: Component, c34: Component,
                      c35: Component, c01: Component, c101: Component, c910: Component)
    requires TestPorts(c02, c22, c23, c34, c35, c01, c101, c910)
    ensures Block([c22, c23, c34, c35, c01, c101, c910], 2, 0) ==
      [[c22], [c22, c23], [c22, c23, c34], [c22, c23, c35]]
  {
    var cs := [c22, c23, c34, c35, c01, c101, c910];
    AfterTwoTwo(c02, c22, c23, c34, c35, c01, c101, c910);
    assert RemoveAt(cs, 0) == [c23, c34, c35, c01, c101, c910];
    ExtendBlock(cs, 2, 0, [c23, c34, c35, c01, c101, c910], [[c23], [c23, c34], [c23, c35]],
                [[c22, c23], [c22, c23, c34], [c22, c23, c35]]);
  }

  /** From port 2 after 0/2, the bridges through 2/3. */
  lemma ThroughTwoThree(c02: Component, c22: Component, c23: Component, c34: Component,
                        c35: Component, c01: Component, c101: Component, c910: Component)
    requires TestPorts(c02, c22, c23, c34, c35, c01, c101, c910)
    ensures Block([c22, c23, c34, c35, c01, c101, c910], 2, 1) == [[c23], [c23, c34], [c23, c35]]
  {
    var cs := [c22, c23, c34, c35, c01, c101, c910];
    AfterZeroTwoThree(c02, c22, c23, c34, c35, c01, c101, c910);
    assert RemoveAt(cs, 1) == [c22, c34, c35, c01, c101, c910];
    ExtendBlock(cs, 2, 1, [c22, c34, c35, c01, c101, c910], [[c34], [c35]], [[c23, c34], [c23, c35]]);
  }

  /** After 0/2, port 2 leads through 2/2 or 2/3. */
  lemma AfterZeroTwo(c02: Component, c22: Component, c23: Component, c34: Component,
                     c35: Component, c01: Component, c101: Component, c910: Component)
    requires TestPorts(c02, c22, c23, c34, c35, c01, c101, c910)
    ensures AllBridges([c22, c23, c34, c35, c01, c101, c910], 2) ==
      [[c22], [c22, c23], [c22, c23, c34], [c22, c23, c35], [c23], [c23, c34], [c23, c35]]
  {
    var cs := [c22, c23, c34, c35, c01, c101, c910];
    ThroughTwoTwo(c02, c22, c23, c34, c35, c01, c101, c910);
    ThroughTwoThree(c02, c22, c23, c34, c35, c01, c101, c910);
    NoneFrom(cs, 2, 2);
    assert BridgesFrom(cs, 2, 1) == Block(cs, 2, 1) + [];
    assert BridgesFrom(cs, 2, 0) == Block(cs, 2, 0) + BridgesFrom(cs, 2, 1);
  }

  /** After 0/1 and 10/1, port 10 is followed by 9/10 alone. */
  lemma AfterTenOne(c02: Component, c22: Component, c23: Component, c34: Component,
                    c35: Component, c01: Component, c101: Component, c910: Component)
    requires TestPorts(c02, c22, c23, c34, c35, c01, c101, c910)
    ensures AllBridges([c02, c22, c23, c34, c35, c910], 10) == [[c910]]
  {
    var cs := [c02, c22, c23, c34, c35, c910];
    assert forall k :: 0 <= k < 5 ==> !Matches(cs[k], 10);
    LeafBlock(cs, 10, 5);
    assert BridgesFrom(cs, 10, 6) == [];
    assert BridgesFrom(cs, 10, 5) == [[c910]];
    BlocksBetween(cs, 10, 0, 5);
  }

  /** After 0/1, port 1 leads through 10/1 and then 9/10. */
  lemma AfterZeroOne(c02: Component, c22: Component, c23: Component, c34: Component,
                     c35: Component, c01: Component, c101: Component, c910: Component)
    requires TestPorts(c02, c22, c23, c34, c35, c01, c101, c910)
    ensures AllBridges([c02, c22, c23, c34, c35, c101, c910], 1) == [[c101], [c101, c910]]
  {
    var cs := [c02, c22, c23, c34, c35, c101, c910];
    AfterTenOne(c02, c22, c23, c34, c35, c01, c101, c910);
    assert RemoveAt(cs, 5) == [c02, c22, c23, c34, c35, c910];
    assert Block(cs, 1, 5) == [[c101]] + Prefixed(c101, [[c910]]);
    PrefixedIs(c101, [[c910]], [[c101, c910]]);
    NoneFrom(cs, 1, 6);
    assert BridgesFrom(cs, 1, 5) == Block(cs, 1, 5) + [];
    BlocksBetween(cs, 1, 0, 5);
  }

  /** The eleven bridges from port 0, in the builder's order. */
  function TestBridges(c02: Component, c22: Component, c23: Component, c34: Component,
                       c35: Component, c01: Component, c101: Component, c910: Component): seq<Bridge>
  {
    [[c02], [c02, c22], [c02, c22, c23], [c02, c22, c23, c34], [c02, c22, c23, c35],
     [c02, c23], [c02, c23, c34], [c02, c23, c35],
     [c01], [c01, c101], [c01, c101, c910]]
  }

  /** The bridges that start with 0/2. */
  lemma StartingZeroTwo(c02: Component, c22: Component, c23: Component, c34: Component,
                        c35: Component, c01: Component, c101: Component, c910: Component)
    requires TestPorts(c02, c22, c23, c34, c35, c01, c101, c910)
    ensures Block([c02, c22, c23, c34, c35, c01, c101, c910], 0, 0) ==
      [[c02], [c02, c22], [c02, c22, c23], [c02, c22, c23, c34], [c02, c22, c23, c35],
       [c02, c23], [c02, c23, c34], [c02, c23, c35]]
  {
    var cs := [c02, c22, c23, c34, c35, c01, c101, c910];
    AfterZeroTwo(c02, c22, c23, c34, c35, c01, c101, c910);
    assert RemoveAt(cs, 0) == [c22, c23, c34, c35, c01, c101, c910];
    ExtendBlock(cs, 0, 0, [c22, c23, c34, c35, c01, c101, c910],
                [[c22], [c22, c23], [c22, c23, c34], [c22, c23, c35], [c23], [c23, c34], [c23, c35]],
                [[c02, c22], [c02, c22, c23], [c02, c22, c23, c34], [c02, c22, c23, c35],
                 [c02, c23], [c02, c23, c34], [c02, c23, c35]]);
  }

  /** The bridges that start with 0/1. */
  lemma StartingZeroOne(c02: Component, c22: Component, c23: Component, c34: Component,
                        c35: Component, c01: Component, c101: Component, c910: Component)
    requires TestPorts(c02, c22, c23, c34, c35, c01, c101, c910)
    ensures Block([c02, c22, c23, c34, c35, c01, c101, c910], 0, 5) ==
      [[c01], [c01, c101], [c01, c101, c910]]
  {
    var cs := [c02, c22, c23, c34, c35, c01, c101, c910];
    AfterZeroOne(c02, c22, c23, c34, c35, c01, c101, c910);
    assert RemoveAt(cs, 5) == [c02, c22, c23, c34, c35, c101, c910];
    ExtendBlock(cs, 0, 5, [c02, c22, c23, c34, c35, c101, c910], [[c101], [c101, c910]],
                [[c01, c101], [c01, c101, c910]]);
  }

  /** `bridges(0)` on the test components lists these eleven bridges. */
  lemma ExampleBridges(c02: Component, c22: Component, c23: Component, c34: Component,
                       c35: Component, c01: Component, c101: Component, c910: Component)
    requires TestPorts(c02, c22, c23, c34, c35, c01, c101, c910)
    ensures AllBridges([c02, c22, c23, c34, c35, c01, c101, c910], 0) ==
      TestBridges(c02, c22, c23, c34, c35, c01, c101, c910)
  {
    var cs := [c02, c22, c23, c34, c35, c01, c101, c910];
    StartingZeroTwo(c02, c22, c23, c34, c35, c01, c101, c910);
    StartingZeroOne(c02, c22, c23, c34, c35, c01, c101, c910);
    NoneFrom(cs, 0, 6);
    assert BridgesFrom(cs, 0, 5) == Block(cs, 0, 5) + [];
    BlocksBetween(cs, 0, 1, 5);
    assert BridgesFrom(cs, 0, 0) == Block(cs, 0, 0) + BridgesFrom(cs, 0, 5);
  }

  /** Components that do not match add nothing between two blocks. */
  lemma {:induction false} BlocksBetween(cs: seq<Component>, plug: int, i: int, j: int)
    requires 0 <= i <= j <= |cs|
    requires forall k :: i <= k < j ==> !Matches(cs[k], plug)
    ensures BridgesFrom(cs, plug, i) == BridgesFrom(cs, plug, j)
    decreases j - i
  {
    if i < j {
      BlocksBetween(cs, plug, i + 1, j);
      assert Block(cs, plug, i) == [];
    }
  }

  /** The strength of a bridge of up to four components, spelled out. */
  lemma StrengthOfFour(a: Component, b: Component, c: Component, d: Component)
    ensures BridgeStrength([a]) == Strength(a)
    ensures BridgeStrength([a, b]) == Strength(a) + Strength(b)
    ensures BridgeStrength([a, b, c]) == Strength(a) + Strength(b) + Strength(c)
    ensures BridgeStrength([a, b, c, d]) == Strength(a) + Strength(b) + Strength(c) + Strength(d)
  {
    assert [a, b, c, d][..3] == [a, b, c];
    assert [a, b, c][..2] == [a, b];
    assert [a, b][..1] == [a];
    assert [a][..0] == [];
  }

  /** The strength of each listed bridge, in order. */
  lemma TestStrengths(c02: Component, c22: Component, c23: Component, c34: Component,
                      c35: Component, c01: Component, c101: Component, c910: Component)
    requires TestPorts(c02, c22, c23, c34, c35, c01, c101, c910)
    ensures forall k :: 0 <= k < 11 ==>
      BridgeStrength(TestBridges(c02, c22, c23, c34, c35, c01, c101, c910)[k]) ==
      [2, 6, 11, 18, 19, 7, 14, 15, 1, 12, 31][k]
  {
    StrengthOfFour(c02, c22, c23, c34);
    StrengthOfFour(c02, c22, c23, c35);
    StrengthOfFour(c02, c23, c34, c34);
    StrengthOfFour(c02, c23, c35, c35);
    StrengthOfFour(c01, c101, c910, c910);
  }

  /** When one listed key is larger than all others, `max_by` picks that bridge. */
  lemma MaxIsUnique(bs: seq<Bridge>, rank: Ranking, j: int)
    requires 0 <= j < |bs|
    requires forall k :: 0 <= k < |bs| && k != j ==> Key(rank, bs[k]) < Key(rank, bs[j])
    ensures MaxBy(bs, rank) == Some(bs[j])
  {
    var best := MaxBy(bs, rank).value;
    assert bs[j] in bs;
    var k :| 0 <= k < |bs| && bs[k] == best;
  }

  /** `strongest(0)` has strength 31: the bridge 0/1, 10/1, 9/10. */
  lemma ExampleStrongest(c02: Component, c22: Component, c23: Component, c34: Component,
                         c35: Component, c01: Component, c101: Component, c910: Component)
    requires TestPorts(c02, c22, c23, c34, c35, c01, c101, c910)
    ensures Strongest([c02, c22, c23, c34, c35, c01, c101, c910], 0).Some?
    ensures BridgeStrength(Strongest([c02, c22, c23, c34, c35, c01, c101, c910], 0).value) == 31
  {
    ExampleBridges(c02, c22, c23, c34, c35, c01, c101, c910);
    TestStrengths(c02, c22, c23, c34, c35, c01, c101, c910);
    MaxIsUnique(TestBridges(c02, c22, c23, c34, c35, c01, c101, c910), ByStrength, 10);
  }

  /** The longest key of each listed bridge, in order. */
  lemma TestLengthKeys(c02: Component, c22: Component, c23: Component, c34: Component,
                       c35: Component, c01: Component, c101: Component, c910: Component)
    requires TestPorts(c02, c22, c23, c34, c35, c01, c101, c910)
    ensures forall k :: 0 <= k < 11 ==>
      Key(ByLengthThenStrength, TestBridges(c02, c22, c23, c34, c35, c01, c101, c910)[k]) ==
      [1000002, 2000006, 3000011, 4000018, 4000019, 2000007, 3000014, 3000015, 1000001, 2000012, 3000031][k]
  {
    TestStrengths(c02, c22, c23, c34, c35, c01, c101, c910);
  }

  /** Only the fifth listed bridge reaches the longest key 4000019. */
  lemma OnlyFifthReaches(c02: Component, c22: Component, c23: Component, c34: Component,
                         c35: Component, c01: Component, c101: Component, c910: Component)
    requires TestPorts(c02, c22, c23, c34, c35, c01, c101, c910)
    ensures forall k :: 0 <= k < 11 ==>
      Key(ByLengthThenStrength, TestBridges(c02, c22, c23, c34, c35, c01, c101, c910)[k]) <= 4000019
    ensures forall k :: 0 <= k < 11 && k != 4 ==>
      Key(ByLengthThenStrength, TestBridges(c02, c22, c23, c34, c35, c01, c101, c910)[k]) < 4000019
    ensures Key(ByLengthThenStrength, TestBridges(c02, c22, c23, c34, c35, c01, c101, c910)[4]) == 4000019
  {
    TestLengthKeys(c02, c22, c23, c34, c35, c01, c101, c910);
  }

  /** `max_by` on the longest key picks the fifth listed bridge. */
  lemma LongestOfTest(c02: Component, c22: Component, c23: Component, c34: Component,
                      c35: Component, c01: Component, c101: Component, c910: Component)
    requires TestPorts(c02, c22, c23, c34, c35, c01, c101, c910)
    ensures MaxBy(TestBridges(c02, c22, c23, c34, c35, c01, c101, c910), ByLengthThenStrength) ==
      Some([c02, c22, c23, c35])
  {
    OnlyFifthReaches(c02, c22, c23, c34, c35, c01, c101, c910);
    MaxIsUnique(TestBridges(c02, c22, c23, c34, c35, c01, c101, c910), ByLengthThenStrength, 4);
  }

  /** `longest(0)` has strength 19: the bridge 0/2, 2/2, 2/3, 3/5. */
  lemma ExampleLongest(c02: Component, c22: Component, c23: Component, c34: Component,
                       c35: Component, c01: Component, c101: Component, c910: Component)
    requires TestPorts(c02, c22, c23, c34, c35, c01, c101, c910)
    ensures Longest([c02, c22, c23, c34, c35, c01, c101, c910], 0).Some?
    ensures BridgeStrength(Longest([c02, c22, c23, c34, c35, c01, c101, c910], 0).value) == 19
  {
    ExampleBridges(c02, c22, c23, c34, c35, c01, c101, c910);
    LongestOfTest(c02, c22, c23, c34, c35, c01, c101, c910);
    StrengthOfFour(c02, c22, c23, c35);
  }

  /** The builder's three tests on the literal components. */
  lemma ExampleBuilder()
    ensures |AllBridges(TestComponents, 0)| == 11
    ensures BridgeStrength(Strongest(TestComponents, 0).value) == 31
    ensures BridgeStrength(Longest(TestComponents, 0).value) == 19
  {
    var c02, c22, c23, c34 := Component(0, 2), Component(2, 2), Component(2, 3), Component(3, 4);
    var c35, c01, c101, c910 := Component(3, 5), Component(0, 1), Component(10, 1), Component(9, 10);
    assert TestComponents == [c02, c22, c23, c34, c35, c01, c101, c910];
    ExampleBridges(c02, c22, c23, c34, c35, c01, c101, c910);
    ExampleStrongest(c02, c22, c23, c34, c35, c01, c101, c910);
    ExampleLongest(c02, c22, c23, c34, c35, c01, c101, c910);
    assert |TestBridges(c02, c22, c23, c34, c35, c01, c101, c910)| == 11;
  }

  /** The test input 0/2, 2/2, 2/3, 3/4, 3/5, 0/1, 10/1, 9/10. */
  const TestComponents: seq<Component> := [Component(0, 2), Component(2, 2), Component(2, 3), Component(3, 4),
                                           Component(3, 5), Component(0, 1), Component(10, 1), Component(9, 10)]
}
