// The routing diagram the day 19 test sends a packet through, as the rows
// NewRoutingTable splits it into once the here-document's one-space indent is
// removed (the closing line keeps one of its two tabs), and the walk of the
// packet through it, one leg between turns at a time.
module RoutingExamples {
  import opened Common
  import opened Spiral
  import opened Text
  import opened Routing

  const ExampleTable: seq<string> := [
    "    |          ",
    "    |  +--+    ",
    "    A  |  C    ",
    "F---|----E|--+ ",
    "    |  |  |  D ",
    "    +B-+  +--+ ",
    "\t"
  ]

  /** Whatever the fuel, `n` turns of the sendPacket loop take packet p to packet q. */
  ghost predicate Leads(t: seq<string>, p: Packet, q: Packet, n: nat)
    requires IsDirection(p.direction) && IsDirection(q.direction)
  {
    forall fuel: nat :: fuel >= n ==> Walk(t, p, fuel) == Walk(t, q, fuel - n)
  }

  lemma LeadsOn(t: seq<string>, p: Packet, q: Packet, r: Packet, n: nat, m: nat)
    requires IsDirection(p.direction) && IsDirection(q.direction) && IsDirection(r.direction)
    requires Leads(t, p, q, n) && Leads(t, q, r, m)
    ensures Leads(t, p, r, n + m)
  {
    forall fuel: nat | fuel >= n + m
      ensures Walk(t, p, fuel) == Walk(t, r, fuel - (n + m))
    {
      assert Walk(t, p, fuel) == Walk(t, q, fuel - n);
      assert Walk(t, q, fuel - n) == Walk(t, r, fuel - n - m);
    }
  }

  /** Over a '|' or a '-' the packet goes straight on, collecting nothing. */
  lemma Cross(t: seq<string>, p: Packet, q: Packet)
    requires IsDirection(p.direction) && IsValidPosition(p.position)
    requires ByteAt(t, p.position) == Some('|') || ByteAt(t, p.position) == Some('-')
    requires q == Packet(Move(p.position, p.direction), p.direction, p.letters)
    ensures Leads(t, p, q, 1)
  {
    forall fuel: nat | fuel >= 1
      ensures Walk(t, p, fuel) == Walk(t, q, fuel - 1)
    {
      WalkThrough(t, p, fuel);
    }
  }

  /** Over a capital letter the packet goes straight on and collects it. */
  lemma Collect(t: seq<string>, p: Packet, c: char, q: Packet)
    requires IsDirection(p.direction) && IsValidPosition(p.position)
    requires ByteAt(t, p.position) == Some(c) && IsAlpha(c)
    requires q == Packet(Move(p.position, p.direction), p.direction, p.letters + [c])
    ensures Leads(t, p, q, 1)
  {
    forall fuel: nat | fuel >= 1
      ensures Walk(t, p, fuel) == Walk(t, q, fuel - 1)
    {
      WalkThrough(t, p, fuel);
    }
  }

  /** The peek loop from direction k takes direction j when all before it are rejected. */
  lemma {:induction false} TurnFirst(t: seq<string>, p: Packet, k: int, j: int)
    requires IsDirection(p.direction) && 0 <= k <= j < 4
    requires Accepts(t, p, j) && forall i :: k <= i < j ==> Rejects(t, p, i)
    ensures Turn(t, p, k) == Moved(Packet(Move(p.position, AdjacentCells[j]), AdjacentCells[j], p.letters))
    decreases j - k
  {
    if k < j {
      assert Rejects(t, p, k);
      TurnFirst(t, p, k + 1, j);
    }
  }

  /** At a '+' the packet turns into direction j when all directions before j are rejected. */
  lemma TurnAt(t: seq<string>, p: Packet, j: int, q: Packet)
    requires IsDirection(p.direction) && IsValidPosition(p.position)
    requires ByteAt(t, p.position) == Some('+') && 0 <= j < 4
    requires Accepts(t, p, j) && forall i :: 0 <= i < j ==> Rejects(t, p, i)
    requires q == Packet(Move(p.position, AdjacentCells[j]), AdjacentCells[j], p.letters)
    ensures Leads(t, p, q, 1)
  {
    TurnFirst(t, p, 0, j);
    forall fuel: nat | fuel >= 1
      ensures Walk(t, p, fuel) == Walk(t, q, fuel - 1)
    {
      WalkThrough(t, p, fuel);
    }
  }

  /** The bytes the walk reads, in the order it reads them, in four groups of ten. */
  predicate ExampleBytes(t: seq<string>)
  {
    FirstBytes(t) && SecondBytes(t) && ThirdBytes(t) && FourthBytes(t)
  }

  predicate FirstBytes(t: seq<string>)
  {
    ByteAt(t, Coordinates(4, 0)) == Some('|')
    && ByteAt(t, Coordinates(4, 1)) == Some('|')
    && ByteAt(t, Coordinates(4, 2)) == Some('A')
    && ByteAt(t, Coordinates(4, 3)) == Some('|')
    && ByteAt(t, Coordinates(4, 4)) == Some('|')
    && ByteAt(t, Coordinates(4, 5)) == Some('+')
    && ByteAt(t, Coordinates(5, 5)) == Some('B')
    && ByteAt(t, Coordinates(6, 5)) == Some('-')
    && ByteAt(t, Coordinates(7, 5)) == Some('+')
    && ByteAt(t, Coordinates(7, 4)) == Some('|')
  }

  predicate SecondBytes(t: seq<string>)
  {
    ByteAt(t, Coordinates(7, 3)) == Some('-')
    && ByteAt(t, Coordinates(7, 2)) == Some('|')
    && ByteAt(t, Coordinates(7, 1)) == Some('+')
    && ByteAt(t, Coordinates(7, 0)) == Some(' ')
    && ByteAt(t, Coordinates(8, 1)) == Some('-')
    && ByteAt(t, Coordinates(9, 1)) == Some('-')
    && ByteAt(t, Coordinates(10, 1)) == Some('+')
    && ByteAt(t, Coordinates(10, 0)) == Some(' ')
    && ByteAt(t, Coordinates(11, 1)) == Some(' ')
    && ByteAt(t, Coordinates(10, 2)) == Some('C')
  }

  predicate ThirdBytes(t: seq<string>)
  {
    ByteAt(t, Coordinates(10, 3)) == Some('|')
    && ByteAt(t, Coordinates(10, 4)) == Some('|')
    && ByteAt(t, Coordinates(10, 5)) == Some('+')
    && ByteAt(t, Coordinates(11, 5)) == Some('-')
    && ByteAt(t, Coordinates(12, 5)) == Some('-')
    && ByteAt(t, Coordinates(13, 5)) == Some('+')
    && ByteAt(t, Coordinates(13, 4)) == Some('D')
    && ByteAt(t, Coordinates(13, 3)) == Some('+')
    && ByteAt(t, Coordinates(13, 2)) == Some(' ')
    && ByteAt(t, Coordinates(14, 3)) == Some(' ')
  }

  predicate FourthBytes(t: seq<string>)
  {
    ByteAt(t, Coordinates(12, 3)) == Some('-')
    && ByteAt(t, Coordinates(11, 3)) == Some('-')
    && ByteAt(t, Coordinates(9, 3)) == Some('E')
    && ByteAt(t, Coordinates(8, 3)) == Some('-')
    && ByteAt(t, Coordinates(6, 3)) == Some('-')
    && ByteAt(t, Coordinates(5, 3)) == Some('-')
    && ByteAt(t, Coordinates(3, 3)) == Some('-')
    && ByteAt(t, Coordinates(2, 3)) == Some('-')
    && ByteAt(t, Coordinates(1, 3)) == Some('-')
    && ByteAt(t, Coordinates(0, 3)) == Some('F')
  }

  lemma Leg1(t: seq<string>)
    requires ExampleBytes(t)
    ensures Leads(t, Packet(Coordinates(4, 0), Down, ""), Packet(Coordinates(4, 5), Down, "A"), 5)
  {
    Cross(t, Packet(Coordinates(4, 0), Down, ""),
      Packet(Coordinates(4, 1), Down, ""));
    Cross(t, Packet(Coordinates(4, 1), Down, ""),
      Packet(Coordinates(4, 2), Down, ""));
    Collect(t, Packet(Coordinates(4, 2), Down, ""), 'A',
      Packet(Coordinates(4, 3), Down, "A"));
    Cross(t, Packet(Coordinates(4, 3), Down, "A"),
      Packet(Coordinates(4, 4), Down, "A"));
    Cross(t, Packet(Coordinates(4, 4), Down, "A"),
      Packet(Coordinates(4, 5), Down, "A"));
    LeadsOn(t, Packet(Coordinates(4, 0), Down, ""), Packet(Coordinates(4, 1), Down, ""), Packet(Coordinates(4, 2), Down, ""), 1, 1);
    LeadsOn(t, Packet(Coordinates(4, 0), Down, ""), Packet(Coordinates(4, 2), Down, ""), Packet(Coordinates(4, 3), Down, "A"), 2, 1);
    LeadsOn(t, Packet(Coordinates(4, 0), Down, ""), Packet(Coordinates(4, 3), Down, "A"), Packet(Coordinates(4, 4), Down, "A"), 3, 1);
    LeadsOn(t, Packet(Coordinates(4, 0), Down, ""), Packet(Coordinates(4, 4), Down, "A"), Packet(Coordinates(4, 5), Down, "A"), 4, 1);
  }

  lemma Leg2(t: seq<string>)
    requires ExampleBytes(t)
    ensures Leads(t, Packet(Coordinates(4, 5), Down, "A"), Packet(Coordinates(7, 5), Right, "AB"), 3)
  {
    TurnAt(t, Packet(Coordinates(4, 5), Down, "A"), 1,
      Packet(Coordinates(5, 5), Right, "A"));
    Collect(t, Packet(Coordinates(5, 5), Right, "A"), 'B',
      Packet(Coordinates(6, 5), Right, "AB"));
    Cross(t, Packet(Coordinates(6, 5), Right, "AB"),
      Packet(Coordinates(7, 5), Right, "AB"));
    LeadsOn(t, Packet(Coordinates(4, 5), Down, "A"), Packet(Coordinates(5, 5), Right, "A"), Packet(Coordinates(6, 5), Right, "AB"), 1, 1);
    LeadsOn(t, Packet(Coordinates(4, 5), Down, "A"), Packet(Coordinates(6, 5), Right, "AB"), Packet(Coordinates(7, 5), Right, "AB"), 2, 1);
  }

  lemma Leg3(t: seq<string>)
    requires ExampleBytes(t)
    ensures Leads(t, Packet(Coordinates(7, 5), Right, "AB"), Packet(Coordinates(7, 1), Up, "AB"), 4)
  {
    TurnAt(t, Packet(Coordinates(7, 5), Right, "AB"), 0,
      Packet(Coordinates(7, 4), Up, "AB"));
    Cross(t, Packet(Coordinates(7, 4), Up, "AB"),
      Packet(Coordinates(7, 3), Up, "AB"));
    Cross(t, Packet(Coordinates(7, 3), Up, "AB"),
      Packet(Coordinates(7, 2), Up, "AB"));
    Cross(t, Packet(Coordinates(7, 2), Up, "AB"),
      Packet(Coordinates(7, 1), Up, "AB"));
    LeadsOn(t, Packet(Coordinates(7, 5), Right, "AB"), Packet(Coordinates(7, 4), Up, "AB"), Packet(Coordinates(7, 3), Up, "AB"), 1, 1);
    LeadsOn(t, Packet(Coordinates(7, 5), Right, "AB"), Packet(Coordinates(7, 3), Up, "AB"), Packet(Coordinates(7, 2), Up, "AB"), 2, 1);
    LeadsOn(t, Packet(Coordinates(7, 5), Right, "AB"), Packet(Coordinates(7, 2), Up, "AB"), Packet(Coordinates(7, 1), Up, "AB"), 3, 1);
  }

  lemma Leg4(t: seq<string>)
    requires ExampleBytes(t)
    ensures Leads(t, Packet(Coordinates(7, 1), Up, "AB"), Packet(Coordinates(10, 1), Right, "AB"), 3)
  {
    TurnAt(t, Packet(Coordinates(7, 1), Up, "AB"), 1,
      Packet(Coordinates(8, 1), Right, "AB"));
    Cross(t, Packet(Coordinates(8, 1), Right, "AB"),
      Packet(Coordinates(9, 1), Right, "AB"));
    Cross(t, Packet(Coordinates(9, 1), Right, "AB"),
      Packet(Coordinates(10, 1), Right, "AB"));
    LeadsOn(t, Packet(Coordinates(7, 1), Up, "AB"), Packet(Coordinates(8, 1), Right, "AB"), Packet(Coordinates(9, 1), Right, "AB"), 1, 1);
    LeadsOn(t, Packet(Coordinates(7, 1), Up, "AB"), Packet(Coordinates(9, 1), Right, "AB"), Packet(Coordinates(10, 1), Right, "AB"), 2, 1);
  }

  lemma Leg5(t: seq<string>)
    requires ExampleBytes(t)
    ensures Leads(t, Packet(Coordinates(10, 1), Right, "AB"), Packet(Coordinates(10, 5), Down, "ABC"), 4)
  {
    TurnAt(t, Packet(Coordinates(10, 1), Right, "AB"), 2,
      Packet(Coordinates(10, 2), Down, "AB"));
    Collect(t, Packet(Coordinates(10, 2), Down, "AB"), 'C',
      Packet(Coordinates(10, 3), Down, "ABC"));
    Cross(t, Packet(Coordinates(10, 3), Down, "ABC"),
      Packet(Coordinates(10, 4), Down, "ABC"));
    Cross(t, Packet(Coordinates(10, 4), Down, "ABC"),
      Packet(Coordinates(10, 5), Down, "ABC"));
    LeadsOn(t, Packet(Coordinates(10, 1), Right, "AB"), Packet(Coordinates(10, 2), Down, "AB"), Packet(Coordinates(10, 3), Down, "ABC"), 1, 1);
    LeadsOn(t, Packet(Coordinates(10, 1), Right, "AB"), Packet(Coordinates(10, 3), Down, "ABC"), Packet(Coordinates(10, 4), Down, "ABC"), 2, 1);
    LeadsOn(t, Packet(Coordinates(10, 1), Right, "AB"), Packet(Coordinates(10, 4), Down, "ABC"), Packet(Coordinates(10, 5), Down, "ABC"), 3, 1);
  }

  lemma Leg6(t: seq<string>)
    requires ExampleBytes(t)
    ensures Leads(t, Packet(Coordinates(10, 5), Down, "ABC"), Packet(Coordinates(13, 5), Right, "ABC"), 3)
  {
    TurnAt(t, Packet(Coordinates(10, 5), Down, "ABC"), 1,
      Packet(Coordinates(11, 5), Right, "ABC"));
    Cross(t, Packet(Coordinates(11, 5), Right, "ABC"),
      Packet(Coordinates(12, 5), Right, "ABC"));
    Cross(t, Packet(Coordinates(12, 5), Right, "ABC"),
      Packet(Coordinates(13, 5), Right, "ABC"));
    LeadsOn(t, Packet(Coordinates(10, 5), Down, "ABC"), Packet(Coordinates(11, 5), Right, "ABC"), Packet(Coordinates(12, 5), Right, "ABC"), 1, 1);
    LeadsOn(t, Packet(Coordinates(10, 5), Down, "ABC"), Packet(Coordinates(12, 5), Right, "ABC"), Packet(Coordinates(13, 5), Right, "ABC"), 2, 1);
  }

  lemma Leg7(t: seq<string>)
    requires ExampleBytes(t)
    ensures Leads(t, Packet(Coordinates(13, 5), Right, "ABC"), Packet(Coordinates(13, 3), Up, "ABCD"), 2)
  {
    TurnAt(t, Packet(Coordinates(13, 5), Right, "ABC"), 0,
      Packet(Coordinates(13, 4), Up, "ABC"));
    Collect(t, Packet(Coordinates(13, 4), Up, "ABC"), 'D',
      Packet(Coordinates(13, 3), Up, "ABCD"));
    LeadsOn(t, Packet(Coordinates(13, 5), Right, "ABC"), Packet(Coordinates(13, 4), Up, "ABC"), Packet(Coordinates(13, 3), Up, "ABCD"), 1, 1);
  }

  lemma Leg8(t: seq<string>)
    requires ExampleBytes(t)
    ensures Leads(t, Packet(Coordinates(13, 3), Up, "ABCD"), Packet(Coordinates(7, 3), Left, "ABCDE"), 6)
  {
    TurnAt(t, Packet(Coordinates(13, 3), Up, "ABCD"), 3,
      Packet(Coordinates(12, 3), Left, "ABCD"));
    Cross(t, Packet(Coordinates(12, 3), Left, "ABCD"),
      Packet(Coordinates(11, 3), Left, "ABCD"));
    Cross(t, Packet(Coordinates(11, 3), Left, "ABCD"),
      Packet(Coordinates(10, 3), Left, "ABCD"));
    Cross(t, Packet(Coordinates(10, 3), Left, "ABCD"),
      Packet(Coordinates(9, 3), Left, "ABCD"));
    Collect(t, Packet(Coordinates(9, 3), Left, "ABCD"), 'E',
      Packet(Coordinates(8, 3), Left, "ABCDE"));
    Cross(t, Packet(Coordinates(8, 3), Left, "ABCDE"),
      Packet(Coordinates(7, 3), Left, "ABCDE"));
    LeadsOn(t, Packet(Coordinates(13, 3), Up, "ABCD"), Packet(Coordinates(12, 3), Left, "ABCD"), Packet(Coordinates(11, 3), Left, "ABCD"), 1, 1);
    LeadsOn(t, Packet(Coordinates(13, 3), Up, "ABCD"), Packet(Coordinates(11, 3), Left, "ABCD"), Packet(Coordinates(10, 3), Left, "ABCD"), 2, 1);
    LeadsOn(t, Packet(Coordinates(13, 3), Up, "ABCD"), Packet(Coordinates(10, 3), Left, "ABCD"), Packet(Coordinates(9, 3), Left, "ABCD"), 3, 1);
    LeadsOn(t, Packet(Coordinates(13, 3), Up, "ABCD"), Packet(Coordinates(9, 3), Left, "ABCD"), Packet(Coordinates(8, 3), Left, "ABCDE"), 4, 1);
    LeadsOn(t, Packet(Coordinates(13, 3), Up, "ABCD"), Packet(Coordinates(8, 3), Left, "ABCDE"), Packet(Coordinates(7, 3), Left, "ABCDE"), 5, 1);
  }

  lemma Leg9(t: seq<string>)
    requires ExampleBytes(t)
    ensures Leads(t, Packet(Coordinates(7, 3), Left, "ABCDE"), Packet(Coordinates(-1, 3), Left, "ABCDEF"), 8)
  {
    Cross(t, Packet(Coordinates(7, 3), Left, "ABCDE"),
      Packet(Coordinates(6, 3), Left, "ABCDE"));
    Cross(t, Packet(Coordinates(6, 3), Left, "ABCDE"),
      Packet(Coordinates(5, 3), Left, "ABCDE"));
    Cross(t, Packet(Coordinates(5, 3), Left, "ABCDE"),
      Packet(Coordinates(4, 3), Left, "ABCDE"));
    Cross(t, Packet(Coordinates(4, 3), Left, "ABCDE"),
      Packet(Coordinates(3, 3), Left, "ABCDE"));
    Cross(t, Packet(Coordinates(3, 3), Left, "ABCDE"),
      Packet(Coordinates(2, 3), Left, "ABCDE"));
    Cross(t, Packet(Coordinates(2, 3), Left, "ABCDE"),
      Packet(Coordinates(1, 3), Left, "ABCDE"));
    Cross(t, Packet(Coordinates(1, 3), Left, "ABCDE"),
      Packet(Coordinates(0, 3), Left, "ABCDE"));
    Collect(t, Packet(Coordinates(0, 3), Left, "ABCDE"), 'F',
      Packet(Coordinates(-1, 3), Left, "ABCDEF"));
    LeadsOn(t, Packet(Coordinates(7, 3), Left, "ABCDE"), Packet(Coordinates(6, 3), Left, "ABCDE"), Packet(Coordinates(5, 3), Left, "ABCDE"), 1, 1);
    LeadsOn(t, Packet(Coordinates(7, 3), Left, "ABCDE"), Packet(Coordinates(5, 3), Left, "ABCDE"), Packet(Coordinates(4, 3), Left, "ABCDE"), 2, 1);
    LeadsOn(t, Packet(Coordinates(7, 3), Left, "ABCDE"), Packet(Coordinates(4, 3), Left, "ABCDE"), Packet(Coordinates(3, 3), Left, "ABCDE"), 3, 1);
    LeadsOn(t, Packet(Coordinates(7, 3), Left, "ABCDE"), Packet(Coordinates(3, 3), Left, "ABCDE"), Packet(Coordinates(2, 3), Left, "ABCDE"), 4, 1);
    LeadsOn(t, Packet(Coordinates(7, 3), Left, "ABCDE"), Packet(Coordinates(2, 3), Left, "ABCDE"), Packet(Coordinates(1, 3), Left, "ABCDE"), 5, 1);
    LeadsOn(t, Packet(Coordinates(7, 3), Left, "ABCDE"), Packet(Coordinates(1, 3), Left, "ABCDE"), Packet(Coordinates(0, 3), Left, "ABCDE"), 6, 1);
    LeadsOn(t, Packet(Coordinates(7, 3), Left, "ABCDE"), Packet(Coordinates(0, 3), Left, "ABCDE"), Packet(Coordinates(-1, 3), Left, "ABCDEF"), 7, 1);
  }

  /** Any table with the bytes above walks the packet from column 4 to the left edge, collecting ABCDEF. */
  lemma ExampleWalk(t: seq<string>, fuel: nat)
    requires ExampleBytes(t) && fuel >= 38
    ensures Walk(t, Packet(Coordinates(4, 0), Down, ""), fuel)
      == Walked(Packet(Coordinates(-1, 3), Left, "ABCDEF"), Returned)
  {
    Leg1(t);
    Leg2(t);
    Leg3(t);
    Leg4(t);
    Leg5(t);
    Leg6(t);
    Leg7(t);
    Leg8(t);
    Leg9(t);
    LeadsOn(t, Packet(Coordinates(4, 0), Down, ""), Packet(Coordinates(4, 5), Down, "A"), Packet(Coordinates(7, 5), Right, "AB"), 5, 3);
    LeadsOn(t, Packet(Coordinates(4, 0), Down, ""), Packet(Coordinates(7, 5), Right, "AB"), Packet(Coordinates(7, 1), Up, "AB"), 8, 4);
    LeadsOn(t, Packet(Coordinates(4, 0), Down, ""), Packet(Coordinates(7, 1), Up, "AB"), Packet(Coordinates(10, 1), Right, "AB"), 12, 3);
    LeadsOn(t, Packet(Coordinates(4, 0), Down, ""), Packet(Coordinates(10, 1), Right, "AB"), Packet(Coordinates(10, 5), Down, "ABC"), 15, 4);
    LeadsOn(t, Packet(Coordinates(4, 0), Down, ""), Packet(Coordinates(10, 5), Down, "ABC"), Packet(Coordinates(13, 5), Right, "ABC"), 19, 3);
    LeadsOn(t, Packet(Coordinates(4, 0), Down, ""), Packet(Coordinates(13, 5), Right, "ABC"), Packet(Coordinates(13, 3), Up, "ABCD"), 22, 2);
    LeadsOn(t, Packet(Coordinates(4, 0), Down, ""), Packet(Coordinates(13, 3), Up, "ABCD"), Packet(Coordinates(7, 3), Left, "ABCDE"), 24, 6);
    LeadsOn(t, Packet(Coordinates(4, 0), Down, ""), Packet(Coordinates(7, 3), Left, "ABCDE"), Packet(Coordinates(-1, 3), Left, "ABCDEF"), 30, 8);
    assert Walk(t, Packet(Coordinates(4, 0), Down, ""), fuel)
      == Walk(t, Packet(Coordinates(-1, 3), Left, "ABCDEF"), fuel - 38);
  }

  lemma ExampleTableBytes()
    ensures ExampleBytes(ExampleTable)
  {
    ExampleFirstBytes();
    ExampleSecondBytes();
    ExampleThirdBytes();
    ExampleFourthBytes();
  }

  lemma ExampleFirstBytes()
    ensures FirstBytes(ExampleTable)
  {
  }

  lemma ExampleSecondBytes()
    ensures SecondBytes(ExampleTable)
  {
  }

  lemma ExampleThirdBytes()
    ensures ThirdBytes(ExampleTable)
  {
  }

  lemma ExampleFourthBytes()
    ensures FourthBytes(ExampleTable)
  {
  }

  /**
   * The test's diagram: the packet enters at column 4 of the top row and,
   * given at least 38 turns of the loop, collects ABCDEF and leaves at the left.
   */
  lemma ExampleLetters(fuel: nat)
    requires fuel >= 38
    ensures IndexOf(ExampleTable[0], '|') == 4
    ensures Walk(ExampleTable, Packet(Coordinates(4, 0), Down, ""), fuel)
      == Walked(Packet(Coordinates(-1, 3), Left, "ABCDEF"), Returned)
  {
    assert ExampleTable[0][..5] == "    |";
    ExampleTableBytes();
    ExampleWalk(ExampleTable, fuel);
  }
}
