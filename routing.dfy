// The packet routing diagram of day 19: a packet enters the top row at the '|'
// and follows the lines. It keeps its direction over '|', '-' and letters,
// collects the letters it passes, turns at '+' into the first other line it
// finds, and stops on a blank or when it leaves the diagram at the top or left.
module Routing {
  import opened Common
  import opened Text
  import opened Spiral

  const Up := Coordinates(0, -1)
  const Right := Coordinates(1, 0)
  const Down := Coordinates(0, 1)
  const Left := Coordinates(-1, 0)

  /** routingAdjacentCells: the order in which a '+' tries the four directions. */
  const AdjacentCells := [Up, Right, Down, Left]

  predicate IsDirection(d: Coordinates)
  {
    d in AdjacentCells
  }

  /** routingReverse: the opposite direction; any other value panics. */
  function Reverse(d: Coordinates): (r: Coordinates)
    requires IsDirection(d)
    ensures IsDirection(r) && r != d
    ensures r == Coordinates(-d.x, -d.y)
  {
    if d == Up then Down
    else if d == Right then Left
    else if d == Down then Up
    else Right
  }

  /** Reversing twice gives the direction back, and a step is undone by a step in reverse. */
  lemma ReverseUndoes(d: Coordinates, pos: Coordinates)
    requires IsDirection(d)
    ensures Reverse(Reverse(d)) == d
    ensures Move(Move(pos, d), Reverse(d)) == pos
  {
  }

  /** isValidPosition: the diagram is only ever left at the top or at the left. */
  predicate IsValidPosition(pos: Coordinates)
  {
    pos.y >= 0 && pos.x >= 0
  }

  predicate IsAlpha(route: char)
  {
    'A' <= route <= 'Z'
  }

  predicate AllAlpha(s: string)
  {
    forall i :: 0 <= i < |s| ==> IsAlpha(s[i])
  }

  /** `longer` is `shorter` followed by capital letters only. */
  predicate Extends(shorter: string, longer: string)
  {
    |shorter| <= |longer| && longer[..|shorter|] == shorter && AllAlpha(longer[|shorter|..])
  }

  lemma ExtendsSelf(s: string)
    ensures Extends(s, s)
  {
    assert s[|s|..] == [];
  }

  lemma ExtendsTrans(a: string, b: string, c: string)
    requires Extends(a, b) && Extends(b, c)
    ensures Extends(a, c)
  {
    assert c[..|a|] == b[..|a|];
    assert c[|a|..] == b[|a|..] + c[|b|..];
  }

  /** A byte the packet can travel onto from a '+'. */
  predicate IsTrack(route: char)
  {
    route == '|' || route == '-' || IsAlpha(route)
  }

  /**
   * The byteAt closure: 'x' off the top or left edge, otherwise the byte of the
   * diagram, or None where Go's index beyond a row or below the last row panics.
   */
  function ByteAt(table: seq<string>, pos: Coordinates): (b: Option<char>)
    ensures !IsValidPosition(pos) ==> b == Some('x')
    ensures IsValidPosition(pos) ==>
      (b.Some? <==> pos.y < |table| && pos.x < |table[pos.y]|)
    ensures IsValidPosition(pos) && b.Some? ==> b.value == table[pos.y][pos.x]
  {
    if !IsValidPosition(pos) then Some('x')
    else if pos.y < |table| && pos.x < |table[pos.y]| then Some(table[pos.y][pos.x])
    else None
  }

  // ---------------------------------------------------------------------------
  // One turn of the sendPacket loop

  /** Where the packet is, where it is heading and the letters it has collected. */
  datatype Packet = Packet(position: Coordinates, direction: Coordinates, letters: string)

  datatype StepResult = Moved(next: Packet) | Stopped | Panicked(reason: string)

  const NoMove := "could not discern move"
  const OutOfRange := "index out of range"
  const Unrecognized := "don't recognize"

  /** Direction j is passed over at a '+': it is the way back, or its byte is no line. */
  predicate Rejects(table: seq<string>, p: Packet, j: int)
    requires IsDirection(p.direction) && 0 <= j < 4
  {
    AdjacentCells[j] == Reverse(p.direction)
    || (var peek := ByteAt(table, Move(p.position, AdjacentCells[j]));
        peek.Some? && !IsTrack(peek.value))
  }

  /** Direction j is taken at a '+': it is not the way back and leads onto a line. */
  predicate Accepts(table: seq<string>, p: Packet, j: int)
    requires IsDirection(p.direction) && 0 <= j < 4
  {
    AdjacentCells[j] != Reverse(p.direction)
    && (var peek := ByteAt(table, Move(p.position, AdjacentCells[j]));
        peek.Some? && IsTrack(peek.value))
  }

  /**
   * The peek loop at a '+', from direction k on: the first direction not
   * rejected is taken if it leads onto a line; a peek outside the diagram
   * panics, and so does running out of directions.
   */
  function Turn(table: seq<string>, p: Packet, k: int): (r: StepResult)
    requires IsDirection(p.direction) && 0 <= k <= 4
    ensures !r.Stopped?
    ensures r.Moved? ==>
      IsDirection(r.next.direction) && r.next.position == Move(p.position, r.next.direction)
      && r.next.letters == p.letters
    decreases 4 - k
  {
    if k == 4 then Panicked(NoMove)
    else
      var peekDir := AdjacentCells[k];
      if peekDir == Reverse(p.direction) then Turn(table, p, k + 1)
      else
        var peekPos := Move(p.position, peekDir);
        match ByteAt(table, peekPos)
        case None => Panicked(OutOfRange)
        case Some(peek) =>
          if IsTrack(peek) then Moved(Packet(peekPos, peekDir, p.letters))
          else Turn(table, p, k + 1)
  }

  /**
   * A '+' takes the first direction, in the order up, right, down, left, that
   * is neither the way back nor a dead end, and reports that it could not
   * discern a move exactly when every direction is rejected.
   */
  lemma {:induction false} TurnTakesFirst(table: seq<string>, p: Packet, k: int)
    requires IsDirection(p.direction) && 0 <= k <= 4
    ensures var r := Turn(table, p, k);
      && (r.Moved? ==>
            exists j :: k <= j < 4 && Accepts(table, p, j)
              && r.next.direction == AdjacentCells[j]
              && (forall i :: k <= i < j ==> Rejects(table, p, i)))
      && (r == Panicked(NoMove) <==> forall i :: k <= i < 4 ==> Rejects(table, p, i))
    decreases 4 - k
  {
    if k < 4 {
      var r := Turn(table, p, k);
      var peekDir := AdjacentCells[k];
      var peek := ByteAt(table, Move(p.position, peekDir));
      if peekDir == Reverse(p.direction) || (peek.Some? && !IsTrack(peek.value)) {
        assert Rejects(table, p, k);
        assert r == Turn(table, p, k + 1);
        TurnTakesFirst(table, p, k + 1);
        if r.Moved? {
          var j :| k + 1 <= j < 4 && Accepts(table, p, j)
            && r.next.direction == AdjacentCells[j]
            && (forall i :: k + 1 <= i < j ==> Rejects(table, p, i));
          assert forall i :: k <= i < j ==> Rejects(table, p, i);
        }
      } else if peek.None? {
        assert r == Panicked(OutOfRange);
        assert OutOfRange[0] != NoMove[0];
        assert !Rejects(table, p, k);
      } else {
        assert Accepts(table, p, k) && !Rejects(table, p, k);
        assert r.Moved? && r.next.direction == AdjacentCells[k];
      }
    }
  }

  /** The body of the sendPacket loop, at a position inside the diagram. */
  function Step(table: seq<string>, p: Packet): (r: StepResult)
    requires IsValidPosition(p.position) && IsDirection(p.direction)
    ensures r.Moved? ==>
      IsDirection(r.next.direction) && r.next.position == Move(p.position, r.next.direction)
  {
    match ByteAt(table, p.position)
    case None => Panicked(OutOfRange)
    case Some(route) =>
      if route == '|' || route == '-' then Moved(Packet(Move(p.position, p.direction), p.direction, p.letters))
      else if IsAlpha(route) then Moved(Packet(Move(p.position, p.direction), p.direction, p.letters + [route]))
      else if route == '+' then Turn(table, p, 0)
      else if route == ' ' then Stopped
      else Panicked(Unrecognized)
  }

  /**
   * What one step does, by the byte under the packet: lines and letters are
   * crossed straight on and only letters are collected; a '+' turns without
   * collecting, never straight back; a blank stops the packet.
   */
  lemma StepMeaning(table: seq<string>, p: Packet)
    requires IsValidPosition(p.position) && IsDirection(p.direction)
    ensures var r := Step(table, p);
      && (r.Stopped? <==> ByteAt(table, p.position) == Some(' '))
      && (ByteAt(table, p.position).None? ==> r == Panicked(OutOfRange))
      && (r.Moved? && ByteAt(table, p.position) != Some('+') ==> r.next.direction == p.direction)
      && (r.Moved? && ByteAt(table, p.position) == Some('+') ==>
            r.next.direction != Reverse(p.direction) && r.next.letters == p.letters
            && ByteAt(table, r.next.position).Some? && IsTrack(ByteAt(table, r.next.position).value))
      && (r.Moved? ==>
            r.next.letters == p.letters
            || (ByteAt(table, p.position).Some? && IsAlpha(ByteAt(table, p.position).value)
                && r.next.letters == p.letters + [ByteAt(table, p.position).value]))
  {
    var r := Step(table, p);
    if ByteAt(table, p.position) == Some('+') && r.Moved? {
      TurnTakesFirst(table, p, 0);
      var j :| 0 <= j < 4 && Accepts(table, p, j) && r.next.direction == AdjacentCells[j];
    }
  }

  /** One step collects nothing, or the capital letter it crosses. */
  lemma StepCollects(table: seq<string>, p: Packet)
    requires IsValidPosition(p.position) && IsDirection(p.direction)
    requires Step(table, p).Moved?
    ensures Extends(p.letters, Step(table, p).next.letters)
  {
    var q := Step(table, p).next;
    var route := ByteAt(table, p.position).value;
    if IsAlpha(route) {
      assert q.letters == p.letters + [route];
      assert q.letters[|p.letters|..] == [route];
    } else {
      ExtendsSelf(p.letters);
    }
  }

  // ---------------------------------------------------------------------------
  // sendPacket

  datatype Status = Returned | Failed(reason: string) | OutOfFuel

  datatype Walked = Walked(packet: Packet, status: Status)

  /**
   * sendPacket run for at most `fuel` turns of its loop: the last packet and why
   * the walk ended. A panic leaves the packet where the failing turn began.
   */
  function Walk(table: seq<string>, p: Packet, fuel: nat): (w: Walked)
    requires IsDirection(p.direction)
    ensures IsDirection(w.packet.direction)
    decreases fuel
  {
    if !IsValidPosition(p.position) then Walked(p, Returned)
    else if fuel == 0 then Walked(p, OutOfFuel)
    else
      match Step(table, p)
      case Stopped => Walked(p, Returned)
      case Panicked(why) => Walked(p, Failed(why))
      case Moved(q) => Walk(table, q, fuel - 1)
  }

  /**
   * The collected letters only grow: the walk keeps the letters it started
   * with and appends capital letters only.
   */
  lemma {:induction false} WalkCollects(table: seq<string>, p: Packet, fuel: nat)
    requires IsDirection(p.direction)
    ensures Extends(p.letters, Walk(table, p, fuel).packet.letters)
    decreases fuel
  {
    if IsValidPosition(p.position) && fuel > 0 && Step(table, p).Moved? {
      var q := Step(table, p).next;
      assert Walk(table, p, fuel) == Walk(table, q, fuel - 1);
      StepCollects(table, p);
      WalkCollects(table, q, fuel - 1);
      ExtendsTrans(p.letters, q.letters, Walk(table, q, fuel - 1).packet.letters);
    } else {
      assert Walk(table, p, fuel).packet == p;
      ExtendsSelf(p.letters);
    }
  }

  /** A walk that returns stops off the diagram's top or left edge, or on a blank. */
  lemma {:induction false} WalkReturns(table: seq<string>, p: Packet, fuel: nat)
    requires IsDirection(p.direction)
    ensures var w := Walk(table, p, fuel);
      w.status == Returned ==> (!IsValidPosition(w.packet.position) || ByteAt(table, w.packet.position) == Some(' '))
    decreases fuel
  {
    if IsValidPosition(p.position) && fuel > 0 {
      var r := Step(table, p);
      StepMeaning(table, p);
      if r.Moved? {
        WalkReturns(table, r.next, fuel - 1);
      }
    }
  }

  /** A step that moves on hands the walk over to the next packet. */
  lemma WalkThrough(table: seq<string>, p: Packet, fuel: nat)
    requires IsDirection(p.direction) && IsValidPosition(p.position) && fuel > 0
    requires Step(table, p).Moved?
    ensures Walk(table, p, fuel) == Walk(table, Step(table, p).next, fuel - 1)
  {
  }

  /** A step that does not move ends the walk there, whatever the fuel left. */
  lemma WalkHalts(table: seq<string>, p: Packet, fuel: nat)
    requires IsDirection(p.direction) && IsValidPosition(p.position) && fuel > 0
    requires !Step(table, p).Moved?
    ensures Walk(table, p, fuel)
      == Walked(p, if Step(table, p).Stopped? then Returned else Failed(Step(table, p).reason))
  {
  }

  /** A walk that ended within its fuel ends the same way with any more fuel. */
  lemma {:induction false} WalkMoreFuel(table: seq<string>, p: Packet, fuel: nat, more: nat)
    requires IsDirection(p.direction)
    requires fuel <= more
    requires Walk(table, p, fuel).status != OutOfFuel
    ensures Walk(table, p, more) == Walk(table, p, fuel)
    decreases fuel
  {
    if IsValidPosition(p.position) {
      if fuel == 0 {
        assert false;
      }
      if Step(table, p).Moved? {
        var q := Step(table, p).next;
        WalkMoreFuel(table, q, fuel - 1, more - 1);
        WalkThroughBoth(table, p, fuel, more);
      } else {
        WalkHalts(table, p, fuel);
        WalkHalts(table, p, more);
      }
    }
  }

  /** Two walks from p that both move on agree when the walks from the next packet do. */
  lemma WalkThroughBoth(table: seq<string>, p: Packet, fuel: nat, more: nat)
    requires IsDirection(p.direction) && IsValidPosition(p.position) && 0 < fuel <= more
    requires Step(table, p).Moved?
    requires Walk(table, Step(table, p).next, more - 1) == Walk(table, Step(table, p).next, fuel - 1)
    ensures Walk(table, p, more) == Walk(table, p, fuel)
  {
    WalkThrough(table, p, fuel);
    WalkThrough(table, p, more);
  }

  // ---------------------------------------------------------------------------
  // RoutingTable

  class RoutingTable {
    var position: Coordinates
    var direction: Coordinates
    const table: seq<string>
    var letters: string

    predicate Valid()
      reads this
    {
      IsDirection(direction)
    }

    function Current(): Packet
      reads this
    {
      Packet(position, direction, letters)
    }

    /** NewRoutingTable: one row per line, entering at the first '|' of the top row, heading down. */
    constructor (text: string)
      ensures table == Split(text, '\n')
      ensures position == Coordinates(IndexOf(table[0], '|'), 0)
      ensures direction == Down && letters == []
      ensures Valid()
    {
      table := Split(text, '\n');
      position := Coordinates(IndexOf(Split(text, '\n')[0], '|'), 0);
      direction := Down;
      letters := [];
    }

    /** sendPacket, for at most `fuel` turns of its loop. */
    method SendPacket(fuel: nat) returns (status: Status)
      requires Valid()
      modifies this
      ensures Valid()
      ensures Walk(table, old(Current()), fuel) == Walked(Current(), status)
    {
      var steps := 0;
      while IsValidPosition(position)
        invariant Valid() && 0 <= steps <= fuel
        invariant Walk(table, Current(), fuel - steps) == Walk(table, old(Current()), fuel)
        decreases fuel - steps
      {
        if steps == fuel {
          return OutOfFuel;
        }
        if position.y >= |table| || position.x >= |table[position.y]| {
          return Failed(OutOfRange);
        }
        var route := table[position.y][position.x];
        if route == '|' || route == '-' {
          position := Move(position, direction);
        } else if IsAlpha(route) {
          letters := letters + [route];
          position := Move(position, direction);
        } else if route == '+' {
          ghost var here := Current();
          var moved := false;
          var k := 0;
          while k < 4 && !moved
            invariant 0 <= k <= 4
            invariant !moved ==> Current() == here && Turn(table, here, k) == Turn(table, here, 0)
            invariant moved ==> Turn(table, here, 0) == Moved(Current()) && Valid()
          {
            var peekDir := AdjacentCells[k];
            if peekDir != Reverse(direction) {
              var peekPos := Move(position, peekDir);
              var peek := ByteAt(table, peekPos);
              if peek.None? {
                return Failed(OutOfRange);
              }
              if IsTrack(peek.value) {
                position := peekPos;
                direction := peekDir;
                moved := true;
              }
            }
            k := k + 1;
          }
          if !moved {
            return Failed(NoMove);
          }
        } else if route == ' ' {
          return Returned;
        } else {
          return Failed(Unrecognized);
        }
        steps := steps + 1;
      }
      status := Returned;
    }
  }

  /** A top row without a '|' puts the entry left of the diagram: the packet returns at once, empty. */
  lemma NoEntry(text: string, fuel: nat)
    requires '|' !in Split(text, '\n')[0]
    ensures var p := Packet(Coordinates(IndexOf(Split(text, '\n')[0], '|'), 0), Down, []);
      Walk(Split(text, '\n'), p, fuel) == Walked(p, Returned)
  {
  }
}
