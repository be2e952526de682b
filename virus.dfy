// The virus carrier of day 22: it walks an infinite grid, infecting clean nodes
// (turning left) and cleaning infected ones (turning right) before each step.
module Virus {
  import opened Common
  import opened Text
  import opened Spiral

  // ---------------------------------------------------------------------------
  // Directions and the turn tables

  const Up := Coordinates(0, 1)
  const Right := Coordinates(1, 0)
  const Down := Coordinates(0, -1)
  const Left := Coordinates(-1, 0)

  predicate IsDirection(d: Coordinates)
  {
    d == Up || d == Right || d == Down || d == Left
  }

  /** The virusTurnLeft table, looked up; a key missing from the Go map reads as the zero coordinates. */
  function TurnLeft(d: Coordinates): Coordinates
  {
    if d == Up then Left
    else if d == Left then Down
    else if d == Down then Right
    else if d == Right then Up
    else Origin
  }

  /** The virusTurnRight table, looked up. */
  function TurnRight(d: Coordinates): Coordinates
  {
    if d == Up then Right
    else if d == Right then Down
    else if d == Down then Left
    else if d == Left then Up
    else Origin
  }

  /** The tables are the quarter turns of the four unit vectors, and undo each other. */
  lemma TurnTables(d: Coordinates)
    requires IsDirection(d)
    ensures TurnLeft(d) == Coordinates(-d.y, d.x) && TurnRight(d) == Coordinates(d.y, -d.x)
    ensures IsDirection(TurnLeft(d)) && IsDirection(TurnRight(d))
    ensures TurnRight(TurnLeft(d)) == d && TurnLeft(TurnRight(d)) == d
    ensures TurnLeft(TurnLeft(TurnLeft(TurnLeft(d)))) == d
    ensures ManhattanDistance(d) == 1
  {
  }

  // ---------------------------------------------------------------------------
  // The carrier on values

  /** InfectionStatus; only Clean and Infected occur in this part of the puzzle. */
  datatype InfectionStatus = Clean | Weakened | Infected | Flagged

  /** The nodes' statuses, where the carrier stands and faces, and how many infections it caused. */
  datatype Carrier = Carrier(infected: map<Coordinates, InfectionStatus>, position: Coordinates,
                             direction: Coordinates, infections: int)

  /** NodeInfected: a node never stored is clean. */
  function NodeStatus(infected: map<Coordinates, InfectionStatus>, coords: Coordinates): (s: InfectionStatus)
    ensures coords !in infected ==> s == Clean
  {
    if coords in infected then infected[coords] else Clean
  }

  /** One burst: flip the current node between infected and clean, turn, step forward. */
  function Bursted(v: Carrier): (r: Carrier)
    ensures NodeStatus(r.infected, v.position)
            == if NodeStatus(v.infected, v.position) == Infected then Clean else Infected
    ensures forall c :: c != v.position ==> NodeStatus(r.infected, c) == NodeStatus(v.infected, c)
    ensures r.infections == v.infections + (if NodeStatus(v.infected, v.position) == Infected then 0 else 1)
    ensures r.direction == if NodeStatus(v.infected, v.position) == Infected then TurnRight(v.direction)
                           else TurnLeft(v.direction)
    ensures r.position == Move(v.position, r.direction)
  {
    if NodeStatus(v.infected, v.position) == Infected then
      var d := TurnRight(v.direction);
      Carrier(v.infected[v.position := Clean], Move(v.position, d), d, v.infections)
    else
      var d := TurnLeft(v.direction);
      Carrier(v.infected[v.position := Infected], Move(v.position, d), d, v.infections + 1)
  }

  /** A burst moves the carrier to a neighbouring node, still facing one of the four directions. */
  lemma BurstMovesOneCell(v: Carrier)
    requires IsDirection(v.direction)
    ensures IsDirection(Bursted(v).direction)
    ensures ManhattanDistance(Coordinates(Bursted(v).position.x - v.position.x,
                                          Bursted(v).position.y - v.position.y)) == 1
  {
    TurnTables(v.direction);
    TurnTables(Bursted(v).direction);
  }

  /** n bursts in a row. */
  function Bursts(v: Carrier, n: nat): Carrier
    decreases n
  {
    if n == 0 then v else Bursts(Bursted(v), n - 1)
  }

  /** Over n bursts the infection count never drops and grows by at most n, and the
      carrier keeps facing one of the four directions. */
  lemma {:induction false} BurstsBounds(v: Carrier, n: nat)
    requires IsDirection(v.direction)
    decreases n
    ensures v.infections <= Bursts(v, n).infections <= v.infections + n
    ensures IsDirection(Bursts(v, n).direction)
  {
    if n > 0 {
      TurnTables(v.direction);
      BurstsBounds(Bursted(v), n - 1);
    }
  }

  // ---------------------------------------------------------------------------
  // NewSporificaVirus's reading of the map

  /** (size - 1) / 2 with Go's division, which truncates: an empty first line gives 0. */
  function Offset(size: nat): int
  {
    if size == 0 then 0 else (size - 1) / 2
  }

  /** Whether the map puts '#' at the grid point c: row offset - c.y, column c.x + offset. */
  predicate IsHash(lines: seq<string>, offset: int, c: Coordinates)
  {
    var row, col := offset - c.y, c.x + offset;
    0 <= row < |lines| && 0 <= col < |lines[row]| && lines[row][col] == '#'
  }

  /** As IsHash, but only over the cells the reading loop has passed: rows before jrow,
      and columns before jcol of row jrow. */
  predicate IsHashBefore(lines: seq<string>, offset: int, jrow: int, jcol: int, c: Coordinates)
  {
    var row, col := offset - c.y, c.x + offset;
    IsHash(lines, offset, c) && (row < jrow || (row == jrow && col < jcol))
  }

  // ---------------------------------------------------------------------------
  // SporificaVirus

  class SporificaVirus {
    var infected: map<Coordinates, InfectionStatus>
    var position: Coordinates
    var direction: Coordinates
    var infections: int

    function Value(): Carrier
      reads this
    {
      Carrier(infected, position, direction, infections)
    }

    /** The map's '#' cells, as infected nodes centred on the middle of the first line. */
    static method ReadMap(lines: seq<string>, offset: int) returns (nodes: map<Coordinates, InfectionStatus>)
      ensures forall c :: c in nodes <==> IsHash(lines, offset, c)
      ensures forall c :: c in nodes ==> nodes[c] == Infected
    {
      nodes := map[];
      var jrow := 0;
      while jrow < |lines|
        invariant 0 <= jrow <= |lines|
        invariant forall c :: c in nodes <==> IsHashBefore(lines, offset, jrow, 0, c)
        invariant forall c :: c in nodes ==> nodes[c] == Infected
      {
        var line := lines[jrow];
        var jcol := 0;
        while jcol < |line|
          invariant 0 <= jcol <= |line|
          invariant forall c :: c in nodes <==> IsHashBefore(lines, offset, jrow, jcol, c)
          invariant forall c :: c in nodes ==> nodes[c] == Infected
        {
          if line[jcol] == '#' {
            var coords := Coordinates(jcol - offset, offset - jrow);
            nodes := nodes[coords := Infected];
          }
          jcol := jcol + 1;
        }
        jrow := jrow + 1;
      }
    }

    /** NewSporificaVirus: facing up at the origin, with the map's '#' cells infected. */
    constructor (nodeMap: string)
      ensures position == Origin && direction == Up && infections == 0
      ensures forall c :: NodeInfected(c) == if IsHash(Split(nodeMap, '\n'), Offset(|Split(nodeMap, '\n')[0]|), c)
                                            then Infected else Clean
    {
      var nodeMapLines := Split(nodeMap, '\n');
      var size := |nodeMapLines[0]|;
      var offset := Offset(size);
      var nodes := ReadMap(nodeMapLines, offset);
      infected := nodes;
      position := Origin;
      direction := Up;
      infections := 0;
    }

    function NodeInfected(coords: Coordinates): InfectionStatus
      reads this
    {
      NodeStatus(infected, coords)
    }

    method Burst()
      modifies this
      ensures Value() == Bursted(old(Value()))
    {
      if NodeInfected(position) == Infected {
        infected := infected[position := Clean];
        direction := TurnRight(direction);
      } else {
        infections := infections + 1;
        infected := infected[position := Infected];
        direction := TurnLeft(direction);
      }
      position := Move(position, direction);
    }
  }

  // ---------------------------------------------------------------------------
  // The source's examples

  /** The test map `..#`, `#..`, `...`: offset 1, infected at (1, 1) and (-1, 0), clean at the origin. */
  lemma ExampleMap(text: string)
    requires text == "..#\n#..\n...\n"
    ensures Offset(|Split(text, '\n')[0]|) == 1
    ensures IsHash(Split(text, '\n'), 1, Coordinates(1, 1)) && IsHash(Split(text, '\n'), 1, Coordinates(-1, 0))
    ensures !IsHash(Split(text, '\n'), 1, Origin)
  {
    var lines := ["..#", "#..", "...", ""];
    SplitJoin(lines, '\n');
    assert Join(lines, '\n') == text;
  }

  /** From the test map: the first burst infects the origin, turns left and steps to (-1, 0). */
  lemma ExampleFirstBurst(v: Carrier)
    requires v.position == Origin && v.direction == Up && v.infections == 0
    requires NodeStatus(v.infected, Origin) == Clean
    ensures NodeStatus(Bursted(v).infected, Origin) == Infected
    ensures Bursted(v).direction == Left && Bursted(v).position == Left && Bursted(v).infections == 1
  {
  }

  /** The second burst finds (-1, 0) infected: it cleans it, turns right and steps to (-1, 1). */
  lemma ExampleSecondBurst(v: Carrier)
    requires v.position == Left && v.direction == Left && v.infections == 1
    requires NodeStatus(v.infected, Left) == Infected
    ensures NodeStatus(Bursted(v).infected, Left) == Clean
    ensures Bursted(v).direction == Up && Bursted(v).position == Coordinates(-1, 1) && Bursted(v).infections == 1
  {
  }
}
