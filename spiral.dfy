// Spiral memory of day 3: squares numbered 1, 2, 3, ... outward from the origin in
// an anticlockwise square spiral, and the grid coordinates of each square. The
// coordinate type and its move are shared with the virus carrier of day 22.
module Spiral {
  import opened Common

  /** CartesianCoordinates: x grows to the right, y upwards. */
  datatype Coordinates = Coordinates(x: int, y: int)

  const Origin := Coordinates(0, 0)

  function Max(a: int, b: int): int
  {
    if a < b then b else a
  }

  /** manhattanDistance. */
  function ManhattanDistance(c: Coordinates): (d: nat)
    ensures d == 0 <==> c == Origin
    ensures d >= Abs(c.x) && d >= Abs(c.y)
  {
    Abs(c.x) + Abs(c.y)
  }

  /** move: componentwise addition. */
  function Move(c: Coordinates, relative: Coordinates): Coordinates
  {
    Coordinates(c.x + relative.x, c.y + relative.y)
  }

  /** Moves stay put only by the zero amount, are undone by the opposite amount, and
      Manhattan distance obeys the triangle inequality along them. */
  lemma MoveFacts(c: Coordinates, relative: Coordinates)
    ensures Move(c, relative) == c <==> relative == Origin
    ensures Move(Move(c, relative), Coordinates(-relative.x, -relative.y)) == c
    ensures ManhattanDistance(Move(c, relative)) <= ManhattanDistance(c) + ManhattanDistance(relative)
  {
  }

  /** The ring a square lies on: the larger of |x| and |y|. */
  function Ring(c: Coordinates): nat
  {
    Max(Abs(c.x), Abs(c.y))
  }

  // ---------------------------------------------------------------------------
  // findNearestOddSquare

  lemma SquareMono(a: nat, b: nat)
    requires a <= b
    ensures a * a <= b * b
  {
    assert a * a <= a * b <= b * b;
  }

  /** The least odd j >= from with j * j >= number: findNearestOddSquare's loop, entered at j = from. */
  function OddRootFrom(number: int, from: nat): (r: nat)
    requires from % 2 == 1
    ensures r % 2 == 1 && r >= from && r * r >= number
    ensures r == from || (r - 2) * (r - 2) < number
    decreases number - from
  {
    if from * from >= number then from
    else
      MulAtLeast(from, from);
      OddRootFrom(number, from + 2)
  }

  /** The root of the least odd square that is at least `number`. */
  function OddRoot(number: int): nat
  {
    OddRootFrom(number, 1)
  }

  /** Any odd root whose square reaches `number` while the previous odd square does not is OddRoot(number). */
  lemma OddRootIs(number: int, r: nat)
    requires r % 2 == 1 && r * r >= number
    requires r == 1 || (r - 2) * (r - 2) < number
    ensures OddRoot(number) == r
  {
    var q := OddRoot(number);
    if q < r {
      SquareMono(q, r - 2);
      assert false;
    } else if r < q {
      SquareMono(r, q - 2);
      assert false;
    }
  }

  /** findNearestOddSquare: counts up the odd numbers until the square reaches `number`. */
  method FindNearestOddSquare(number: int) returns (j: nat)
    ensures j == OddRoot(number)
  {
    j := 1;
    while true
      invariant j % 2 == 1 && OddRootFrom(number, j) == OddRoot(number)
      decreases number - j
    {
      var jsq := j * j;
      if jsq >= number {
        return j;
      }
      MulAtLeast(j, j);
      j := j + 2;
    }
  }

  /** The odd roots the source's test lists. */
  lemma ExampleOddRoots()
    ensures OddRoot(1) == 1 && OddRoot(2) == 3 && OddRoot(9) == 3 && OddRoot(10) == 5
    ensures OddRoot(24) == 5 && OddRoot(25) == 5 && OddRoot(26) == 7
  {
    OddRootIs(1, 1);
    OddRootIs(2, 3);
    OddRootIs(9, 3);
    OddRootIs(10, 5);
    OddRootIs(24, 5);
    OddRootIs(25, 5);
    OddRootIs(26, 7);
  }

  // ---------------------------------------------------------------------------
  // locationToCoordinates

  /**
   * locationToCoordinates: square 1 is the origin; square `location` > 1 lies on the
   * ring whose last square is root^2, on the bottom, left, top or right side
   * according to how far before root^2 it comes. Locations below 1 divide by zero
   * in the source.
   */
  function LocationToCoordinates(location: int): Coordinates
    requires location >= 1
  {
    if location == 1 then Origin
    else
      var root := OddRoot(location);
      var square := root * root;
      var offset := (location - 1) % (root - 1);
      var h := (root - 1) / 2;
      if location == square then Coordinates(h, -h)
      else if square - (root - 1) <= location then Coordinates(offset - h, -h)
      else if square - 2 * (root - 1) <= location then Coordinates(-h, h - offset)
      else if square - 3 * (root - 1) <= location then Coordinates(h - offset, h)
      else if square - 4 * (root - 1) <= location then Coordinates(h, offset - h)
      else Origin
  }

  /** distanceToLocation. */
  function DistanceToLocation(location: int): nat
    requires location >= 1
  {
    ManhattanDistance(LocationToCoordinates(location))
  }

  /** The number of square c, written out side by side: a reference for `location`. */
  function LocationOf(c: Coordinates): int
  {
    var m: int := Ring(c);
    var square := (2 * m + 1) * (2 * m + 1);
    if m == 0 then 1
    else if c.x == m && c.y == -m then square
    else if c.y == -m then square - m + c.x
    else if c.x == -m then square - 3 * m - c.y
    else if c.y == m then square - 5 * m - c.x
    else square - 7 * m + c.y
  }

  /**
   * The branches of locationToCoordinates for a square of ring m, whose last
   * square is sq and whose sides are 2m long, with the square's offset along its side.
   */
  function OnRing(m: int, sq: int, location: int, offset: int): Coordinates
  {
    if location == sq then Coordinates(m, -m)
    else if sq - 2 * m <= location then Coordinates(offset - m, -m)
    else if sq - 4 * m <= location then Coordinates(-m, m - offset)
    else if sq - 6 * m <= location then Coordinates(m - offset, m)
    else if sq - 8 * m <= location then Coordinates(m, offset - m)
    else Origin
  }

  /** Where j lies along ring m (last square sq): its offset (j - 1) mod 2m, side by side. */
  function SideOffset(m: int, sq: int, j: int): int
  {
    if sq - 2 * m <= j then j - sq + 2 * m
    else if sq - 4 * m <= j then j - sq + 4 * m
    else if sq - 6 * m <= j then j - sq + 6 * m
    else j - sq + 8 * m
  }

  lemma SideOffsetIsMod(m: int, sq: int, j: int)
    requires m >= 1 && sq == 4 * (m * m) + 4 * m + 1
    requires sq - 8 * m < j < sq
    ensures (j - 1) % (2 * m) == SideOffset(m, sq, j)
  {
    if sq - 2 * m <= j {
      ModUnique(j - 1, 2 * m, 2 * m + 1, j - sq + 2 * m);
    } else if sq - 4 * m <= j {
      ModUnique(j - 1, 2 * m, 2 * m, j - sq + 4 * m);
    } else if sq - 6 * m <= j {
      ModUnique(j - 1, 2 * m, 2 * m - 1, j - sq + 6 * m);
    } else {
      ModUnique(j - 1, 2 * m, 2 * m - 2, j - sq + 8 * m);
    }
  }

  /** Square m of ring `location` > 1: the ring m, its last square sq = (2m + 1)^2, and
      locationToCoordinates' branches with the offset worked out. */
  lemma OnRingOf(location: int) returns (m: int, sq: int)
    requires location >= 2
    ensures m >= 1 && OddRoot(location) == 2 * m + 1 && sq == 4 * (m * m) + 4 * m + 1
    ensures sq - 8 * m < location <= sq
    ensures LocationToCoordinates(location) == OnRing(m, sq, location, SideOffset(m, sq, location))
  {
    var root := OddRoot(location);
    m := (root - 1) / 2;
    RingSquares(m);
    sq := 4 * (m * m) + 4 * m + 1;
    assert root * root == sq && root - 1 == 2 * m;
    if location < sq {
      SideOffsetIsMod(m, sq, location);
    }
  }

  /** On ring m, OnRing gives a point of ring m, and LocationOf numbers it back. */
  lemma OnRingInverse(m: int, sq: int, location: int)
    requires m >= 1 && sq == 4 * (m * m) + 4 * m + 1 && sq - 8 * m < location <= sq
    ensures Ring(OnRing(m, sq, location, SideOffset(m, sq, location))) == m
    ensures LocationOf(OnRing(m, sq, location, SideOffset(m, sq, location))) == location
  {
    RingSquares(m);
  }

  /** Square numbers of ring m (m >= 1): after (2m - 1)^2, up to (2m + 1)^2 = 4m^2 + 4m + 1. */
  lemma RingSquares(m: int)
    requires m >= 1
    ensures (2 * m + 1) * (2 * m + 1) == 4 * (m * m) + 4 * m + 1
    ensures (2 * m - 1) * (2 * m - 1) == 4 * (m * m) - 4 * m + 1
  {
  }

  /** locationToCoordinates(1) is the origin, and square `location` > 1 lies on ring (root - 1) / 2. */
  lemma LocationRing(location: int)
    requires location >= 1
    ensures location == 1 ==> LocationToCoordinates(location) == Origin
    ensures location > 1 ==> Ring(LocationToCoordinates(location)) == (OddRoot(location) - 1) / 2
  {
    if location > 1 {
      var m, sq := OnRingOf(location);
      OnRingInverse(m, sq, location);
    }
  }

  /** The last square of each ring is its bottom-right corner: 9 is (1, -1), 25 is (2, -2). */
  lemma CornerOfSquare(root: nat)
    requires root % 2 == 1 && root >= 3
    ensures LocationToCoordinates(root * root) == Coordinates((root - 1) / 2, -(root - 1) / 2)
  {
    OddRootIs(root * root, root);
    var m, sq := OnRingOf(root * root);
  }

  /** LocationOf undoes locationToCoordinates. */
  lemma LocationOfCoordinates(location: int)
    requires location >= 1
    ensures LocationOf(LocationToCoordinates(location)) == location
  {
    if location > 1 {
      var m, sq := OnRingOf(location);
      OnRingInverse(m, sq, location);
    }
  }

  /** locationToCoordinates undoes LocationOf: every grid point is some square, on its own ring. */
  lemma CoordinatesOfLocationOf(c: Coordinates)
    ensures LocationOf(c) >= 1 && LocationToCoordinates(LocationOf(c)) == c
    ensures c != Origin ==>
      (2 * Ring(c) - 1) * (2 * Ring(c) - 1) < LocationOf(c) <= (2 * Ring(c) + 1) * (2 * Ring(c) + 1)
  {
    var m: int := Ring(c);
    if m > 0 {
      var j := LocationOf(c);
      RingSquares(m);
      var sq := 4 * (m * m) + 4 * m + 1;
      assert sq - 8 * m < j <= sq;
      OddRootIs(j, 2 * m + 1);
      var m', sq' := OnRingOf(j);
      assert m' == m && sq' == sq;
    }
  }

  /** Different squares have different coordinates. */
  lemma LocationToCoordinatesInjective(a: int, b: int)
    requires a >= 1 && b >= 1 && LocationToCoordinates(a) == LocationToCoordinates(b)
    ensures a == b
  {
    LocationOfCoordinates(a);
    LocationOfCoordinates(b);
  }

  /** A square's distance from the origin lies between its ring and twice its ring. */
  lemma DistanceBounds(location: int)
    requires location >= 1
    ensures location > 1 ==> (OddRoot(location) - 1) / 2 <= DistanceToLocation(location) <= OddRoot(location) - 1
    ensures location == 1 ==> DistanceToLocation(location) == 0
  {
    LocationRing(location);
  }

  // ---------------------------------------------------------------------------
  // location

  /**
   * location: 1 at the origin; otherwise the first square after the previous ring's
   * last square whose coordinates are c. It always finds LocationOf(c), so the
   * source's -1 is never returned.
   */
  method Location(c: Coordinates) returns (j: int)
    ensures j == LocationOf(c) && j >= 1
  {
    if c == Origin {
      return 1;
    }
    var minRoot := 2 * Max(Abs(c.x), Abs(c.y)) - 1;
    var minSquare := minRoot * minRoot;
    var maxSquare := (minRoot + 2) * (minRoot + 2);
    CoordinatesOfLocationOf(c);
    ghost var m: int := Ring(c);
    ghost var target := LocationOf(c);
    assert minRoot == 2 * m - 1 && minRoot + 2 == 2 * m + 1;
    assert minSquare < target <= maxSquare && LocationToCoordinates(target) == c;
    j := minSquare + 1;
    while j <= maxSquare
      invariant minSquare + 1 <= j <= target
      decreases maxSquare - j
    {
      if LocationToCoordinates(j) == c {
        LocationOfCoordinates(j);
        return j;
      }
      j := j + 1;
    }
    assert false;
    return -1;
  }

  // ---------------------------------------------------------------------------
  // The source's examples

  lemma ExampleMove()
    ensures Move(Coordinates(11, 22), Coordinates(-1, 5)) == Coordinates(10, 27)
    ensures ManhattanDistance(Coordinates(11, -5)) == 16
  {
  }

  /** The first ring, square by square. */
  lemma ExampleFirstRing(n: int)
    requires 2 <= n <= 9
    ensures LocationToCoordinates(n)
            == [Coordinates(1, 0), Coordinates(1, 1), Coordinates(0, 1), Coordinates(-1, 1),
                Coordinates(-1, 0), Coordinates(-1, -1), Coordinates(0, -1), Coordinates(1, -1)][n - 2]
  {
    OddRootIs(n, 3);
    var m, sq := OnRingOf(n);
  }

  /** Square 25 closes the second ring and 26 opens the third. */
  lemma ExampleOuterSquares(n: int)
    requires n == 25 || n == 26
    ensures LocationToCoordinates(n) == if n == 25 then Coordinates(2, -2) else Coordinates(3, -2)
  {
    OddRootIs(n, if n == 25 then 5 else 7);
    var m, sq := OnRingOf(n);
  }

  /** The numbers the source's test expects of `location` at some points of the second ring. */
  lemma ExampleLocations()
    ensures LocationOf(Coordinates(2, 1)) == 12 && LocationOf(Coordinates(-2, 2)) == 17
    ensures LocationOf(Coordinates(0, -2)) == 23 && LocationOf(Coordinates(3, -2)) == 26
  {
  }

  /** The distances the source's test checks on the second ring: 12 -> 3 and 23 -> 2. */
  lemma ExampleDistances(n: int)
    requires n == 12 || n == 23
    ensures DistanceToLocation(n) == if n == 12 then 3 else 2
  {
    OddRootIs(n, 5);
    var m, sq := OnRingOf(n);
    assert m == 2 && sq == 25;
  }

  /** Square 1024 is 31 steps from the origin. */
  lemma ExampleDistance1024(n: int)
    requires n == 1024
    ensures DistanceToLocation(n) == 31
  {
    OddRootIs(n, 33);
    var m, sq := OnRingOf(n);
    assert m == 16 && sq == 1089;
    assert LocationToCoordinates(n) == Coordinates(-15, 16);
  }
}
