// The disk defragmenter of day 14: a 128 x 128 grid whose used squares are the
// bits of 128 rows of hex digits; regions are the 4-connected groups of used
// squares, counted by clearing one region at a time with a recursive flood fill.
module Disk {
  import opened Common

  const DiskHeight := 128
  const DiskWidth := 128

  /** A disk: one row of hex digits per row of squares, four squares per digit. */
  datatype Disk = Disk(rows: seq<string>)

  /** The keys of asciiHexVal. */
  predicate IsHexDigit(c: char)
  {
    '0' <= c <= '9' || 'a' <= c <= 'f'
  }

  /** asciiHexVal. */
  function HexValue(c: char): (v: int)
    requires IsHexDigit(c)
    ensures 0 <= v < 16
  {
    if c <= '9' then c as int - '0' as int else c as int - 'a' as int + 10
  }

  /** `byte(1 << uint(3 - nbit))`: the leftmost square of a digit is its high bit. */
  function Mask(nbit: int): int
    requires 0 <= nbit < 4
  {
    [8, 4, 2, 1][nbit]
  }

  /** `val & mask > 0` for a single-bit mask. */
  predicate HasBit(val: int, nbit: int)
    requires 0 <= nbit < 4
  {
    (val / Mask(nbit)) % 2 == 1
  }

  /** Squares whose digit exists and is one of asciiHexVal's keys; Go panics otherwise. */
  predicate InDisk(d: Disk, row: int, col: int)
  {
    0 <= row < |d.rows| && 0 <= col && col / 4 < |d.rows[row]| && IsHexDigit(d.rows[row][col / 4])
  }

  /** `used(row, col)`. */
  predicate Used(d: Disk, row: int, col: int)
    requires InDisk(d, row, col)
  {
    HasBit(HexValue(d.rows[row][col / 4]), col % 4)
  }

  /** The four squares of a digit spell its value in binary, most significant first. */
  lemma DigitSquares(d: Disk, row: int, n: int)
    requires InDisk(d, row, 4 * n)
    ensures InDisk(d, row, 4 * n + 1) && InDisk(d, row, 4 * n + 2) && InDisk(d, row, 4 * n + 3)
    ensures HexValue(d.rows[row][n]) ==
      8 * (if Used(d, row, 4 * n) then 1 else 0) + 4 * (if Used(d, row, 4 * n + 1) then 1 else 0) +
      2 * (if Used(d, row, 4 * n + 2) then 1 else 0) + (if Used(d, row, 4 * n + 3) then 1 else 0)
  {
    assert (4 * n) / 4 == n && (4 * n + 1) / 4 == n && (4 * n + 2) / 4 == n && (4 * n + 3) / 4 == n;
    assert (4 * n) % 4 == 0 && (4 * n + 1) % 4 == 1 && (4 * n + 2) % 4 == 2 && (4 * n + 3) % 4 == 3;
  }

  /** The rows the program hashes: 128 rows of at least 32 hex digits. */
  predicate HexRows(d: Disk)
  {
    |d.rows| == DiskHeight &&
    forall r :: 0 <= r < DiskHeight ==>
      |d.rows[r]| >= DiskWidth / 4 && forall i :: 0 <= i < DiskWidth / 4 ==> IsHexDigit(d.rows[r][i])
  }

  lemma GridInDisk(d: Disk, row: int, col: int)
    requires HexRows(d) && 0 <= row < DiskHeight && 0 <= col < DiskWidth
    ensures InDisk(d, row, col)
  {
  }

  // Squares and their neighbours.

  /** CartesianCoordinates: x is the row and y the column. */
  datatype Coord = Coord(x: int, y: int)

  /** `p.move(t)`. */
  function Move(p: Coord, t: Coord): Coord
  {
    Coord(p.x + t.x, p.y + t.y)
  }

  /** defragAdjacentCells: up, left, right, down. */
  const Offsets: seq<Coord> := [Coord(-1, 0), Coord(0, -1), Coord(0, 1), Coord(1, 0)]

  /** Two squares that share a side. */
  predicate Adjacent(p: Coord, q: Coord)
  {
    (p.x == q.x && (p.y - q.y == 1 || q.y - p.y == 1)) ||
    (p.y == q.y && (p.x - q.x == 1 || q.x - p.x == 1))
  }

  /** The four offsets reach exactly the squares adjacent to `p`. */
  lemma OffsetsAreAdjacent(p: Coord, q: Coord)
    ensures Adjacent(p, q) <==> exists k :: 0 <= k < 4 && q == Move(p, Offsets[k])
  {
    if Adjacent(p, q) {
      if q.x == p.x - 1 {
        assert q == Move(p, Offsets[0]);
      } else if q.y == p.y - 1 {
        assert q == Move(p, Offsets[1]);
      } else if q.y == p.y + 1 {
        assert q == Move(p, Offsets[2]);
      } else {
        assert q == Move(p, Offsets[3]);
      }
    }
  }

  // Connected regions of a set of squares.

  /** A walk through `s` from square to adjacent square. */
  ghost predicate IsPath(s: set<Coord>, ps: seq<Coord>)
  {
    |ps| > 0 &&
    (forall i :: 0 <= i < |ps| ==> ps[i] in s) &&
    (forall i :: 0 <= i < |ps| - 1 ==> Adjacent(ps[i], ps[i + 1]))
  }

  ghost predicate Connected(s: set<Coord>, a: Coord, b: Coord)
  {
    exists ps :: IsPath(s, ps) && ps[0] == a && ps[|ps| - 1] == b
  }

  /** The 4-connected region of `s` that holds `p`. */
  ghost function Region(s: set<Coord>, p: Coord): set<Coord>
  {
    set q | q in s && Connected(s, p, q)
  }

  /** All regions of `s`. */
  ghost function Regions(s: set<Coord>): set<set<Coord>>
  {
    set q | q in s :: Region(s, q)
  }

  lemma ConnectedSelf(s: set<Coord>, a: Coord)
    requires a in s
    ensures Connected(s, a, a)
  {
    assert IsPath(s, [a]);
  }

  /** A walk can be extended by an adjacent square at either end. */
  lemma ConnectedSnoc(s: set<Coord>, a: Coord, b: Coord, c: Coord)
    requires Connected(s, a, b) && c in s && Adjacent(b, c)
    ensures Connected(s, a, c)
  {
    var ps :| IsPath(s, ps) && ps[0] == a && ps[|ps| - 1] == b;
    assert IsPath(s, ps + [c]);
  }

  lemma ConnectedCons(s: set<Coord>, a: Coord, b: Coord, c: Coord)
    requires a in s && Adjacent(a, b) && Connected(s, b, c)
    ensures Connected(s, a, c)
  {
    var ps :| IsPath(s, ps) && ps[0] == b && ps[|ps| - 1] == c;
    assert IsPath(s, [a] + ps);
  }

  lemma ConnectedMono(s: set<Coord>, t: set<Coord>, a: Coord, b: Coord)
    requires s <= t && Connected(s, a, b)
    ensures Connected(t, a, b)
  {
    var ps :| IsPath(s, ps) && ps[0] == a && ps[|ps| - 1] == b;
    assert IsPath(t, ps);
  }

  lemma ConnectedSym(s: set<Coord>, a: Coord, b: Coord)
    requires Connected(s, a, b)
    ensures Connected(s, b, a)
  {
    var ps :| IsPath(s, ps) && ps[0] == a && ps[|ps| - 1] == b;
    var rs := seq(|ps|, i requires 0 <= i < |ps| => ps[|ps| - 1 - i]);
    assert IsPath(s, rs);
  }

  lemma ConnectedTrans(s: set<Coord>, a: Coord, b: Coord, c: Coord)
    requires Connected(s, a, b) && Connected(s, b, c)
    ensures Connected(s, a, c)
  {
    var ps :| IsPath(s, ps) && ps[0] == a && ps[|ps| - 1] == b;
    var qs :| IsPath(s, qs) && qs[0] == b && qs[|qs| - 1] == c;
    var rs := ps + qs[1..];
    assert IsPath(s, rs);
  }

  /** A walk's first i + 1 squares are a walk to its i-th square. */
  lemma ConnectedPrefix(s: set<Coord>, ps: seq<Coord>, i: int)
    requires IsPath(s, ps) && 0 <= i < |ps|
    ensures Connected(s, ps[0], ps[i])
  {
    assert IsPath(s, ps[..i + 1]);
  }

  /** Squares of one region have that same region. */
  lemma RegionOfMember(s: set<Coord>, p: Coord, q: Coord)
    requires q in Region(s, p)
    ensures Region(s, q) == Region(s, p)
  {
    ConnectedSym(s, p, q);
    forall c | c in Region(s, q)
      ensures c in Region(s, p)
    {
      ConnectedTrans(s, p, q, c);
    }
    forall c | c in Region(s, p)
      ensures c in Region(s, q)
    {
      ConnectedTrans(s, q, p, c);
    }
  }

  /** A square outside p's region keeps its region when p's region is taken away. */
  lemma RegionOfOther(s: set<Coord>, p: Coord, q: Coord)
    requires q in s && q !in Region(s, p)
    ensures Region(s - Region(s, p), q) == Region(s, q)
  {
    var r := Region(s, p);
    var t := s - r;
    forall c | c in Region(t, q)
      ensures c in Region(s, q)
    {
      ConnectedMono(t, s, q, c);
    }
    forall c | c in Region(s, q)
      ensures c in Region(t, q)
    {
      var ps :| IsPath(s, ps) && ps[0] == q && ps[|ps| - 1] == c;
      forall i | 0 <= i < |ps|
        ensures ps[i] !in r
      {
        if ps[i] in r {
          ConnectedPrefix(s, ps, i);
          ConnectedSym(s, q, ps[i]);
          ConnectedTrans(s, p, ps[i], q);
        }
      }
      assert IsPath(t, ps);
    }
  }

  /** Taking away one region of `s` leaves exactly the other regions. */
  lemma RemoveRegion(s: set<Coord>, p: Coord)
    requires p in s
    ensures Region(s, p) in Regions(s)
    ensures Regions(s - Region(s, p)) == Regions(s) - {Region(s, p)}
    ensures |Regions(s - Region(s, p))| == |Regions(s)| - 1
  {
    var r := Region(s, p);
    var t := s - r;
    forall g | g in Regions(t)
      ensures g in Regions(s) - {r}
    {
      var q :| q in t && g == Region(t, q);
      RegionOfOther(s, p, q);
      ConnectedSelf(s, q);
    }
    forall g | g in Regions(s) - {r}
      ensures g in Regions(t)
    {
      var q :| q in s && g == Region(s, q);
      if q in r {
        RegionOfMember(s, p, q);
      }
      RegionOfOther(s, p, q);
    }
  }

  // The flood fill, on sets of squares.

  /**
   * What markAdjacent knows after clearing `p` and handling the first k
   * neighbours: what is still set lies in s0 minus p and is a union of whole
   * regions of it, every cleared square is connected to p, and the neighbours
   * handled so far are clear.
   */
  ghost predicate Filling(s0: set<Coord>, p: Coord, cur: set<Coord>, k: int)
  {
    0 <= k <= 4 && cur <= s0 - {p} &&
    (forall c, d :: c in cur && d in s0 - {p} && Adjacent(c, d) ==> d in cur) &&
    (forall c :: c in s0 - {p} && c !in cur ==> Connected(s0, p, c)) &&
    (forall j :: 0 <= j < k ==> Move(p, Offsets[j]) !in cur)
  }

  lemma FillingStarts(s0: set<Coord>, p: Coord)
    ensures Filling(s0, p, s0 - {p}, 0)
  {
  }

  /** A neighbour that is already clear needs nothing. */
  lemma FillingSkips(s0: set<Coord>, p: Coord, cur: set<Coord>, k: int)
    requires 0 <= k < 4 && Filling(s0, p, cur, k) && Move(p, Offsets[k]) !in cur
    ensures Filling(s0, p, cur, k + 1)
  {
  }

  /** Clearing a set neighbour's region keeps the fill's invariant. */
  lemma FillingClears(s0: set<Coord>, p: Coord, cur: set<Coord>, k: int)
    requires 0 <= k < 4 && p in s0 && Filling(s0, p, cur, k) && Move(p, Offsets[k]) in cur
    ensures Filling(s0, p, cur - Region(cur, Move(p, Offsets[k])), k + 1)
  {
    var n := Move(p, Offsets[k]);
    var r := Region(cur, n);
    var next := cur - r;
    ConnectedSelf(cur, n);
    OffsetsAreAdjacent(p, n);
    forall c, d | c in next && d in s0 - {p} && Adjacent(c, d)
      ensures d in next
    {
      if d in r {
        ConnectedSnoc(cur, n, d, c);
      }
    }
    forall c | c in s0 - {p} && c !in next
      ensures Connected(s0, p, c)
    {
      if c in r {
        ConnectedMono(cur, s0, n, c);
        ConnectedCons(s0, p, n, c);
      }
    }
  }

  /** Once every neighbour is handled, every walk from p stays among cleared squares. */
  lemma {:induction false} WalkCleared(s0: set<Coord>, p: Coord, cur: set<Coord>, ps: seq<Coord>, i: int)
    requires Filling(s0, p, cur, 4)
    requires IsPath(s0, ps) && ps[0] == p && 0 <= i < |ps|
    ensures ps[i] !in cur
  {
    if i > 0 {
      WalkCleared(s0, p, cur, ps, i - 1);
      assert Adjacent(ps[i - 1], ps[i]);
      if ps[i - 1] == p {
        OffsetsAreAdjacent(p, ps[i]);
      } else if ps[i] != p {
        assert Adjacent(ps[i], ps[i - 1]);
      }
    }
  }

  /** After all four neighbours, exactly p's region has been cleared. */
  lemma FillingEnds(s0: set<Coord>, p: Coord, cur: set<Coord>)
    requires p in s0 && Filling(s0, p, cur, 4)
    ensures cur == s0 - Region(s0, p)
  {
    ConnectedSelf(s0, p);
    forall c | c in cur
      ensures c !in Region(s0, p)
    {
      if Connected(s0, p, c) {
        var ps :| IsPath(s0, ps) && ps[0] == p && ps[|ps| - 1] == c;
        WalkCleared(s0, p, cur, ps, |ps| - 1);
      }
    }
  }

  // The bitmap.

  /** The squares a bitmap still has set. */
  ghost function Marked(b: array2<bool>): set<Coord>
    reads b
  {
    set x, y | 0 <= x < b.Length0 && 0 <= y < b.Length1 && b[x, y] :: Coord(x, y)
  }

  /**
   * markAdjacent: clears p's region of set squares, and nothing else. Go panics
   * when p is clear; the bounds test before each recursive call keeps every
   * probe inside the bitmap.
   */
  method MarkAdjacent(bitmap: array2<bool>, p: Coord)
    requires 0 <= p.x < bitmap.Length0 && 0 <= p.y < bitmap.Length1 && bitmap[p.x, p.y]
    modifies bitmap
    ensures Marked(bitmap) == old(Marked(bitmap)) - Region(old(Marked(bitmap)), p)
    decreases |Marked(bitmap)|
  {
    ghost var s0 := Marked(bitmap);
    bitmap[p.x, p.y] := false;
    assert Marked(bitmap) == s0 - {p};
    FillingStarts(s0, p);
    for k := 0 to 4
      invariant Filling(s0, p, Marked(bitmap), k)
    {
      var np := Move(p, Offsets[k]);
      ghost var cur := Marked(bitmap);
      if 0 <= np.x < bitmap.Length0 && 0 <= np.y < bitmap.Length1 && bitmap[np.x, np.y] {
        assert np in cur;
        SubsetCard(cur, s0 - {p});
        MarkAdjacent(bitmap, np);
        FillingClears(s0, p, cur, k);
      } else {
        FillingSkips(s0, p, cur, k);
      }
    }
    FillingEnds(s0, p, Marked(bitmap));
  }

  // Counting used squares and regions.

  /** The used squares that come before (r, c) in row-major order. */
  ghost function UsedBefore(d: Disk, r: int, c: int): set<Coord>
    requires HexRows(d)
  {
    set x, y | 0 <= x < DiskHeight && 0 <= y < DiskWidth && (x < r || (x == r && y < c)) && Used(d, x, y)
      :: Coord(x, y)
  }

  /** All used squares of the grid. */
  ghost function UsedSquares(d: Disk): set<Coord>
    requires HexRows(d)
  {
    set x, y | 0 <= x < DiskHeight && 0 <= y < DiskWidth && Used(d, x, y) :: Coord(x, y)
  }

  lemma UsedBeforeNext(d: Disk, r: int, c: int)
    requires HexRows(d) && 0 <= r < DiskHeight && 0 <= c < DiskWidth
    ensures Coord(r, c) !in UsedBefore(d, r, c)
    ensures UsedBefore(d, r, c + 1) == UsedBefore(d, r, c) + (if Used(d, r, c) then {Coord(r, c)} else {})
  {
  }

  lemma UsedBeforeRow(d: Disk, r: int)
    requires HexRows(d)
    ensures UsedBefore(d, r, DiskWidth) == UsedBefore(d, r + 1, 0)
  {
  }

  lemma UsedBeforeAll(d: Disk)
    requires HexRows(d)
    ensures UsedBefore(d, DiskHeight, 0) == UsedSquares(d)
    ensures UsedBefore(d, 0, 0) == {}
  {
  }

  /** `usedCount()`: the number of used squares. */
  method UsedCount(d: Disk) returns (count: int)
    requires HexRows(d)
    ensures count == |UsedSquares(d)|
  {
    count := 0;
    UsedBeforeAll(d);
    for jrow := 0 to DiskHeight
      invariant count == |UsedBefore(d, jrow, 0)|
    {
      for jcol := 0 to DiskWidth
        invariant count == |UsedBefore(d, jrow, jcol)|
      {
        UsedBeforeNext(d, jrow, jcol);
        if Used(d, jrow, jcol) {
          count := count + 1;
        }
      }
      UsedBeforeRow(d, jrow);
    }
  }

  /** `regionCount()`: the number of 4-connected regions of used squares. */
  method RegionCount(d: Disk) returns (count: int)
    requires HexRows(d)
    ensures count == |Regions(UsedSquares(d))|
  {
    var bitmap := new bool[DiskHeight, DiskWidth]((i, j) => false);
    UsedBeforeAll(d);
    for jrow := 0 to DiskHeight
      invariant Marked(bitmap) == UsedBefore(d, jrow, 0)
    {
      for jcol := 0 to DiskWidth
        invariant Marked(bitmap) == UsedBefore(d, jrow, jcol)
      {
        UsedBeforeNext(d, jrow, jcol);
        if Used(d, jrow, jcol) {
          bitmap[jrow, jcol] := true;
        }
      }
      UsedBeforeRow(d, jrow);
    }
    count := ClearRegions(bitmap);
  }

  /** The counting loops of regionCount: one region per square still set when reached. */
  method ClearRegions(bitmap: array2<bool>) returns (count: int)
    modifies bitmap
    ensures count == |Regions(old(Marked(bitmap)))|
    ensures Marked(bitmap) == {}
  {
    ghost var s0 := Marked(bitmap);
    count := 0;
    for jrow := 0 to bitmap.Length0
      invariant count + |Regions(Marked(bitmap))| == |Regions(s0)|
      invariant forall c :: c in Marked(bitmap) ==> c.x >= jrow
    {
      for jcol := 0 to bitmap.Length1
        invariant count + |Regions(Marked(bitmap))| == |Regions(s0)|
        invariant forall c :: c in Marked(bitmap) ==> c.x > jrow || (c.x == jrow && c.y >= jcol)
      {
        if bitmap[jrow, jcol] {
          count := count + 1;
          var pos := Coord(jrow, jcol);
          ghost var cur := Marked(bitmap);
          RemoveRegion(cur, pos);
          ConnectedSelf(cur, pos);
          MarkAdjacent(bitmap, pos);
        }
      }
    }
    assert forall c :: c !in Marked(bitmap);
  }

  /**
   * The squares the test reads from rows 0 and 2, for rows that begin with the
   * digits d4 and 0a: ##.#.#.. and ....#.#. .
   */
  lemma ExampleUsed(d: Disk)
    requires |d.rows| >= 3 && |d.rows[0]| >= 2 && |d.rows[2]| >= 2
    requires d.rows[0][0] == 'd' && d.rows[0][1] == '4' && d.rows[2][0] == '0' && d.rows[2][1] == 'a'
    ensures forall col :: 0 <= col < 8 ==> InDisk(d, 0, col) && InDisk(d, 2, col)
    ensures Used(d, 0, 0) && Used(d, 0, 1) && !Used(d, 0, 2) && Used(d, 0, 3)
    ensures !Used(d, 0, 4) && Used(d, 0, 5) && !Used(d, 0, 6) && !Used(d, 0, 7)
    ensures !Used(d, 2, 0) && !Used(d, 2, 1) && !Used(d, 2, 2) && !Used(d, 2, 3)
    ensures Used(d, 2, 4) && !Used(d, 2, 5) && Used(d, 2, 6) && !Used(d, 2, 7)
  {
    DigitSquares(d, 0, 0);
    DigitSquares(d, 0, 1);
    DigitSquares(d, 2, 0);
    DigitSquares(d, 2, 1);
  }
}
