// The corruption checksum of day 2: a spreadsheet is read from tab-separated
// rows of integers; checksum sums each row's largest-minus-smallest, checksum2
// sums, for each row, the quotient of its first evenly dividing pair of cells.
module Spreadsheet {
  import opened Common
  import opened Text

  datatype SpreadsheetRow = SpreadsheetRow(cells: seq<int>)

  /** A blank line of the descriptor is the zero row, which has no cells. */
  datatype Spreadsheet = Spreadsheet(rows: seq<SpreadsheetRow>)

  // ---------------------------------------------------------------------------
  // The row checksum: largest minus smallest

  function Max(s: seq<int>): int
    requires |s| > 0
  {
    if |s| == 1 then s[0]
    else
      var m := Max(s[..|s| - 1]);
      if s[|s| - 1] > m then s[|s| - 1] else m
  }

  function Min(s: seq<int>): int
    requires |s| > 0
  {
    if |s| == 1 then s[0]
    else
      var m := Min(s[..|s| - 1]);
      if s[|s| - 1] < m then s[|s| - 1] else m
  }

  /** Max is a cell of s and no cell exceeds it. */
  lemma {:induction false} MaxIsLargest(s: seq<int>)
    requires |s| > 0
    ensures forall i :: 0 <= i < |s| ==> s[i] <= Max(s)
    ensures exists i :: 0 <= i < |s| && s[i] == Max(s)
  {
    if |s| > 1 {
      var init := s[..|s| - 1];
      MaxIsLargest(init);
      var i :| 0 <= i < |init| && init[i] == Max(init);
      assert s[i] == init[i];
      if s[|s| - 1] > Max(init) {
        assert s[|s| - 1] == Max(s);
      } else {
        assert s[i] == Max(s);
      }
      forall k | 0 <= k < |s| ensures s[k] <= Max(s) {
        if k < |s| - 1 { assert s[k] == init[k]; }
      }
    } else {
      assert s[0] == Max(s);
    }
  }

  /** Min is a cell of s and no cell is below it. */
  lemma {:induction false} MinIsSmallest(s: seq<int>)
    requires |s| > 0
    ensures forall i :: 0 <= i < |s| ==> Min(s) <= s[i]
    ensures exists i :: 0 <= i < |s| && s[i] == Min(s)
  {
    if |s| > 1 {
      var init := s[..|s| - 1];
      MinIsSmallest(init);
      var i :| 0 <= i < |init| && init[i] == Min(init);
      assert s[i] == init[i];
      if s[|s| - 1] < Min(init) {
        assert s[|s| - 1] == Min(s);
      } else {
        assert s[i] == Min(s);
      }
      forall k | 0 <= k < |s| ensures Min(s) <= s[k] {
        if k < |s| - 1 { assert s[k] == init[k]; }
      }
    } else {
      assert s[0] == Min(s);
    }
  }

  /**
   * The checksum of a row: its largest cell minus its smallest. A row without
   * cells has no first cell to start the scan from, and the program panics.
   */
  function RowChecksum(row: SpreadsheetRow): (r: Option<int>)
    ensures r.Some? <==> |row.cells| > 0
  {
    if |row.cells| == 0 then None else Some(Max(row.cells) - Min(row.cells))
  }

  /**
   * The row checksum is the spread of the row: a difference of two of its
   * cells that bounds the difference of any two, and so is never negative.
   */
  lemma RowChecksumIsSpread(row: SpreadsheetRow)
    requires |row.cells| > 0
    ensures RowChecksum(row).value >= 0
    ensures exists i, j :: 0 <= i < |row.cells| && 0 <= j < |row.cells|
                           && RowChecksum(row).value == row.cells[i] - row.cells[j]
    ensures forall i, j :: 0 <= i < |row.cells| && 0 <= j < |row.cells|
                           ==> row.cells[i] - row.cells[j] <= RowChecksum(row).value
  {
    MaxIsLargest(row.cells);
    MinIsSmallest(row.cells);
    var i :| 0 <= i < |row.cells| && row.cells[i] == Max(row.cells);
    var j :| 0 <= j < |row.cells| && row.cells[j] == Min(row.cells);
    assert RowChecksum(row).value == row.cells[i] - row.cells[j];
  }

  /** SpreadsheetRow.checksum: one pass keeping the running largest and smallest. */
  method ComputeRowChecksum(row: SpreadsheetRow) returns (r: Option<int>)
    ensures r == RowChecksum(row)
  {
    var cells := row.cells;
    if |cells| == 0 {
      return None;
    }
    var max := cells[0];
    var min := cells[0];
    for jcell := 1 to |cells|
      invariant max == Max(cells[..jcell])
      invariant min == Min(cells[..jcell])
    {
      assert cells[..jcell + 1][..jcell] == cells[..jcell];
      var current := cells[jcell];
      if current > max {
        max := current;
      }
      if current < min {
        min := current;
      }
    }
    assert cells[..|cells|] == cells;
    return Some(max - min);
  }

  // ---------------------------------------------------------------------------
  // The row checksum2: the quotient of the first evenly dividing pair

  /**
   * The scan of checksum2 from cell pair (j, k): pairs are tried with j before
   * k, k running fastest; the first pair where one cell divides the other gives
   * the quotient, and a row with no such pair gives 0. A zero cell in the j
   * position is a division by zero, a panic: None. Go's `%` and `/` truncate
   * where Dafny's are Euclidean, but both agree that a remainder is zero and
   * on the quotient of an exact division.
   */
  function Scan2(cells: seq<int>, j: nat, k: nat): (r: Option<int>)
    requires j < k
    ensures r.None? ==> exists i :: j <= i < |cells| - 1 && cells[i] == 0
    decreases |cells| - j, |cells| - k
  {
    if j + 1 >= |cells| then Some(0)
    else if k >= |cells| then Scan2(cells, j + 1, j + 2)
    else if cells[j] == 0 then None
    else if PairQuotient(cells[j], cells[k]).Some? then PairQuotient(cells[j], cells[k])
    else Scan2(cells, j, k + 1)
  }

  /**
   * The test of one pair in checksum2: the later cell over the earlier if that
   * divides evenly, else the earlier over the later if that does. When the
   * earlier cell does not divide the later, the later is not zero.
   */
  function PairQuotient(jcurr: int, kcurr: int): (q: Option<int>)
    requires jcurr != 0
    ensures q.Some? <==> Divides(jcurr, kcurr) || Divides(kcurr, jcurr)
    ensures q.Some? ==> IsQuotient(q.value, jcurr, kcurr)
  {
    if kcurr % jcurr == 0 then Some(kcurr / jcurr)
    else if jcurr % kcurr == 0 then Some(jcurr / kcurr)
    else None
  }

  function RowChecksum2(row: SpreadsheetRow): Option<int>
  {
    Scan2(row.cells, 0, 1)
  }

  /**
   * The inner loop of SpreadsheetRow.checksum2 for cell jcell: the scan either
   * ends at one of the later cells (done) or moves on to the next jcell.
   */
  method ScanPartners(cells: seq<int>, jcell: nat) returns (done: bool, r: Option<int>)
    requires jcell + 1 < |cells|
    ensures done ==> r == Scan2(cells, jcell, jcell + 1)
    ensures !done ==> Scan2(cells, jcell, jcell + 1) == Scan2(cells, jcell + 1, jcell + 2)
  {
    var jcurr := cells[jcell];
    var kcell := jcell + 1;
    while kcell < |cells|
      invariant jcell < kcell <= |cells|
      invariant Scan2(cells, jcell, jcell + 1) == Scan2(cells, jcell, kcell)
    {
      var kcurr := cells[kcell];
      if jcurr == 0 {
        return true, None;
      }
      var quotient := PairQuotient(jcurr, kcurr);
      if quotient.Some? {
        return true, quotient;
      }
      kcell := kcell + 1;
    }
    return false, None;
  }

  /** SpreadsheetRow.checksum2: two nested loops that return at the first dividing pair. */
  method ComputeRowChecksum2(row: SpreadsheetRow) returns (r: Option<int>)
    ensures r == RowChecksum2(row)
  {
    var cells := row.cells;
    var jcell := 0;
    while jcell < |cells| - 1
      invariant RowChecksum2(row) == Scan2(cells, jcell, jcell + 1)
      decreases |cells| - jcell
    {
      var done, found := ScanPartners(cells, jcell);
      if done {
        return found;
      }
      jcell := jcell + 1;
    }
    return Some(0);
  }

  predicate NoZero(cells: seq<int>)
  {
    forall i :: 0 <= i < |cells| ==> cells[i] != 0
  }

  /** d divides n evenly. */
  predicate Divides(d: int, n: int)
  {
    d != 0 && n % d == 0
  }

  /** One cell of the pair (j, k) divides the other. */
  predicate EvenPair(cells: seq<int>, j: int, k: int)
    requires 0 <= j < k < |cells|
  {
    Divides(cells[j], cells[k]) || Divides(cells[k], cells[j])
  }

  /** No pair tried before (j, k) divides evenly. */
  predicate NoEvenPairBefore(cells: seq<int>, j: int, k: int)
  {
    forall a, b :: 0 <= a < b < |cells| && (a < j || (a == j && b < k)) ==> !EvenPair(cells, a, b)
  }

  /** (j, k) is the first evenly dividing pair in the order the scan tries them. */
  predicate FirstEvenPair(cells: seq<int>, j: int, k: int)
  {
    0 <= j < k < |cells| && EvenPair(cells, j, k) && NoEvenPairBefore(cells, j, k)
  }

  /** q is the larger of the pair over the smaller: one cell is q times the other. */
  predicate IsQuotient(q: int, x: int, y: int)
  {
    q * x == y || q * y == x
  }

  lemma {:induction false} ScanFindsFirstPair(cells: seq<int>, j: nat, k: nat)
    requires NoZero(cells)
    requires j < k && (j + 1 < |cells| ==> k <= |cells|)
    requires NoEvenPairBefore(cells, j, k)
    ensures Scan2(cells, j, k).Some?
    ensures Scan2(cells, j, k).value == 0 ==> NoEvenPairBefore(cells, |cells|, 0)
    ensures Scan2(cells, j, k).value != 0 ==>
              exists a, b :: FirstEvenPair(cells, a, b) && IsQuotient(Scan2(cells, j, k).value, cells[a], cells[b])
    decreases |cells| - j, |cells| - k
  {
    if j + 1 >= |cells| {
      forall a, b | 0 <= a < b < |cells| ensures !EvenPair(cells, a, b) {
        assert a < j || (a == j && b < k);
      }
    } else if k >= |cells| {
      forall a, b | 0 <= a < b < |cells| && (a < j + 1 || (a == j + 1 && b < j + 2))
        ensures !EvenPair(cells, a, b)
      {
        assert a < j || (a == j && b < k);
      }
      ScanFindsFirstPair(cells, j + 1, j + 2);
    } else if cells[k] % cells[j] == 0 {
      var q := cells[k] / cells[j];
      assert cells[k] == cells[j] * q;
      assert FirstEvenPair(cells, j, k);
    } else if cells[j] % cells[k] == 0 {
      var q := cells[j] / cells[k];
      assert cells[j] == cells[k] * q;
      assert FirstEvenPair(cells, j, k);
    } else {
      assert !EvenPair(cells, j, k);
      ScanFindsFirstPair(cells, j, k + 1);
    }
  }

  /**
   * For a row of non-zero cells, checksum2 is 0 exactly when no pair of cells
   * divides evenly, and otherwise the quotient of the first such pair.
   */
  lemma RowChecksum2IsFirstQuotient(row: SpreadsheetRow)
    requires NoZero(row.cells)
    ensures RowChecksum2(row).Some?
    ensures RowChecksum2(row).value == 0 <==>
              forall a, b :: 0 <= a < b < |row.cells| ==> !EvenPair(row.cells, a, b)
    ensures RowChecksum2(row).value != 0 ==>
              exists a, b :: FirstEvenPair(row.cells, a, b)
                             && IsQuotient(RowChecksum2(row).value, row.cells[a], row.cells[b])
  {
    ScanFindsFirstPair(row.cells, 0, 1);
  }

  /** A zero first cell with a cell after it divides by zero. */
  lemma ZeroFirstCellPanics(row: SpreadsheetRow)
    requires |row.cells| >= 2 && row.cells[0] == 0
    ensures RowChecksum2(row).None?
  {
  }

  // ---------------------------------------------------------------------------
  // Sheet checksums: the sum over the rows, or a panic if any row panics

  /** The sum of the values, or None when any is None. */
  function Total(values: seq<Option<int>>): (r: Option<int>)
    ensures r.Some? <==> forall i :: 0 <= i < |values| ==> values[i].Some?
  {
    if values == [] then Some(0)
    else
      match (Total(values[..|values| - 1]), values[|values| - 1])
      case (Some(t), Some(v)) => Some(t + v)
      case _ => None
  }

  lemma {:induction false} TotalAppend(xs: seq<Option<int>>, ys: seq<Option<int>>)
    requires Total(xs).Some? && Total(ys).Some?
    ensures Total(xs + ys) == Some(Total(xs).value + Total(ys).value)
    decreases |ys|
  {
    if ys == [] {
      assert xs + ys == xs;
    } else {
      var init := ys[..|ys| - 1];
      assert (xs + ys)[..|xs + ys| - 1] == xs + init;
      assert Total(init).Some? by {
        forall i | 0 <= i < |init| ensures init[i].Some? { assert init[i] == ys[i]; }
      }
      TotalAppend(xs, init);
    }
  }

  function RowChecksums(sheet: Spreadsheet): (r: seq<Option<int>>)
    ensures |r| == |sheet.rows|
  {
    seq(|sheet.rows|, i requires 0 <= i < |sheet.rows| => RowChecksum(sheet.rows[i]))
  }

  function RowChecksums2(sheet: Spreadsheet): (r: seq<Option<int>>)
    ensures |r| == |sheet.rows|
  {
    seq(|sheet.rows|, i requires 0 <= i < |sheet.rows| => RowChecksum2(sheet.rows[i]))
  }

  lemma RowChecksums2At(sheet: Spreadsheet)
    ensures forall i :: 0 <= i < |sheet.rows| ==> RowChecksums2(sheet)[i] == RowChecksum2(sheet.rows[i])
  {
  }

  function SheetChecksum(sheet: Spreadsheet): Option<int>
  {
    Total(RowChecksums(sheet))
  }

  function SheetChecksum2(sheet: Spreadsheet): (r: Option<int>)
    ensures r.Some? <==> forall i :: 0 <= i < |sheet.rows| ==> RowChecksum2(sheet.rows[i]).Some?
  {
    RowChecksums2At(sheet);
    Total(RowChecksums2(sheet))
  }

  /** Spreadsheet.checksum panics exactly on a row without cells and is never negative. */
  lemma SheetChecksumDefined(sheet: Spreadsheet)
    ensures SheetChecksum(sheet).Some? <==> forall i :: 0 <= i < |sheet.rows| ==> |sheet.rows[i].cells| > 0
    ensures SheetChecksum(sheet).Some? ==> SheetChecksum(sheet).value >= 0
  {
    if SheetChecksum(sheet).Some? {
      forall i | 0 <= i < |sheet.rows| ensures |sheet.rows[i].cells| > 0 {
        assert RowChecksums(sheet)[i].Some?;
      }
      SheetChecksumNonNegative(sheet.rows);
    }
  }

  lemma {:induction false} SheetChecksumNonNegative(rows: seq<SpreadsheetRow>)
    requires forall i :: 0 <= i < |rows| ==> |rows[i].cells| > 0
    ensures SheetChecksum(Spreadsheet(rows)).Some? && SheetChecksum(Spreadsheet(rows)).value >= 0
  {
    if rows != [] {
      var init := rows[..|rows| - 1];
      SheetChecksumNonNegative(init);
      assert RowChecksums(Spreadsheet(rows))[..|rows| - 1] == RowChecksums(Spreadsheet(init));
      RowChecksumIsSpread(rows[|rows| - 1]);
    }
  }

  /** Stacking two sheets adds their checksums, for either checksum. */
  lemma SheetChecksumsAppend(top: Spreadsheet, bottom: Spreadsheet)
    ensures SheetChecksum(top).Some? && SheetChecksum(bottom).Some? ==>
              SheetChecksum(Spreadsheet(top.rows + bottom.rows))
              == Some(SheetChecksum(top).value + SheetChecksum(bottom).value)
    ensures SheetChecksum2(top).Some? && SheetChecksum2(bottom).Some? ==>
              SheetChecksum2(Spreadsheet(top.rows + bottom.rows))
              == Some(SheetChecksum2(top).value + SheetChecksum2(bottom).value)
  {
    var both := Spreadsheet(top.rows + bottom.rows);
    assert RowChecksums(both) == RowChecksums(top) + RowChecksums(bottom);
    assert RowChecksums2(both) == RowChecksums2(top) + RowChecksums2(bottom);
    if SheetChecksum(top).Some? && SheetChecksum(bottom).Some? {
      TotalAppend(RowChecksums(top), RowChecksums(bottom));
    }
    if SheetChecksum2(top).Some? && SheetChecksum2(bottom).Some? {
      TotalAppend(RowChecksums2(top), RowChecksums2(bottom));
    }
  }

  /** Spreadsheet.checksum: add up the row checksums, stopping at a row that panics. */
  method ComputeSheetChecksum(sheet: Spreadsheet) returns (r: Option<int>)
    ensures r == SheetChecksum(sheet)
  {
    var sums := RowChecksums(sheet);
    var checksum := 0;
    for jrow := 0 to |sheet.rows|
      invariant Total(sums[..jrow]) == Some(checksum)
    {
      assert sums[..jrow + 1][..jrow] == sums[..jrow];
      var c := ComputeRowChecksum(sheet.rows[jrow]);
      if c.None? {
        assert !sums[jrow].Some?;
        return None;
      }
      checksum := checksum + c.value;
    }
    assert sums[..|sheet.rows|] == sums;
    return Some(checksum);
  }

  /** Spreadsheet.checksum2: add up the row checksum2s, stopping at a row that panics. */
  method ComputeSheetChecksum2(sheet: Spreadsheet) returns (r: Option<int>)
    ensures r == SheetChecksum2(sheet)
  {
    var sums := RowChecksums2(sheet);
    var checksum := 0;
    for jrow := 0 to |sheet.rows|
      invariant Total(sums[..jrow]) == Some(checksum)
    {
      assert sums[..jrow + 1][..jrow] == sums[..jrow];
      var c := ComputeRowChecksum2(sheet.rows[jrow]);
      if c.None? {
        assert !sums[jrow].Some?;
        return None;
      }
      checksum := checksum + c.value;
    }
    assert sums[..|sheet.rows|] == sums;
    return Some(checksum);
  }

  // ---------------------------------------------------------------------------
  // Reading the spreadsheet

  /** strconv.Atoi of every descriptor, or None (the panic) if any is not an integer. */
  function ParseCells(parts: seq<string>): (r: Option<seq<int>>)
    ensures r.Some? ==> |r.value| == |parts| && forall i :: 0 <= i < |parts| ==> Atoi(parts[i]) == Some(r.value[i])
    ensures r.None? ==> exists i :: 0 <= i < |parts| && Atoi(parts[i]).None?
  {
    if parts == [] then Some([])
    else
      match (ParseCells(parts[..|parts| - 1]), Atoi(parts[|parts| - 1]))
      case (Some(init), Some(v)) => Some(init + [v])
      case (None, _) => None
      case (_, None) => None
  }

  /** NewSpreadsheetRow: the tab-separated cells of one line. */
  function RowOf(descriptor: string): Option<SpreadsheetRow>
  {
    match ParseCells(Split(descriptor, '\t'))
    case Some(cells) => Some(SpreadsheetRow(cells))
    case None => None
  }

  /** The rows of NewSpreadsheet: a blank line is a row without cells. */
  function ParseRows(lines: seq<string>): (r: Option<seq<SpreadsheetRow>>)
    ensures r.Some? ==> |r.value| == |lines|
    ensures r.None? <==> exists i :: 0 <= i < |lines| && |lines[i]| > 0 && RowOf(lines[i]).None?
  {
    if lines == [] then Some([])
    else
      var line := lines[|lines| - 1];
      var last := if |line| == 0 then Some(SpreadsheetRow([])) else RowOf(line);
      match (ParseRows(lines[..|lines| - 1]), last)
      case (Some(init), Some(row)) => Some(init + [row])
      case (None, _) => None
      case (_, None) => None
  }

  /** NewSpreadsheet: one row per newline-separated line. */
  function SheetOf(descriptor: string): Option<Spreadsheet>
  {
    match ParseRows(Split(descriptor, '\n'))
    case Some(rows) => Some(Spreadsheet(rows))
    case None => None
  }

  /** NewSpreadsheetRow: one Atoi per tab-separated descriptor, filling the row in order. */
  method NewSpreadsheetRow(descriptor: string) returns (r: Option<SpreadsheetRow>)
    ensures r == RowOf(descriptor)
  {
    var cellDescriptors := Split(descriptor, '\t');
    var row: seq<int> := [];
    for j := 0 to |cellDescriptors|
      invariant ParseCells(cellDescriptors[..j]) == Some(row)
    {
      assert cellDescriptors[..j + 1][..j] == cellDescriptors[..j];
      var cellValue := Atoi(cellDescriptors[j]);
      if cellValue.None? {
        return None;
      }
      row := row + [cellValue.value];
    }
    assert cellDescriptors[..|cellDescriptors|] == cellDescriptors;
    return Some(SpreadsheetRow(row));
  }

  /** NewSpreadsheet: a row per line, leaving the zero row for a blank line. */
  method NewSpreadsheet(descriptor: string) returns (r: Option<Spreadsheet>)
    ensures r == SheetOf(descriptor)
  {
    var rowDescriptors := Split(descriptor, '\n');
    var rows: seq<SpreadsheetRow> := [];
    for j := 0 to |rowDescriptors|
      invariant ParseRows(rowDescriptors[..j]) == Some(rows)
    {
      assert rowDescriptors[..j + 1][..j] == rowDescriptors[..j];
      var row := SpreadsheetRow([]);
      if |rowDescriptors[j]| > 0 {
        var parsed := NewSpreadsheetRow(rowDescriptors[j]);
        if parsed.None? {
          return None;
        }
        row := parsed.value;
      }
      rows := rows + [row];
    }
    assert rowDescriptors[..|rowDescriptors|] == rowDescriptors;
    return Some(Spreadsheet(rows));
  }

  // ---------------------------------------------------------------------------
  // Writing a spreadsheet back, to state that reading loses nothing

  function Descriptors(cells: seq<int>): (parts: seq<string>)
    ensures |parts| == |cells|
  {
    seq(|cells|, i requires 0 <= i < |cells| => Itoa(cells[i]))
  }

  /** A row as a line: its cells in decimal, separated by tabs; no cells is a blank line. */
  function RenderRow(row: SpreadsheetRow): string
  {
    if row.cells == [] then "" else Join(Descriptors(row.cells), '\t')
  }

  function RenderRows(rows: seq<SpreadsheetRow>): (lines: seq<string>)
    ensures |lines| == |rows|
  {
    seq(|rows|, i requires 0 <= i < |rows| => RenderRow(rows[i]))
  }

  function RenderSheet(sheet: Spreadsheet): string
    requires |sheet.rows| >= 1
  {
    Join(RenderRows(sheet.rows), '\n')
  }

  /** Itoa writes only digits and a minus sign. */
  lemma ItoaAvoids(n: int, c: char)
    requires !IsDigit(c) && c != '-'
    ensures c !in Itoa(n)
  {
    var s := Itoa(n);
    forall i | 0 <= i < |s| ensures IsDigit(s[i]) || s[i] == '-' {
      if n < 0 && i > 0 {
        assert s[i] == NatToString(-n)[i - 1];
      }
    }
  }

  lemma {:induction false} ParseDescriptors(cells: seq<int>)
    ensures ParseCells(Descriptors(cells)) == Some(cells)
  {
    if cells != [] {
      var init := cells[..|cells| - 1];
      ParseDescriptors(init);
      assert Descriptors(cells)[..|cells| - 1] == Descriptors(init);
      AtoiItoa(cells[|cells| - 1]);
      assert init + [cells[|cells| - 1]] == cells;
    }
  }

  /** A row with cells is read back from its line. */
  lemma RowRoundTrip(row: SpreadsheetRow)
    requires |row.cells| > 0
    ensures RowOf(RenderRow(row)) == Some(row)
  {
    var parts := Descriptors(row.cells);
    forall i | 0 <= i < |parts| ensures '\t' !in parts[i] {
      ItoaAvoids(row.cells[i], '\t');
    }
    SplitJoin(parts, '\t');
    ParseDescriptors(row.cells);
  }

  lemma {:induction false} ParseRenderedRows(rows: seq<SpreadsheetRow>)
    ensures ParseRows(RenderRows(rows)) == Some(rows)
  {
    if rows != [] {
      var init := rows[..|rows| - 1];
      var last := rows[|rows| - 1];
      ParseRenderedRows(init);
      assert RenderRows(rows)[..|rows| - 1] == RenderRows(init);
      if last.cells != [] {
        RowRoundTrip(last);
        assert |RenderRow(last)| > 0 by {
          assert |Descriptors(last.cells)[0]| > 0 by { AtoiItoa(last.cells[0]); }
          JoinLength(Descriptors(last.cells));
        }
      }
      assert init + [last] == rows;
    }
  }

  lemma JoinLength(parts: seq<string>)
    requires |parts| >= 1
    ensures |Join(parts, '\t')| >= |parts[0]|
  {
  }

  /** A spreadsheet is read back from its text, blank rows included. */
  lemma SheetRoundTrip(sheet: Spreadsheet)
    requires |sheet.rows| >= 1
    ensures SheetOf(RenderSheet(sheet)) == Some(sheet)
  {
    var lines := RenderRows(sheet.rows);
    forall i | 0 <= i < |lines| ensures '\n' !in lines[i] {
      var row := sheet.rows[i];
      if row.cells != [] {
        var parts := Descriptors(row.cells);
        forall j | 0 <= j < |parts| ensures '\n' !in parts[j] {
          ItoaAvoids(row.cells[j], '\n');
        }
        JoinAvoids(parts, '\t', '\n');
      }
    }
    SplitJoin(lines, '\n');
    ParseRenderedRows(sheet.rows);
  }

  lemma {:induction false} JoinAvoids(parts: seq<string>, sep: char, c: char)
    requires |parts| >= 1 && c != sep
    requires forall i :: 0 <= i < |parts| ==> c !in parts[i]
    ensures c !in Join(parts, sep)
  {
    if |parts| > 1 {
      JoinAvoids(parts[1..], sep, c);
    }
  }

  // ---------------------------------------------------------------------------
  // The examples of the tests

  lemma ExampleRowChecksums()
    ensures RowChecksum(SpreadsheetRow([5, 1, 9, 5])) == Some(8)
    ensures RowChecksum(SpreadsheetRow([7, 5, 3])) == Some(4)
    ensures RowChecksum(SpreadsheetRow([2, 4, 6, 8])) == Some(6)
  {
    var a := [5, 1, 9, 5];
    assert a[..3] == [5, 1, 9] && [5, 1, 9][..2] == [5, 1] && [5, 1][..1] == [5];
    var b := [7, 5, 3];
    assert b[..2] == [7, 5] && [7, 5][..1] == [7];
    var c := [2, 4, 6, 8];
    assert c[..3] == [2, 4, 6] && [2, 4, 6][..2] == [2, 4] && [2, 4][..1] == [2];
  }

  lemma ExampleRowChecksums2()
    ensures RowChecksum2(SpreadsheetRow([5, 9, 2, 8])) == Some(4)
    ensures RowChecksum2(SpreadsheetRow([9, 4, 7, 3])) == Some(3)
    ensures RowChecksum2(SpreadsheetRow([3, 8, 6, 5])) == Some(2)
  {
    var a := [5, 9, 2, 8];
    assert Scan2(a, 0, 1) == Scan2(a, 0, 2) == Scan2(a, 0, 3) == Scan2(a, 0, 4) == Scan2(a, 1, 2);
    assert Scan2(a, 1, 2) == Scan2(a, 1, 3) == Scan2(a, 1, 4) == Scan2(a, 2, 3) == Some(4);
    var b := [9, 4, 7, 3];
    assert Scan2(b, 0, 1) == Scan2(b, 0, 2) == Scan2(b, 0, 3) == Some(3);
    var c := [3, 8, 6, 5];
    assert Scan2(c, 0, 1) == Scan2(c, 0, 2) == Some(2);
  }

  /** Small numbers are written as one digit. */
  lemma ItoaDigit(n: int)
    requires 0 <= n < 10
    ensures Itoa(n) == [DigitChar(n)]
  {
  }

  /** A row of one-digit cells is written as its digits separated by tabs. */
  lemma RenderFour(a: int, b: int, c: int, d: int)
    requires 0 <= a < 10 && 0 <= b < 10 && 0 <= c < 10 && 0 <= d < 10
    ensures RenderRow(SpreadsheetRow([a, b, c, d]))
            == [DigitChar(a), '\t', DigitChar(b), '\t', DigitChar(c), '\t', DigitChar(d)]
  {
    ItoaDigit(a);
    ItoaDigit(b);
    ItoaDigit(c);
    ItoaDigit(d);
    var parts := [[DigitChar(a)], [DigitChar(b)], [DigitChar(c)], [DigitChar(d)]];
    assert Descriptors([a, b, c, d]) == parts;
    assert parts[1..][1..][1..] == [[DigitChar(d)]];
    assert parts[1..][1..] == [[DigitChar(c)], [DigitChar(d)]];
    assert Join(parts[1..][1..], '\t') == [DigitChar(c), '\t', DigitChar(d)];
    assert parts[1..] == [[DigitChar(b)], [DigitChar(c)], [DigitChar(d)]];
    assert Join(parts[1..], '\t') == [DigitChar(b), '\t', DigitChar(c), '\t', DigitChar(d)];
  }

  lemma RenderThree(a: int, b: int, c: int)
    requires 0 <= a < 10 && 0 <= b < 10 && 0 <= c < 10
    ensures RenderRow(SpreadsheetRow([a, b, c])) == [DigitChar(a), '\t', DigitChar(b), '\t', DigitChar(c)]
  {
    ItoaDigit(a);
    ItoaDigit(b);
    ItoaDigit(c);
    var parts := [[DigitChar(a)], [DigitChar(b)], [DigitChar(c)]];
    assert Descriptors([a, b, c]) == parts;
    assert parts[1..][1..] == [[DigitChar(c)]];
    assert parts[1..] == [[DigitChar(b)], [DigitChar(c)]];
    assert Join(parts[1..], '\t') == [DigitChar(b), '\t', DigitChar(c)];
  }

  lemma RenderThreeRows(sheet: Spreadsheet, x: string, y: string, z: string)
    requires |sheet.rows| == 3
    requires RenderRow(sheet.rows[0]) == x && RenderRow(sheet.rows[1]) == y && RenderRow(sheet.rows[2]) == z
    ensures RenderSheet(sheet) == x + "\n" + y + "\n" + z
  {
    var lines := [x, y, z];
    assert RenderRows(sheet.rows) == lines;
    assert lines[1..][1..] == [z];
    assert lines[1..] == [y, z];
    assert Join(lines[1..], '\n') == y + "\n" + z;
  }

  const FirstSheet := Spreadsheet([SpreadsheetRow([5, 1, 9, 5]), SpreadsheetRow([7, 5, 3]), SpreadsheetRow([2, 4, 6, 8])])
  const SecondSheet := Spreadsheet([SpreadsheetRow([5, 9, 2, 8]), SpreadsheetRow([9, 4, 7, 3]), SpreadsheetRow([3, 8, 6, 5])])

  lemma FirstSheetText()
    ensures RenderSheet(FirstSheet) == "5\t1\t9\t5" + "\n" + "7\t5\t3" + "\n" + "2\t4\t6\t8"
  {
    RenderFour(5, 1, 9, 5);
    RenderThree(7, 5, 3);
    RenderFour(2, 4, 6, 8);
    RenderThreeRows(FirstSheet, "5\t1\t9\t5", "7\t5\t3", "2\t4\t6\t8");
  }

  lemma SecondSheetText()
    ensures RenderSheet(SecondSheet) == "5\t9\t2\t8" + "\n" + "9\t4\t7\t3" + "\n" + "3\t8\t6\t5"
  {
    RenderFour(5, 9, 2, 8);
    RenderFour(9, 4, 7, 3);
    RenderFour(3, 8, 6, 5);
    RenderThreeRows(SecondSheet, "5\t9\t2\t8", "9\t4\t7\t3", "3\t8\t6\t5");
  }

  lemma TotalOfThree(values: seq<Option<int>>, x: int, y: int, z: int)
    requires values == [Some(x), Some(y), Some(z)]
    ensures Total(values) == Some(x + y + z)
  {
    var two := values[..2];
    assert two == [Some(x), Some(y)];
    assert two[..1] == [Some(x)];
    assert two[..1][..0] == [];
    assert Total(two[..1]) == Some(x);
    assert Total(two) == Some(x + y);
  }

  lemma ChecksumsOfThree(sheet: Spreadsheet)
    requires |sheet.rows| == 3
    ensures RowChecksums(sheet) == [RowChecksum(sheet.rows[0]), RowChecksum(sheet.rows[1]), RowChecksum(sheet.rows[2])]
    ensures RowChecksums2(sheet) == [RowChecksum2(sheet.rows[0]), RowChecksum2(sheet.rows[1]), RowChecksum2(sheet.rows[2])]
  {
  }

  /** The first sheet of the tests is read from its text and its checksum is 18. */
  lemma ExampleSheetChecksum(text: string)
    requires text == "5\t1\t9\t5" + "\n" + "7\t5\t3" + "\n" + "2\t4\t6\t8"
    ensures SheetOf(text) == Some(FirstSheet)
    ensures SheetChecksum(FirstSheet) == Some(18)
  {
    FirstSheetText();
    SheetRoundTrip(FirstSheet);
    ExampleRowChecksums();
    ChecksumsOfThree(FirstSheet);
    TotalOfThree(RowChecksums(FirstSheet), 8, 4, 6);
  }

  /** The second sheet of the tests is read from its text and its checksum2 is 9. */
  lemma ExampleSheetChecksum2(text: string)
    requires text == "5\t9\t2\t8" + "\n" + "9\t4\t7\t3" + "\n" + "3\t8\t6\t5"
    ensures SheetOf(text) == Some(SecondSheet)
    ensures SheetChecksum2(SecondSheet) == Some(9)
  {
    SecondSheetText();
    SheetRoundTrip(SecondSheet);
    ExampleRowChecksums2();
    ChecksumsOfThree(SecondSheet);
    TotalOfThree(RowChecksums2(SecondSheet), 4, 3, 2);
  }
}
