// Fractal art of day 21: a square image of '#' and '.' pixels grows by cutting it
// into 2x2 (or 3x3) chunks and replacing each chunk by the 3x3 (or 4x4) result of
// the rule whose pattern matches the chunk in some rotation or mirror image.
module Fractal {
  import opened Common
  import opened Text

  /** ImageStorage: rows of pixels. */
  type Image = seq<seq<char>>

  predicate IsSquare(img: Image)
  {
    forall r :: 0 <= r < |img| ==> |img[r]| == |img|
  }

  // ---------------------------------------------------------------------------
  // Arithmetic on row-major indices

  lemma MulLe(a: nat, b: nat, n: nat)
    requires a <= b
    ensures a * n <= b * n
  {
  }

  /** Cell (row, col) of a width-wide grid with `rows` rows lies inside rows * width cells. */
  lemma IndexBound(row: nat, col: nat, rows: nat, width: nat)
    requires row < rows && col < width
    ensures row * width + col < rows * width
  {
    MulLe(row + 1, rows, width);
  }

  /** The row and column of index k in a width-wide grid. */
  lemma DivMod(k: nat, width: nat, rows: nat)
    requires width > 0 && k < rows * width
    ensures k / width < rows && k == (k / width) * width + k % width
  {
    if k / width >= rows {
      MulLe(rows, k / width, width);
    }
  }

  lemma MulSucc(a: nat, n: nat)
    ensures (a + 1) * n == a * n + n
  {
  }

  lemma PositiveFactors(a: nat, b: nat)
    requires a * b > 0
    ensures a > 0 && b > 0
  {
  }

  /** Two sequences of rows * width elements that agree at every (row, column) are equal. */
  lemma CellsEqual<T>(s: seq<T>, t: seq<T>, rows: nat, width: nat)
    requires |s| == rows * width && |t| == rows * width
    requires forall r, c :: 0 <= r < rows && 0 <= c < width && r * width + c < |s|
               ==> Cell(s, width, r, c) == Cell(t, width, r, c)
    ensures s == t
  {
    forall i | 0 <= i < |s|
      ensures s[i] == t[i]
    {
      DivMod(i, width, rows);
      var r, c := i / width, i % width;
      assert Cell(s, width, r, c) == Cell(t, width, r, c);
    }
  }

  /** The element at (r, c) of a sequence laid out in rows of the given width. */
  function Cell<T>(s: seq<T>, width: nat, r: nat, c: nat): T
    requires r * width + c < |s|
  {
    s[r * width + c]
  }

  /** Index q * n + a has quotient q and remainder a. */
  /** An index below rows * width is a row below rows and a column below width. */
  lemma ChunkIndex(i: nat, width: nat, rows: nat) returns (r: nat, col: nat)
    requires width > 0 && i < rows * width
    ensures r < rows && col < width && i == r * width + col
  {
    DivMod(i, width, rows);
    r, col := i / width, i % width;
  }

  lemma DivModOf(q: nat, n: nat, a: nat)
    requires a < n
    ensures (q * n + a) / n == q && (q * n + a) % n == a
  {
    ModUnique(q * n + a, n, q, a);
  }

  // ---------------------------------------------------------------------------
  // imageSize, storeImage and stringImage

  /** The largest s >= r with s * s <= n. */
  function SqrtFrom(n: nat, r: nat): (s: nat)
    requires r * r <= n
    ensures s * s <= n < (s + 1) * (s + 1)
    decreases n - r
  {
    if (r + 1) * (r + 1) > n then r
    else
      MulLe(1, r + 1, r + 1);
      SqrtFrom(n, r + 1)
  }

  /** imageSize: the integer square root of the pixel count, rounded down. */
  function ImageSize(n: nat): (size: nat)
    ensures size * size <= n < (size + 1) * (size + 1)
  {
    SqrtFrom(n, 0)
  }

  lemma ImageSizeOfSquare(k: nat)
    ensures ImageSize(k * k) == k
  {
    var s := ImageSize(k * k);
    if s < k {
      MulLe(s + 1, k, s + 1);
      MulLe(s + 1, k, k);
    } else if s > k {
      MulLe(k + 1, s, k + 1);
      MulLe(k + 1, s, s);
    }
  }

  predicate IsSeparator(c: char)
  {
    c == '\n' || c == '/'
  }

  /** The image text with its row separators, '\n' and '/', taken out. */
  function Strip(s: string): (r: string)
    ensures forall i :: 0 <= i < |r| ==> !IsSeparator(r[i])
    ensures |r| <= |s|
  {
    if s == [] then []
    else Strip(s[..|s| - 1]) + (if IsSeparator(s[|s| - 1]) then [] else [s[|s| - 1]])
  }

  lemma {:induction false} StripClean(s: string)
    requires forall i :: 0 <= i < |s| ==> !IsSeparator(s[i])
    ensures Strip(s) == s
  {
    if s != [] {
      StripClean(s[..|s| - 1]);
    }
  }

  /** Pixel (r, c) of a size x size image read row by row from `bare`. */
  function Pixel(bare: string, size: nat, r: nat, c: nat): char
    requires r < size && c < size && size * size <= |bare|
  {
    IndexBound(r, c, size, size);
    bare[r * size + c]
  }

  /** storeImage: strip the separators and read the pixels row by row into a square image. */
  function StoreImage(image: string): (img: Image)
    ensures IsSquare(img)
  {
    var bare := Strip(image);
    var size := ImageSize(|bare|);
    seq(size, r requires 0 <= r < size => seq(size, c requires 0 <= c < size => Pixel(bare, size, r, c)))
  }

  /** stringImage: the pixels row by row, each row followed by '\n' when `newlines` is set. */
  function StringImage(img: Image, newlines: bool): (s: string)
    requires IsSquare(img)
    ensures |s| == |img| * (if newlines then |img| + 1 else |img|)
  {
    var size := |img|;
    var width := if newlines then size + 1 else size;
    seq(size * width, k requires 0 <= k < size * width =>
      DivMod(k, width, size);
      if k % width == size then '\n' else img[k / width][k % width])
  }

  /** Where stringImage puts each pixel, and the newline that ends each row. */
  lemma StringImageAt(img: Image, newlines: bool, row: nat, col: nat)
    requires IsSquare(img) && row < |img| && col <= |img|
    requires col == |img| ==> newlines
    ensures var width := if newlines then |img| + 1 else |img|;
      row * width + col < |StringImage(img, newlines)|
      && StringImage(img, newlines)[row * width + col] == if col == |img| then '\n' else img[row][col]
  {
    var width := if newlines then |img| + 1 else |img|;
    IndexBound(row, col, |img|, width);
    DivModOf(row, width, col);
  }

  /** The pixel stringImage writes at index i. */
  lemma StringImageIndex(img: Image, i: nat)
    requires IsSquare(img) && i < |img| * |img|
    ensures i / |img| < |img| && i % |img| < |img|
    ensures StringImage(img, false)[i] == img[i / |img|][i % |img|]
  {
    DivMod(i, |img|, |img|);
  }

  /** The cells of a packed separator-free text of k * k pixels, read row by row. */
  lemma StoreImageAt(s: string, k: nat, r: nat, c: nat)
    requires |s| == k * k && forall i :: 0 <= i < |s| ==> !IsSeparator(s[i])
    requires r < k && c < k
    ensures |StoreImage(s)| == k && r * k + c < |s| && StoreImage(s)[r][c] == s[r * k + c]
  {
    StripClean(s);
    ImageSizeOfSquare(k);
    IndexBound(r, c, k, k);
  }

  /** Packing a separator-free text of k * k pixels and writing it out again gives the text back. */
  lemma StringOfStore(s: string, k: nat)
    requires |s| == k * k && forall i :: 0 <= i < |s| ==> !IsSeparator(s[i])
    ensures StringImage(StoreImage(s), false) == s
  {
    var img := StoreImage(s);
    StripClean(s);
    ImageSizeOfSquare(k);
    assert |img| == k;
    var out := StringImage(img, false);
    forall i | 0 <= i < |s|
      ensures out[i] == s[i]
    {
      StringOfStoreAt(s, k, img, i);
    }
  }

  /** One pixel of StringOfStore. */
  lemma StringOfStoreAt(s: string, k: nat, img: Image, i: nat)
    requires |s| == k * k && forall i :: 0 <= i < |s| ==> !IsSeparator(s[i])
    requires img == StoreImage(s) && |img| == k && i < |s|
    ensures i < |StringImage(img, false)| && StringImage(img, false)[i] == s[i]
  {
    assert k > 0 by {
      if k == 0 { assert false; }
    }
    StringImageIndex(img, i);
    var r, c := i / k, i % k;
    DivMod(i, k, k);
    assert i == r * k + c;
    StoreImageAt(s, k, r, c);
    assert img[r][c] == s[i];
  }

  /** The pixels of an image, one per cell. */
  predicate IsPixelImage(img: Image)
  {
    IsSquare(img) && forall r, c :: 0 <= r < |img| && 0 <= c < |img| ==> !IsSeparator(img[r][c])
  }

  /** The written-out pixels of a pixel image hold no separator. */
  lemma StringImageClean(img: Image)
    requires IsPixelImage(img)
    ensures forall i :: 0 <= i < |StringImage(img, false)| ==> !IsSeparator(StringImage(img, false)[i])
  {
    var n := |img|;
    var s := StringImage(img, false);
    forall i | 0 <= i < |s|
      ensures !IsSeparator(s[i])
    {
      StringImageIndex(img, i);
      assert !IsSeparator(img[i / n][i % n]);
    }
  }

  /** Writing an image out and packing the text again gives the image back. */
  lemma StoreOfString(img: Image)
    requires IsPixelImage(img)
    ensures StoreImage(StringImage(img, false)) == img
  {
    var n := |img|;
    var s := StringImage(img, false);
    StringImageClean(img);
    var back := StoreImage(s);
    if n > 0 {
      StoreImageAt(s, n, 0, 0);
    } else {
      StripClean(s);
    }
    forall r, c | 0 <= r < n && 0 <= c < n
      ensures back[r][c] == img[r][c]
    {
      StringImageAt(img, false, r, c);
      StoreImageAt(s, n, r, c);
    }
    SquareEq(back, img);
  }

  /** The rows one after another. */
  function Concat(rows: seq<string>): (s: string)
  {
    if rows == [] then [] else rows[0] + Concat(rows[1..])
  }

  /** In rows of equal width w, character c of row r sits at index r * w + c of their concatenation. */
  lemma {:induction false} ConcatAt(rows: seq<string>, w: nat, r: nat, c: nat)
    requires forall i :: 0 <= i < |rows| ==> |rows[i]| == w
    requires r < |rows| && c < w
    ensures |Concat(rows)| == |rows| * w && r * w + c < |Concat(rows)| && Concat(rows)[r * w + c] == rows[r][c]
    decreases |rows|
  {
    ConcatLength(rows, w);
    IndexBound(r, c, |rows|, w);
    if r > 0 {
      ConcatAt(rows[1..], w, r - 1, c);
      MulSucc(r - 1, w);
      assert Concat(rows) == rows[0] + Concat(rows[1..]);
    }
  }

  lemma {:induction false} ConcatLength(rows: seq<string>, w: nat)
    requires forall i :: 0 <= i < |rows| ==> |rows[i]| == w
    ensures |Concat(rows)| == |rows| * w
    decreases |rows|
  {
    if rows != [] {
      ConcatLength(rows[1..], w);
      MulSucc(|rows| - 1, w);
    }
  }

  lemma {:induction false} ConcatClean(rows: seq<string>)
    requires forall i, j :: 0 <= i < |rows| && 0 <= j < |rows[i]| ==> !IsSeparator(rows[i][j])
    ensures forall k :: 0 <= k < |Concat(rows)| ==> !IsSeparator(Concat(rows)[k])
    decreases |rows|
  {
    if rows != [] {
      var tail := rows[1..];
      assert forall i, j :: 0 <= i < |tail| && 0 <= j < |tail[i]| ==> tail[i][j] == rows[i + 1][j];
      ConcatClean(tail);
      assert Concat(rows) == rows[0] + Concat(tail);
      forall k | 0 <= k < |Concat(rows)|
        ensures !IsSeparator(Concat(rows)[k])
      {
        if k >= |rows[0]| {
          assert Concat(rows)[k] == Concat(tail)[k - |rows[0]|];
        } else {
          assert Concat(rows)[k] == rows[0][k];
        }
      }
    }
  }

  /** Stripping works piece by piece. */
  lemma {:induction false} StripAppend(a: string, b: string)
    ensures Strip(a + b) == Strip(a) + Strip(b)
    decreases |b|
  {
    if b == [] {
      assert a + b == a;
    } else {
      var b' := b[..|b| - 1];
      assert (a + b)[..|a + b| - 1] == a + b';
      StripAppend(a, b');
    }
  }

  /** Rows written with separators between them strip down to the rows one after another. */
  lemma {:induction false} StripJoin(rows: seq<string>, sep: char)
    requires |rows| >= 1 && IsSeparator(sep)
    requires forall i, j :: 0 <= i < |rows| && 0 <= j < |rows[i]| ==> !IsSeparator(rows[i][j])
    ensures Strip(Join(rows, sep)) == Concat(rows)
    decreases |rows|
  {
    var head := rows[0];
    assert forall j :: 0 <= j < |head| ==> !IsSeparator(head[j]);
    StripClean(head);
    if |rows| == 1 {
      assert Concat(rows) == head + Concat([]);
    } else {
      var tail := rows[1..];
      StripJoin(tail, sep);
      assert Join(rows, sep) == (head + [sep]) + Join(tail, sep);
      StripAppend(head, [sep]);
      assert Strip([sep]) == Strip([]) + [];
      assert Strip(head + [sep]) == head + [];
      assert head + [] == head;
      StripAppend(head + [sep], Join(tail, sep));
      assert Strip(Join(rows, sep)) == head + Concat(tail);
      assert Concat(rows) == head + Concat(tail);
    }
  }

  /** Pixel rows in the rule notation: k rows of k pixels separated by '/' (or '\n') pack into those rows. */
  /** k rows of k pixels each, written one after the other, pack into those rows. */
  lemma StoreConcat(rows: seq<string>)
    requires |rows| >= 1
    requires forall i :: 0 <= i < |rows| ==> |rows[i]| == |rows|
    requires forall i, j :: 0 <= i < |rows| && 0 <= j < |rows[i]| ==> !IsSeparator(rows[i][j])
    ensures StoreImage(Concat(rows)) == rows
  {
    var k := |rows|;
    ConcatClean(rows);
    StripClean(Concat(rows));
    ConcatLength(rows, k);
    ImageSizeOfSquare(k);
    var img := StoreImage(Concat(rows));
    forall r, c | 0 <= r < k && 0 <= c < k
      ensures img[r][c] == rows[r][c]
    {
      ConcatAt(rows, k, r, c);
    }
    SquareEq(img, rows);
  }

  /** The rule notation: k rows of k pixels joined by a separator pack into those rows. */
  lemma StoreRows(rows: seq<string>, sep: char)
    requires |rows| >= 1 && IsSeparator(sep)
    requires forall i :: 0 <= i < |rows| ==> |rows[i]| == |rows|
    requires forall i, j :: 0 <= i < |rows| && 0 <= j < |rows[i]| ==> !IsSeparator(rows[i][j])
    ensures StoreImage(Join(rows, sep)) == rows
  {
    StripJoin(rows, sep);
    ConcatClean(rows);
    StripClean(Concat(rows));
    assert Strip(Join(rows, sep)) == Strip(Concat(rows));
    StoreConcat(rows);
  }

  /** The rows of an image, each followed by '\n' when `newlines` is set. */
  function Lines(img: Image, newlines: bool): (rows: seq<string>)
    requires IsSquare(img)
    ensures |rows| == |img|
    ensures forall r :: 0 <= r < |img| ==> |rows[r]| == if newlines then |img| + 1 else |img|
  {
    seq(|img|, r requires 0 <= r < |img| => img[r] + (if newlines then "\n" else ""))
  }

  /** Row r, column c of stringImage and of the rows one after another hold the same character. */
  lemma StringImageRowsAt(img: Image, newlines: bool, r: nat, c: nat)
    requires IsSquare(img) && r < |img| && c < (if newlines then |img| + 1 else |img|)
    ensures var w := if newlines then |img| + 1 else |img|;
      |Concat(Lines(img, newlines))| == |StringImage(img, newlines)|
      && r * w + c < |StringImage(img, newlines)|
      && Concat(Lines(img, newlines))[r * w + c] == StringImage(img, newlines)[r * w + c]
  {
    var w := if newlines then |img| + 1 else |img|;
    StringImageAt(img, newlines, r, c);
    ConcatAt(Lines(img, newlines), w, r, c);
  }

  /** stringImage writes the rows one after another, each followed by '\n' when `newlines` is set. */
  lemma StringImageRows(img: Image, newlines: bool)
    requires IsSquare(img)
    ensures StringImage(img, newlines) == Concat(Lines(img, newlines))
  {
    var n := |img|;
    var w := if newlines then n + 1 else n;
    var s := StringImage(img, newlines);
    var t := Concat(Lines(img, newlines));
    ConcatLength(Lines(img, newlines), w);
    forall r, c | 0 <= r < n && 0 <= c < w && r * w + c < |s|
      ensures Cell(s, w, r, c) == Cell(t, w, r, c)
    {
      StringImageRowsAt(img, newlines, r, c);
    }
    CellsEqual(s, t, n, w);
  }

  // ---------------------------------------------------------------------------
  // imageMirrors, imageRotations and imagePermutations

  /** The left-right mirror image: mirror[r][size - 1 - c] = image[r][c]. */
  function Mirror(img: Image): (m: Image)
    requires IsSquare(img)
    ensures IsSquare(m) && |m| == |img|
  {
    var size := |img|;
    seq(size, r requires 0 <= r < size => seq(size, c requires 0 <= c < size => img[r][size - 1 - c]))
  }

  /** One quarter turn: flip[size - 1 - c][r] = prev[r][c]. */
  function Rotate(img: Image): (t: Image)
    requires IsSquare(img)
    ensures IsSquare(t) && |t| == |img|
  {
    var size := |img|;
    seq(size, i requires 0 <= i < size => seq(size, j requires 0 <= j < size => img[j][size - 1 - i]))
  }

  /** imageMirrors: the image and its mirror. */
  function Mirrors(img: Image): seq<Image>
    requires IsSquare(img)
  {
    [img, Mirror(img)]
  }

  /** imageRotations: the image and its three further quarter turns. */
  function Rotations(img: Image): (rs: seq<Image>)
    requires IsSquare(img)
    ensures |rs| == 4 && forall i :: 0 <= i < 4 ==> IsSquare(rs[i]) && |rs[i]| == |img|
  {
    var r1 := Rotate(img);
    var r2 := Rotate(r1);
    [img, r1, r2, Rotate(r2)]
  }

  /** imagePermutations: the four rotations of each of the two mirrors. */
  function Permutations(img: Image): (ps: seq<Image>)
    requires IsSquare(img)
    ensures |ps| == 8 && forall i :: 0 <= i < 8 ==> IsSquare(ps[i]) && |ps[i]| == |img|
  {
    Rotations(img) + Rotations(Mirror(img))
  }

  lemma {:induction false} SquareEq(a: Image, b: Image)
    requires IsSquare(a) && IsSquare(b) && |a| == |b|
    requires forall r, c :: 0 <= r < |a| && 0 <= c < |a| ==> a[r][c] == b[r][c]
    ensures a == b
  {
    forall r | 0 <= r < |a|
      ensures a[r] == b[r]
    {
    }
  }

  /** Mirroring twice gives the image back. */
  lemma MirrorMirror(img: Image)
    requires IsSquare(img)
    ensures Mirror(Mirror(img)) == img
  {
    SquareEq(Mirror(Mirror(img)), img);
  }

  /** Four quarter turns give the image back. */
  lemma RotateFour(img: Image)
    requires IsSquare(img)
    ensures Rotate(Rotate(Rotate(Rotate(img)))) == img
  {
    var r2 := Rotate(Rotate(img));
    var n := |img|;
    assert forall i, j :: 0 <= i < n && 0 <= j < n ==> r2[i][j] == img[n - 1 - i][n - 1 - j];
    SquareEq(Rotate(Rotate(r2)), img);
  }

  /** Mirroring a turned image is turning the mirror image three times. */
  lemma MirrorRotate(img: Image)
    requires IsSquare(img)
    ensures Mirror(Rotate(img)) == Rotate(Rotate(Rotate(Mirror(img))))
  {
    var n := |img|;
    var m := Mirror(img);
    var r2 := Rotate(Rotate(m));
    assert forall i, j :: 0 <= i < n && 0 <= j < n ==> r2[i][j] == img[n - 1 - i][j];
    SquareEq(Mirror(Rotate(img)), Rotate(r2));
  }

  /** Rotating or mirroring any of an image's permutations gives another of them. */
  lemma PermutationsClosed(img: Image)
    requires IsSquare(img)
    ensures forall p :: p in Permutations(img) ==>
      IsSquare(p) && Rotate(p) in Permutations(img) && Mirror(p) in Permutations(img)
  {
    var r1 := Rotate(img);
    var r2 := Rotate(r1);
    var r3 := Rotate(r2);
    var m := Mirror(img);
    var m1 := Rotate(m);
    var m2 := Rotate(m1);
    var m3 := Rotate(m2);
    assert Permutations(img) == [img, r1, r2, r3, m, m1, m2, m3];
    RotateFour(img);
    RotateFour(m);
    MirrorMirror(img);
    MirrorRotate(img);
    MirrorRotate(r1);
    MirrorRotate(r2);
    MirrorRotate(m);
    MirrorRotate(m1);
    MirrorRotate(m2);
  }

  /** Being a rotation or mirror image of another image is symmetric. */
  lemma PermutationSymmetric(x: Image, q: Image)
    requires IsSquare(x) && q in Permutations(x)
    ensures IsSquare(q) && x in Permutations(q)
  {
    var m := Mirror(x);
    RotateFour(x);
    RotateFour(m);
    MirrorMirror(x);
    MirrorRotate(m);
    MirrorRotate(Rotate(m));
    MirrorRotate(Rotate(Rotate(m)));
    assert Permutations(x) == [x, Rotate(x), Rotate(Rotate(x)), Rotate(Rotate(Rotate(x))),
                               m, Rotate(m), Rotate(Rotate(m)), Rotate(Rotate(Rotate(m)))];
  }

  /** Different square images have different keys. */
  lemma KeyInjective(a: Image, b: Image)
    requires IsSquare(a) && IsSquare(b) && StringImage(a, false) == StringImage(b, false)
    ensures a == b
  {
    ImageSizeOfSquare(|a|);
    ImageSizeOfSquare(|b|);
    assert |a| == |b|;
    forall r, c | 0 <= r < |a| && 0 <= c < |a|
      ensures a[r][c] == b[r][c]
    {
      StringImageAt(a, false, r, c);
      StringImageAt(b, false, r, c);
    }
    SquareEq(a, b);
  }

  // ---------------------------------------------------------------------------
  // NewFractalArt's rules

  predicate RulesSquare(rules: map<string, Image>)
  {
    forall k :: k in rules ==> IsSquare(rules[k])
  }

  /** The rules after `rules[stringImage(p, false)] = result` for each p of perms in turn. */
  function AddRule(rules: map<string, Image>, perms: seq<Image>, result: Image): (r: map<string, Image>)
    requires forall i :: 0 <= i < |perms| ==> IsSquare(perms[i])
    ensures forall i :: 0 <= i < |perms| ==> StringImage(perms[i], false) in r && r[StringImage(perms[i], false)] == result
    ensures forall k :: (forall i :: 0 <= i < |perms| ==> k != StringImage(perms[i], false)) ==>
      (k in r <==> k in rules) && (k in rules ==> r[k] == rules[k])
    ensures RulesSquare(rules) && IsSquare(result) ==> RulesSquare(r)
    decreases |perms|
  {
    if perms == [] then rules
    else
      var init := perms[..|perms| - 1];
      assert forall i :: 0 <= i < |init| ==> init[i] == perms[i];
      AddRule(rules, init, result)[StringImage(perms[|perms| - 1], false) := result]
  }

  /** Once a rule is stored, a chunk finds its result when some rotation or mirror image of the
      chunk is the rule's pattern, and, for a key not held before, only then. */
  lemma RuleMatches(rules: map<string, Image>, pattern: Image, result: Image, chunk: Image)
    requires IsSquare(pattern) && IsSquare(chunk)
    ensures pattern in Permutations(chunk) ==>
      StringImage(chunk, false) in AddRule(rules, Permutations(pattern), result)
      && AddRule(rules, Permutations(pattern), result)[StringImage(chunk, false)] == result
    ensures StringImage(chunk, false) !in rules && StringImage(chunk, false) in AddRule(rules, Permutations(pattern), result)
      ==> pattern in Permutations(chunk)
  {
    var perms := Permutations(pattern);
    var key := StringImage(chunk, false);
    if pattern in Permutations(chunk) {
      PermutationSymmetric(chunk, pattern);
      var i :| 0 <= i < |perms| && perms[i] == chunk;
    }
    if key !in rules && key in AddRule(rules, perms, result) {
      var i :| 0 <= i < |perms| && key == StringImage(perms[i], false);
      KeyInjective(perms[i], chunk);
      PermutationSymmetric(pattern, chunk);
    }
  }

  /** Whether " => " starts at index j of the line. */
  predicate ArrowAt(line: string, j: int)
  {
    0 <= j && j + 4 <= |line| && line[j..j + 4] == " => "
  }

  /** The last " => " starting at or before j. */
  function LastArrow(line: string, j: int): (r: Option<nat>)
    ensures r.Some? ==> r.value <= j && ArrowAt(line, r.value) && forall k :: r.value < k <= j ==> !ArrowAt(line, k)
    ensures r.None? ==> forall k :: k <= j ==> !ArrowAt(line, k)
    decreases j + 1
  {
    if j < 0 then None
    else if ArrowAt(line, j) then Some(j)
    else LastArrow(line, j - 1)
  }

  /** The captures of `(.*) => (.*)`: the greedy first group runs to the last " => ". */
  function MatchRule(line: string): Option<(string, string)>
  {
    match LastArrow(line, |line| - 4)
    case None => None
    case Some(j) => Some((line[..j], line[j + 4..]))
  }

  /** A line built as pattern, " => ", result splits back into the two, when the result holds no '='. */
  lemma MatchRuleOf(pattern: string, result: string)
    requires forall i :: 0 <= i < |result| ==> result[i] != '='
    ensures MatchRule(pattern + " => " + result) == Some((pattern, result))
  {
    var line := pattern + " => " + result;
    var j := |pattern|;
    assert line[j..j + 4] == " => ";
    forall k | j < k <= |line| - 4
      ensures !ArrowAt(line, k)
    {
      if k < j + 3 {
        assert line[k] == " => "[k - j];
      } else {
        assert line[k + 1] == result[k + 1 - j - 4];
      }
      assert line[k..k + 4][0] == line[k] && line[k..k + 4][1] == line[k + 1];
    }
    assert ArrowAt(line, j);
    assert LastArrow(line, |line| - 4) == Some(j);
    assert line[..j] == pattern;
    assert line[j + 4..] == result;
  }

  /** The rules after the given lines: blank lines are skipped, and a line that does not
      match is a panic (None). */
  function RulesFrom(rules: map<string, Image>, lines: seq<string>): (r: Option<map<string, Image>>)
    ensures RulesSquare(rules) && r.Some? ==> RulesSquare(r.value)
    decreases |lines|
  {
    if lines == [] then Some(rules)
    else if |lines[0]| == 0 then RulesFrom(rules, lines[1..])
    else
      match MatchRule(lines[0])
      case None => None
      case Some(m) =>
        var pattern := StoreImage(m.0);
        RulesFrom(AddRule(rules, Permutations(pattern), StoreImage(m.1)), lines[1..])
  }

  /** The rules NewFractalArt builds from the text, or None where it panics. */
  function RulesOf(text: string): (r: Option<map<string, Image>>)
    ensures r.Some? ==> RulesSquare(r.value)
  {
    RulesFrom(map[], Split(text, '\n'))
  }

  // ---------------------------------------------------------------------------
  // pluckImage and ZoomAndEnhance on values

  /** pluckImage: the size x size window whose top-left pixel is (row, col). */
  function Pluck(img: Image, row: nat, col: nat, size: nat): (p: Image)
    requires IsSquare(img) && row + size <= |img| && col + size <= |img|
    ensures IsSquare(p) && |p| == size
  {
    seq(size, i requires 0 <= i < size => seq(size, j requires 0 <= j < size => img[row + i][col + j]))
  }

  /** The chunk size and the size each chunk grows to: 2 to 3 for even sizes, else 3 to 4
      for multiples of 3, else a panic. */
  function ChunkSizes(size: nat): (r: Option<(nat, nat)>)
    ensures r.Some? ==> r.value.0 > 0 && size % r.value.0 == 0 && r.value.1 == r.value.0 + 1
    ensures r.None? <==> size % 2 != 0 && size % 3 != 0
  {
    if size % 2 == 0 then Some((2, 3))
    else if size % 3 == 0 then Some((3, 4))
    else None
  }

  /** The window of chunk (cr, cc) lies inside a k * c wide image. */
  lemma ChunkInside(cr: nat, k: nat, c: nat)
    requires cr < k
    ensures cr * c + c <= k * c
  {
    MulLe(cr + 1, k, c);
  }

  /** The rule result for chunk (cr, cc) of a k x k grid of c x c chunks, when the rules hold
      one of at least n x n pixels; copyImage panics on a smaller one. */
  function ChunkResult(img: Image, rules: map<string, Image>, c: nat, n: nat, k: nat, cr: nat, cc: nat): (r: Option<Image>)
    requires IsSquare(img) && RulesSquare(rules) && |img| == k * c && cr < k && cc < k
    ensures r.Some? ==> IsSquare(r.value) && n <= |r.value|
  {
    ChunkInside(cr, k, c);
    ChunkInside(cc, k, c);
    var key := StringImage(Pluck(img, cr * c, cc * c, c), false);
    if key in rules && n <= |rules[key]| then Some(rules[key]) else None
  }

  predicate AllChunksMatch(img: Image, rules: map<string, Image>, c: nat, n: nat, k: nat)
    requires IsSquare(img) && RulesSquare(rules) && |img| == k * c
  {
    forall cr, cc :: 0 <= cr < k && 0 <= cc < k ==> ChunkResult(img, rules, c, n, k, cr, cc).Some?
  }

  /** Pixel (i, j) of the enhanced image: pixel (i % n, j % n) of the result for chunk (i / n, j / n). */
  function EnhancedPixel(img: Image, rules: map<string, Image>, c: nat, n: nat, k: nat, i: nat, j: nat): char
    requires IsSquare(img) && RulesSquare(rules) && |img| == k * c && n > 0
    requires AllChunksMatch(img, rules, c, n, k) && i < k * n && j < k * n
  {
    DivMod(i, n, k);
    DivMod(j, n, k);
    ChunkResult(img, rules, c, n, k, i / n, j / n).value[i % n][j % n]
  }

  lemma ExactDivision(size: nat, c: nat)
    requires c > 0 && size % c == 0
    ensures size == (size / c) * c
  {
  }

  /** The image after ZoomAndEnhance, or None where it panics. */
  function Enhanced(img: Image, rules: map<string, Image>): (r: Option<Image>)
    requires IsSquare(img) && RulesSquare(rules)
    ensures r.Some? ==> IsSquare(r.value)
  {
    match ChunkSizes(|img|)
    case None => None
    case Some((c, n)) =>
      var k := |img| / c;
      ExactDivision(|img|, c);
      if !AllChunksMatch(img, rules, c, n, k) then None
      else Some(seq(k * n, i requires 0 <= i < k * n =>
                  seq(k * n, j requires 0 <= j < k * n => EnhancedPixel(img, rules, c, n, k, i, j))))
  }

  /** Row r, column c of the enhanced image: pixel (a, b) of the result for chunk (cr, cc). */
  lemma EnhancedAt(img: Image, rules: map<string, Image>, cr: nat, cc: nat, a: nat, b: nat)
    requires IsSquare(img) && RulesSquare(rules) && Enhanced(img, rules).Some?
    requires var (c, n) := ChunkSizes(|img|).value; cr < |img| / c && cc < |img| / c && a < n && b < n
    ensures var (c, n) := ChunkSizes(|img|).value;
      var k := |img| / c;
      |img| == k * c && AllChunksMatch(img, rules, c, n, k)
      && |Enhanced(img, rules).value| == k * n
      && cr * n + a < k * n && cc * n + b < k * n
      && Enhanced(img, rules).value[cr * n + a][cc * n + b] == ChunkResult(img, rules, c, n, k, cr, cc).value[a][b]
  {
    var (c, n) := ChunkSizes(|img|).value;
    var k := |img| / c;
    ExactDivision(|img|, c);
    IndexBound(cr, a, k, n);
    IndexBound(cc, b, k, n);
    DivModOf(cr, n, a);
    DivModOf(cc, n, b);
  }

  /** size * next / chunk is the number of chunks times next when chunk divides size. */
  lemma EnhancedSizeOf(size: nat, c: nat, n: nat)
    requires c > 0 && size % c == 0
    ensures size * n / c == (size / c) * n
  {
    var k := size / c;
    ExactDivision(size, c);
    assert size * n == (k * n) * c;
    ModUnique(size * n, c, k * n, 0);
  }

  /** The enhanced image has size * next / chunk rows, as ZoomAndEnhance computes it. */
  lemma EnhancedSize(img: Image, rules: map<string, Image>)
    requires IsSquare(img) && RulesSquare(rules) && Enhanced(img, rules).Some?
    ensures var (c, n) := ChunkSizes(|img|).value;
      |Enhanced(img, rules).value| == |img| * n / c
  {
    var (c, n) := ChunkSizes(|img|).value;
    EnhancedSizeOf(|img|, c, n);
  }

  // ---------------------------------------------------------------------------
  // The pixels that are on

  /** An image that is a single chunk becomes its rule result. */
  lemma EnhancedOneChunk(img: Image, rules: map<string, Image>)
    requires IsSquare(img) && RulesSquare(rules) && ChunkSizes(|img|).Some? && |img| == ChunkSizes(|img|).value.0
    requires StringImage(img, false) in rules && |rules[StringImage(img, false)]| == ChunkSizes(|img|).value.1
    ensures Enhanced(img, rules) == Some(rules[StringImage(img, false)])
  {
    var (c, n) := ChunkSizes(|img|).value;
    var result := rules[StringImage(img, false)];
    SquareEq(Pluck(img, 0, 0, c), img);
    assert ChunkResult(img, rules, c, n, 1, 0, 0) == Some(result);
    assert AllChunksMatch(img, rules, c, n, 1);
    var v := Enhanced(img, rules).value;
    forall a, b | 0 <= a < n && 0 <= b < n
      ensures v[a][b] == result[a][b]
    {
      EnhancedAt(img, rules, 0, 0, a, b);
    }
    SquareEq(v, result);
  }

  /** The '#' pixels among the first n of a row. */
  function RowPixels(row: seq<char>, n: nat): nat
    requires n <= |row|
  {
    if n == 0 then 0 else RowPixels(row, n - 1) + (if row[n - 1] == '#' then 1 else 0)
  }

  /** The '#' pixels in the first `rows` rows of a square image. */
  function PixelsOn(img: Image, rows: nat): nat
    requires IsSquare(img) && rows <= |img|
  {
    if rows == 0 then 0 else PixelsOn(img, rows - 1) + RowPixels(img[rows - 1], |img|)
  }

  lemma {:induction false} RowPixelsBound(row: seq<char>, n: nat)
    requires n <= |row|
    ensures RowPixels(row, n) <= n
    ensures RowPixels(row, n) == n <==> forall j :: 0 <= j < n ==> row[j] == '#'
  {
    if n > 0 {
      RowPixelsBound(row, n - 1);
    }
  }

  /** At most every pixel is on. */
  lemma {:induction false} PixelsOnBound(img: Image, rows: nat)
    requires IsSquare(img) && rows <= |img|
    ensures PixelsOn(img, rows) <= rows * |img|
  {
    if rows > 0 {
      PixelsOnBound(img, rows - 1);
      RowPixelsBound(img[rows - 1], |img|);
    }
  }

  // ---------------------------------------------------------------------------
  // Image storage in place

  /** Index q * n + a lies in the n-wide band starting at p * n exactly when q is p. */
  lemma WindowOf(q: nat, n: nat, a: nat, p: nat)
    requires a < n
    ensures p * n <= q * n + a < p * n + n <==> q == p
  {
    DivModOf(q, n, a);
    if p * n <= q * n + a < p * n + n {
      ModUnique(q * n + a, n, p, q * n + a - p * n);
    }
  }

  /** Chunk (cr, cc) ahead of chunk (chunkRow, chunkCol) in row-major order. */
  predicate Before(cr: nat, cc: nat, chunkRow: nat, chunkCol: nat)
  {
    cr < chunkRow || (cr == chunkRow && cc < chunkCol)
  }

  /** Pixel (a, b) of chunk (cr, cc) of the next image holds the chunk's rule result. */
  predicate ChunkFilled(img: Image, rules: map<string, Image>, c: nat, n: nat, k: nat,
                        next: array2<char>, cr: nat, cc: nat, a: nat, b: nat)
    reads next
  {
    IsSquare(img) && RulesSquare(rules) && |img| == k * c && cr < k && cc < k
    && ChunkResult(img, rules, c, n, k, cr, cc).Some? && a < n && b < n
    && cr * n + a < next.Length0 && cc * n + b < next.Length1
    && next[cr * n + a, cc * n + b] == ChunkResult(img, rules, c, n, k, cr, cc).value[a][b]
  }

  /** The pixels of a square array as an image. */
  function ToImage(a: array2<char>): (img: Image)
    reads a
    ensures |img| == a.Length0 && forall i :: 0 <= i < |img| ==> |img[i]| == a.Length1
    ensures forall i, j :: 0 <= i < a.Length0 && 0 <= j < a.Length1 ==> img[i][j] == a[i, j]
  {
    seq(a.Length0, i requires 0 <= i < a.Length0 reads a => seq(a.Length1, j requires 0 <= j < a.Length1 reads a => a[i, j]))
  }

  /** Whether cell (i, j) of the destination lies in the size x size window at (dstRow, dstCol),
      restricted to its first `rows` rows and, in row `rows`, its first `cols` columns. */
  predicate InWindow(i: int, j: int, dstRow: nat, dstCol: nat, size: nat, rows: nat, cols: nat)
  {
    dstCol <= j < dstCol + size
    && (dstRow <= i < dstRow + rows || (i == dstRow + rows && j < dstCol + cols))
  }

  /** copyImage: the size x size window of src at (srcRow, srcCol) is written over the window
      of dst at (dstRow, dstCol); every other cell of dst keeps its pixel. */
  method CopyImage(src: Image, srcRow: nat, srcCol: nat, dst: array2<char>, dstRow: nat, dstCol: nat, size: nat)
    requires IsSquare(src) && srcRow + size <= |src| && srcCol + size <= |src|
    requires dstRow + size <= dst.Length0 && dstCol + size <= dst.Length1
    modifies dst
    ensures forall i, j :: 0 <= i < dst.Length0 && 0 <= j < dst.Length1 ==>
      dst[i, j] == if InWindow(i, j, dstRow, dstCol, size, size, 0)
                   then src[srcRow + i - dstRow][srcCol + j - dstCol] else old(dst[i, j])
  {
    var jrow := 0;
    while jrow < size
      invariant 0 <= jrow <= size
      invariant forall i, j :: 0 <= i < dst.Length0 && 0 <= j < dst.Length1 ==>
        dst[i, j] == if InWindow(i, j, dstRow, dstCol, size, jrow, 0)
                     then src[srcRow + i - dstRow][srcCol + j - dstCol] else old(dst[i, j])
    {
      var jcol := 0;
      while jcol < size
        invariant 0 <= jcol <= size
        invariant forall i, j :: 0 <= i < dst.Length0 && 0 <= j < dst.Length1 ==>
          dst[i, j] == if InWindow(i, j, dstRow, dstCol, size, jrow, jcol)
                       then src[srcRow + i - dstRow][srcCol + j - dstCol] else old(dst[i, j])
      {
        dst[dstRow + jrow, dstCol + jcol] := src[srcRow + jrow][srcCol + jcol];
        jcol := jcol + 1;
      }
      jrow := jrow + 1;
    }
  }

  /** pluckImage: a fresh size x size storage filled by copyImage. */
  method PluckImage(src: Image, srcRow: nat, srcCol: nat, size: nat) returns (p: Image)
    requires IsSquare(src) && srcRow + size <= |src| && srcCol + size <= |src|
    ensures p == Pluck(src, srcRow, srcCol, size)
  {
    var rval := new char[size, size]((i, j) => 0 as char);
    CopyImage(src, srcRow, srcCol, rval, 0, 0, size);
    p := ToImage(rval);
    SquareEq(p, Pluck(src, srcRow, srcCol, size));
  }

  /** The chunks of the next image filled so far: all before (chunkRow, chunkCol). */
  predicate FilledBefore(img: Image, rules: map<string, Image>, c: nat, n: nat, k: nat,
                         next: array2<char>, chunkRow: nat, chunkCol: nat)
    reads next
  {
    forall cr, cc, a, b :: 0 <= cr < k && 0 <= cc < k && Before(cr, cc, chunkRow, chunkCol)
      && 0 <= a < n && 0 <= b < n
      ==> ChunkFilled(img, rules, c, n, k, next, cr, cc, a, b)
  }

  /** One step of the chunk loop of ZoomAndEnhance: chunk (chunkRow, chunkCol) is plucked, its
      stringImage looked up, and the rule result copied into the next image. `ok` is false
      where the source panics. */
  method FillChunk(img: Image, rules: map<string, Image>, c: nat, n: nat, k: nat,
                   next: array2<char>, chunkRow: nat, chunkCol: nat) returns (ok: bool)
    requires IsSquare(img) && RulesSquare(rules) && |img| == k * c && chunkRow < k && chunkCol < k
    requires next.Length0 == k * n && next.Length1 == k * n
    requires FilledBefore(img, rules, c, n, k, next, chunkRow, chunkCol)
    modifies next
    ensures ok ==> FilledBefore(img, rules, c, n, k, next, chunkRow, chunkCol + 1)
    ensures !ok ==> ChunkResult(img, rules, c, n, k, chunkRow, chunkCol).None?
  {
    ChunkInside(chunkRow, k, c);
    ChunkInside(chunkCol, k, c);
    var pluck := PluckImage(img, chunkRow * c, chunkCol * c, c);
    var key := StringImage(pluck, false);
    if key !in rules || |rules[key]| < n {
      // a missing rule panics; so does copyImage reading past the end of a smaller result
      return false;
    }
    var result := rules[key];
    ChunkInside(chunkRow, k, n);
    ChunkInside(chunkCol, k, n);
    label BeforeCopy:
    CopyImage(result, 0, 0, next, chunkRow * n, chunkCol * n, n);
    forall cr, cc, a, b | 0 <= cr < k && 0 <= cc < k && Before(cr, cc, chunkRow, chunkCol + 1)
                          && 0 <= a < n && 0 <= b < n
      ensures ChunkFilled(img, rules, c, n, k, next, cr, cc, a, b)
    {
      IndexBound(cr, a, k, n);
      IndexBound(cc, b, k, n);
      WindowOf(cr, n, a, chunkRow);
      WindowOf(cc, n, b, chunkCol);
      var i, j := cr * n + a, cc * n + b;
      if cr == chunkRow && cc == chunkCol {
        assert InWindow(i, j, chunkRow * n, chunkCol * n, n, n, 0);
        assert next[i, j] == result[a][b];
      } else {
        assert !InWindow(i, j, chunkRow * n, chunkCol * n, n, n, 0);
        assert old@BeforeCopy(ChunkFilled(img, rules, c, n, k, next, cr, cc, a, b));
        assert next[i, j] == old@BeforeCopy(next[i, j]);
      }
    }
    return true;
  }

  /** The chunk loop of ZoomAndEnhance over one row of chunks. */
  method FillChunkRow(img: Image, rules: map<string, Image>, c: nat, n: nat, k: nat,
                      next: array2<char>, chunkRow: nat) returns (ok: bool)
    requires IsSquare(img) && RulesSquare(rules) && |img| == k * c && chunkRow < k
    requires next.Length0 == k * n && next.Length1 == k * n
    requires forall cr, cc, a, b :: 0 <= cr < chunkRow && 0 <= cc < k && 0 <= a < n && 0 <= b < n
               ==> ChunkFilled(img, rules, c, n, k, next, cr, cc, a, b)
    modifies next
    ensures ok ==> forall cr, cc, a, b :: 0 <= cr <= chunkRow && 0 <= cc < k && 0 <= a < n && 0 <= b < n
                     ==> ChunkFilled(img, rules, c, n, k, next, cr, cc, a, b)
    ensures !ok ==> !AllChunksMatch(img, rules, c, n, k)
  {
    var chunkCol := 0;
    while chunkCol < k
      invariant 0 <= chunkCol <= k
      invariant FilledBefore(img, rules, c, n, k, next, chunkRow, chunkCol)
    {
      ok := FillChunk(img, rules, c, n, k, next, chunkRow, chunkCol);
      if !ok {
        return false;
      }
      chunkCol := chunkCol + 1;
    }
    forall cr, cc, a, b | 0 <= cr <= chunkRow && 0 <= cc < k && 0 <= a < n && 0 <= b < n
      ensures ChunkFilled(img, rules, c, n, k, next, cr, cc, a, b)
    {
      assert Before(cr, cc, chunkRow, k);
    }
    return true;
  }

  /** A filled chunk has a rule result. */
  lemma FilledMatches(img: Image, rules: map<string, Image>, c: nat, n: nat, k: nat, next: array2<char>)
    requires IsSquare(img) && RulesSquare(rules) && |img| == k * c && n > 0
    requires forall cr, cc, a, b :: 0 <= cr < k && 0 <= cc < k && 0 <= a < n && 0 <= b < n
               ==> ChunkFilled(img, rules, c, n, k, next, cr, cc, a, b)
    ensures AllChunksMatch(img, rules, c, n, k)
  {
    forall cr, cc | 0 <= cr < k && 0 <= cc < k
      ensures ChunkResult(img, rules, c, n, k, cr, cc).Some?
    {
      assert ChunkFilled(img, rules, c, n, k, next, cr, cc, 0, 0);
    }
  }

  /** Cell (i, j) of a filled next image, in chunk (cr, cc) at (a, b), is pixel (i, j) of the enhanced image. */
  lemma FilledCell(img: Image, rules: map<string, Image>, c: nat, n: nat, k: nat, next: array2<char>,
                   cr: nat, cc: nat, a: nat, b: nat, i: nat, j: nat)
    requires IsSquare(img) && RulesSquare(rules) && ChunkSizes(|img|) == Some((c, n)) && k == |img| / c
    requires Enhanced(img, rules).Some? && cr < k && cc < k && a < n && b < n
    requires i == cr * n + a && j == cc * n + b
    requires ChunkFilled(img, rules, c, n, k, next, cr, cc, a, b)
    ensures i < |Enhanced(img, rules).value| && j < |Enhanced(img, rules).value|
    ensures next[i, j] == Enhanced(img, rules).value[i][j]
  {
    EnhancedAt(img, rules, cr, cc, a, b);
  }

  /** Once every chunk is filled, the next image is the enhanced image. */
  lemma EnhancedFromFilled(img: Image, rules: map<string, Image>, c: nat, n: nat, k: nat, next: array2<char>)
    requires IsSquare(img) && RulesSquare(rules) && ChunkSizes(|img|) == Some((c, n)) && k == |img| / c
    requires next.Length0 == k * n && next.Length1 == k * n
    requires forall cr, cc, a, b :: 0 <= cr < k && 0 <= cc < k && 0 <= a < n && 0 <= b < n
               ==> ChunkFilled(img, rules, c, n, k, next, cr, cc, a, b)
    ensures Enhanced(img, rules).Some? && ToImage(next) == Enhanced(img, rules).value
  {
    ExactDivision(|img|, c);
    FilledMatches(img, rules, c, n, k, next);
    var e := Enhanced(img, rules).value;
    forall i, j | 0 <= i < k * n && 0 <= j < k * n
      ensures next[i, j] == e[i][j]
    {
      var cr, a := ChunkIndex(i, n, k);
      var cc, b := ChunkIndex(j, n, k);
      FilledCell(img, rules, c, n, k, next, cr, cc, a, b, i, j);
    }
    SquareEq(ToImage(next), e);
  }

  // ---------------------------------------------------------------------------
  // FractalArt

  const InitialImage := ".#.\n..#\n###"

  class FractalArt {
    var image: Image
    /** Keyed by stringImage without newlines. */
    var rules: map<string, Image>

    predicate Valid()
      reads this
    {
      IsSquare(image) && RulesSquare(rules)
    }

    constructor (image: Image, rules: map<string, Image>)
      ensures this.image == image && this.rules == rules
    {
      this.image := image;
      this.rules := rules;
    }

    /** Image(): the picture, one line per row. */
    function Image(): (s: string)
      reads this
      requires Valid()
      ensures s == Concat(Lines(image, true))
    {
      StringImageRows(image, true);
      StringImage(image, true)
    }

    /** ZoomAndEnhance; `ok` is false where the source panics, and the image is then unchanged. */
    method ZoomAndEnhance() returns (ok: bool)
      requires Valid()
      modifies this
      ensures Valid() && rules == old(rules)
      ensures ok == Enhanced(old(image), rules).Some?
      ensures image == if ok then Enhanced(old(image), rules).value else old(image)
    {
      var img, rs := image, rules;
      var size := |img|;
      var chunkSize, nextChunkSize;
      if size % 2 == 0 {
        chunkSize, nextChunkSize := 2, 3;
      } else if size % 3 == 0 {
        chunkSize, nextChunkSize := 3, 4;
      } else {
        return false;
      }
      var nchunks := size / chunkSize;
      ExactDivision(size, chunkSize);
      EnhancedSizeOf(size, chunkSize, nextChunkSize);
      var nextImage := new char[size * nextChunkSize / chunkSize, size * nextChunkSize / chunkSize]((i, j) => 0 as char);
      var chunkRow := 0;
      while chunkRow < nchunks
        invariant 0 <= chunkRow <= nchunks
        invariant image == img && rules == rs
        invariant forall cr, cc, a, b :: 0 <= cr < chunkRow && 0 <= cc < nchunks
                    && 0 <= a < nextChunkSize && 0 <= b < nextChunkSize
                    ==> ChunkFilled(img, rs, chunkSize, nextChunkSize, nchunks, nextImage, cr, cc, a, b)
      {
        var rowOk := FillChunkRow(img, rs, chunkSize, nextChunkSize, nchunks, nextImage, chunkRow);
        if !rowOk {
          return false;
        }
        chunkRow := chunkRow + 1;
      }
      EnhancedFromFilled(img, rs, chunkSize, nextChunkSize, nchunks, nextImage);
      image := ToImage(nextImage);
      return true;
    }

    /** PixelCount: the pixels that are on. */
    method PixelCount() returns (count: nat)
      requires Valid()
      ensures count == PixelsOn(image, |image|)
    {
      count := 0;
      var jrow := 0;
      while jrow < |image|
        invariant 0 <= jrow <= |image|
        invariant count == PixelsOn(image, jrow)
      {
        var jcol := 0;
        while jcol < |image|
          invariant 0 <= jcol <= |image|
          invariant count == PixelsOn(image, jrow) + RowPixels(image[jrow], jcol)
        {
          if image[jrow][jcol] == '#' {
            count := count + 1;
          }
          jcol := jcol + 1;
        }
        jrow := jrow + 1;
      }
    }
  }

  /** The loop of NewFractalArt that stores the result under each permutation's key. */
  /** Storing one more permutation adds its key to the rules stored so far. */
  lemma AddRuleSnoc(rules: map<string, Image>, perms: seq<Image>, j: nat, result: Image)
    requires j < |perms| && forall i :: 0 <= i < |perms| ==> IsSquare(perms[i])
    ensures AddRule(rules, perms[..j + 1], result)
            == AddRule(rules, perms[..j], result)[StringImage(perms[j], false) := result]
  {
    assert perms[..j + 1][..j] == perms[..j];
  }

  method StoreRule(rules: map<string, Image>, perms: seq<Image>, result: Image) returns (r: map<string, Image>)
    requires forall i :: 0 <= i < |perms| ==> IsSquare(perms[i])
    ensures r == AddRule(rules, perms, result)
  {
    r := rules;
    var j := 0;
    while j < |perms|
      invariant 0 <= j <= |perms|
      invariant r == AddRule(rules, perms[..j], result)
    {
      AddRuleSnoc(rules, perms, j, result);
      r := r[StringImage(perms[j], false) := result];
      j := j + 1;
    }
    assert perms[..|perms|] == perms;
  }

  /** NewFractalArt: the initial image and the rules read from the text, or null where a
      line does not parse. */
  method NewFractalArt(text: string) returns (fa: FractalArt?)
    ensures fa == null <==> RulesOf(text).None?
    ensures fa != null ==> fresh(fa) && fa.Valid() && fa.image == StoreImage(InitialImage)
                           && fa.rules == RulesOf(text).value
  {
    var lines := Split(text, '\n');
    var rules: map<string, Image> := map[];
    var jline := 0;
    while jline < |lines|
      invariant 0 <= jline <= |lines|
      invariant RulesSquare(rules)
      invariant RulesFrom(rules, lines[jline..]) == RulesOf(text)
    {
      var rule := lines[jline];
      assert lines[jline..][1..] == lines[jline + 1..];
      if |rule| == 0 {
        jline := jline + 1;
        continue;
      }
      var captures := MatchRule(rule);
      if captures.None? {
        return null;
      }
      var pattern := StoreImage(captures.value.0);
      var result := StoreImage(captures.value.1);
      rules := StoreRule(rules, Permutations(pattern), result);
      jline := jline + 1;
    }
    fa := new FractalArt(StoreImage(InitialImage), rules);
  }
}
