// The knot hash of day 10: a circular list of 0..n-1 in which windows are
// reversed in place, the window start advancing by length plus a growing skip.
module KnotHash {
  import opened Common
  import opened Text

  /** 0, 1, ..., n-1. */
  function Iota(n: nat): (s: seq<int>)
    ensures |s| == n && forall i :: 0 <= i < n ==> s[i] == i
  {
    if n == 0 then [] else Iota(n - 1) + [n - 1]
  }

  /** `s` rotated left by k: element k comes first. */
  function Rot(s: seq<int>, k: nat): (r: seq<int>)
    requires k <= |s|
    ensures |r| == |s|
  {
    s[k..] + s[..k]
  }

  function Rev(s: seq<int>): (r: seq<int>)
    ensures |r| == |s|
  {
    if s == [] then [] else Rev(s[1..]) + [s[0]]
  }

  /**
   * The list with the circular window of `length` elements from `start` reversed:
   * rotate the window to the front, reverse the first `length` elements, rotate back.
   */
  function CircularReverse(s: seq<int>, start: nat, length: nat): (r: seq<int>)
    requires start < |s| && length <= |s|
    ensures |r| == |s|
  {
    var front := Rot(s, start);
    Rot(Rev(front[..length]) + front[length..], |s| - start)
  }

  /** Index i + n reduced once: for 0 <= i < 2n, the circular index. */
  function Wrap(n: nat, i: nat): nat
  {
    if i < n then i else i - n
  }

  /** How far position j lies past `start`, going round the circle. */
  function Offset(n: nat, start: nat, j: nat): nat
    requires start < n && j < n
  {
    if j >= start then j - start else j + n - start
  }

  lemma {:induction false} RevAt(s: seq<int>, i: nat)
    requires i < |s|
    ensures Rev(s)[i] == s[|s| - 1 - i]
  {
    if i < |s| - 1 {
      RevAt(s[1..], i);
    }
  }

  lemma RotAt(s: seq<int>, k: nat, i: nat)
    requires k <= |s| && i < |s|
    ensures Rot(s, k)[i] == if i < |s| - k then s[k + i] else s[i - (|s| - k)]
  {
  }

  /**
   * Position j of the result: inside the window it holds the element mirrored
   * across the window, elsewhere the element that was there.
   */
  lemma CircularReverseAt(s: seq<int>, start: nat, length: nat, j: nat)
    requires start < |s| && length <= |s| && j < |s|
    ensures var o := Offset(|s|, start, j);
            CircularReverse(s, start, length)[j] ==
              if o < length then s[Wrap(|s|, start + length - 1 - o)] else s[j]
  {
    var n := |s|;
    var front := Rot(s, start);
    var t := Rev(front[..length]) + front[length..];
    var o := Offset(n, start, j);
    RotAt(t, n - start, j);
    assert CircularReverse(s, start, length)[j] == t[o];
    if o < length {
      RevAt(front[..length], o);
      RotAt(s, start, length - 1 - o);
    } else {
      RotAt(s, start, o);
    }
  }

  lemma {:induction false} RevMultiset(s: seq<int>)
    ensures multiset(Rev(s)) == multiset(s)
  {
    if s != [] {
      RevMultiset(s[1..]);
      assert s == [s[0]] + s[1..];
    }
  }

  lemma RotMultiset(s: seq<int>, k: nat)
    requires k <= |s|
    ensures multiset(Rot(s, k)) == multiset(s)
  {
    assert s == s[..k] + s[k..];
  }

  /** Reversing a window keeps the list a permutation of what it was. */
  lemma CircularReversePermutes(s: seq<int>, start: nat, length: nat)
    requires start < |s| && length <= |s|
    ensures multiset(CircularReverse(s, start, length)) == multiset(s)
  {
    var front := Rot(s, start);
    RotMultiset(s, start);
    RevMultiset(front[..length]);
    assert front == front[..length] + front[length..];
    var t := Rev(front[..length]) + front[length..];
    RotMultiset(t, |s| - start);
  }

  /** A window of length 0 or 1 leaves the list as it was. */
  lemma ShortWindowUnchanged(s: seq<int>, start: nat, length: nat)
    requires start < |s| && length <= 1
    ensures CircularReverse(s, start, length) == s
  {
    forall j | 0 <= j < |s|
      ensures CircularReverse(s, start, length)[j] == s[j]
    {
      CircularReverseAt(s, start, length, j);
    }
  }

  /**
   * The window of `length` cells from `start`, going round the circle: the
   * cells from start on, and, once the window passes the end, the cells it
   * covers again from the front.
   */
  predicate InWindow(n: nat, start: int, length: int, j: int)
  {
    start <= j < start + length || j + n < start + length
  }

  /** The cell a window position is mirrored onto, across the window's centre. */
  function MirrorOf(n: nat, start: int, length: int, j: int): nat
    requires n > 0
  {
    (2 * start + length - 1 - j) % n
  }

  /**
   * The list with its circular window reversed: every cell of the window
   * takes the element of its mirror cell, every other cell keeps its own. A
   * window may be longer than the list, as long as it does not go round twice
   * from its start.
   */
  function Twist(s: seq<int>, start: nat, length: nat): (r: seq<int>)
    requires start <= |s| && start + length <= 2 * |s|
    ensures |r| == |s|
  {
    seq(|s|, j requires 0 <= j < |s| =>
      if InWindow(|s|, start, length, j) then s[MirrorOf(|s|, start, length, j)] else s[j])
  }

  /**
   * reverseSubSlice as a value: a window of at most one element returns the
   * list as it is, whatever the start; otherwise None stands for Go's panic
   * on a slice bound (a negative start, a start past the end, or a window
   * running past the list's capacity on its second lap).
   */
  function Reversal(s: seq<int>, start: int, length: int): (r: Option<seq<int>>)
    ensures r.Some? ==> |r.value| == |s|
  {
    if length <= 1 then Some(s)
    else if start < 0 || start > |s| || start + length > 2 * |s| then None
    else Some(Twist(s, start, length))
  }

  /** x mod n for x in [q n, (q + 1) n): the four laps a mirrored index can fall in. */
  lemma ModLap(x: int, n: int, q: int)
    requires n > 0 && -1 <= q <= 2 && q * n <= x < q * n + n
    ensures x % n == x - q * n
  {
    ModUnique(x, n, q, x - q * n);
  }

  /** Within the list, the window is the rotate-reverse-rotate reversal. */
  lemma TwistIsCircularReverse(s: seq<int>, start: nat, length: nat)
    requires start < |s| && length <= |s|
    ensures Twist(s, start, length) == CircularReverse(s, start, length)
  {
    var n := |s|;
    forall j | 0 <= j < n
      ensures Twist(s, start, length)[j] == CircularReverse(s, start, length)[j]
    {
      CircularReverseAt(s, start, length, j);
      var o := Offset(n, start, j);
      var x := 2 * start + length - 1 - j;
      if o < length {
        if j >= start {
          if x < n { ModLap(x, n, 0); } else { ModLap(x, n, 1); }
        } else {
          if x < 2 * n { ModLap(x, n, 1); } else { ModLap(x, n, 2); }
        }
      }
    }
  }

  /** A window of the whole list or longer mirrors the whole list: reversed, then rotated by m. */
  lemma TwistWhole(s: seq<int>, start: nat, length: nat) returns (m: nat)
    requires 0 < |s| <= length && start <= |s| && start + length <= 2 * |s|
    ensures m < |s| && Twist(s, start, length) == Rot(Rev(s), m)
  {
    var n := |s|;
    var c := 2 * start + length;
    var d := (-c) / n;
    m := (-c) % n;
    assert -c == d * n + m;
    forall j | 0 <= j < n
      ensures Twist(s, start, length)[j] == Rot(Rev(s), m)[j]
    {
      RotAt(Rev(s), m, j);
      var u := if j < n - m then m + j else j - (n - m);
      RevAt(s, u);
      WholeMirror(n, c, d, m, j, u);
    }
  }

  /** The mirror of j across a whole-list window is the cell the rotated reversal reads. */
  lemma WholeMirror(n: int, c: int, d: int, m: int, j: int, u: int)
    requires 0 <= m < n && 0 <= j < n && -c == d * n + m
    requires u == if j < n - m then m + j else j - (n - m)
    ensures 0 <= u < n && (c - 1 - j) % n == n - 1 - u
  {
    var e := if j < n - m then 0 else 1;
    assert u == m + j - e * n;
    assert c - 1 - j == (-d - 1 - e) * n + (n - 1 - u) by {
      assert (-d - 1 - e) * n == -(d * n) - n - e * n;
    }
    ModUnique(c - 1 - j, n, -d - 1 - e, n - 1 - u);
  }

  /** A window starting just past the end is the same window started at the front. */
  lemma TwistFromEnd(s: seq<int>, length: nat)
    requires 0 < |s| && length <= |s|
    ensures Twist(s, |s|, length) == Twist(s, 0, length)
  {
    var n := |s|;
    forall j | 0 <= j < n
      ensures Twist(s, n, length)[j] == Twist(s, 0, length)[j]
    {
      if j < length {
        var x := length - 1 - j;
        ModLap(x, n, 0);
        ModLap(2 * n + x, n, 2);
      }
    }
  }

  /** However long the window, reversing it keeps the list a permutation of what it was. */
  lemma TwistPermutes(s: seq<int>, start: nat, length: nat)
    requires start <= |s| && start + length <= 2 * |s|
    ensures multiset(Twist(s, start, length)) == multiset(s)
  {
    var n := |s|;
    if n == 0 {
    } else if length >= n {
      var m := TwistWhole(s, start, length);
      RevMultiset(s);
      RotMultiset(Rev(s), m);
    } else if start < n {
      TwistIsCircularReverse(s, start, length);
      CircularReversePermutes(s, start, length);
    } else {
      TwistFromEnd(s, length);
      TwistIsCircularReverse(s, 0, length);
      CircularReversePermutes(s, 0, length);
    }
  }

  /** reverseSubSlice, when it returns, keeps the list a permutation of what it was. */
  lemma ReversalPermutes(s: seq<int>, start: int, length: int)
    requires Reversal(s, start, length).Some?
    ensures multiset(Reversal(s, start, length).value) == multiset(s)
  {
    if length >= 2 {
      TwistPermutes(s, start, length);
    }
  }

  /**
   * reverseSubSlice panics exactly on a window of two or more whose start is
   * negative or past the end, or that runs past the list's capacity.
   */
  lemma ReversalPanics(s: seq<int>, start: int, length: int)
    ensures Reversal(s, start, length).None? <==>
              2 <= length && (start < 0 || start > |s| || start + length > 2 * |s|)
    ensures length <= 1 ==> Reversal(s, start, length) == Some(s)
  {
  }

  /** The reversal loop of reverseSubSlice, over a[lo..lo+length). */
  method ReverseWindow(a: array<int>, lo: nat, length: nat)
    requires lo + length <= a.Length
    modifies a
    ensures forall i :: 0 <= i < a.Length && !(lo <= i < lo + length) ==> a[i] == old(a[i])
    ensures forall i :: lo <= i < lo + length ==> a[i] == old(a[2 * lo + length - 1 - i])
  {
    var j := length / 2 - 1;
    while j >= 0
      invariant -1 <= j <= length / 2 - 1
      invariant forall i :: 0 <= i < a.Length && !(lo + j < i < lo + length - 1 - j) ==> a[i] == old(a[i])
      invariant forall i :: lo + j < i < lo + length - 1 - j ==> a[i] == old(a[2 * lo + length - 1 - i])
      decreases j
    {
      var opp := length - 1 - j;
      a[lo + j], a[lo + opp] := a[lo + opp], a[lo + j];
      j := j - 1;
    }
  }

  /** Go's copy between two distinct arrays: count elements of src from srcLo to dst from dstLo. */
  method CopyInto(dst: array<int>, dstLo: nat, src: array<int>, srcLo: nat, count: nat)
    requires dst != src && dstLo + count <= dst.Length && srcLo + count <= src.Length
    modifies dst
    ensures dst[..] == old(dst[..dstLo]) + src[srcLo..srcLo + count] + old(dst[dstLo + count..])
  {
    var i := 0;
    while i < count
      invariant 0 <= i <= count
      invariant forall k :: 0 <= k < dst.Length && !(dstLo <= k < dstLo + i) ==> dst[k] == old(dst[k])
      invariant forall k :: dstLo <= k < dstLo + i ==> dst[k] == src[k - dstLo + srcLo]
    {
      dst[dstLo + i] := src[srcLo + i];
      i := i + 1;
    }
  }

  /**
   * reverseSubSlice, in place: a window that ends before the last element is
   * reversed directly in the list (the Go subslice aliases it, so copying it
   * back is a copy onto itself); any other window is copied out in two pieces,
   * reversed and copied back.
   */
  method ReverseSubSlice(slice: array<int>, start: int, length: int)
    requires Reversal(slice[..], start, length).Some?
    modifies slice
    ensures slice[..] == Reversal(old(slice[..]), start, length).value
  {
    if length <= 1 {
    } else if start + length < slice.Length {
      ReverseInPlace(slice, start, length);
    } else {
      ReverseThroughCopy(slice, start, length);
    }
  }

  /** The window does not wrap: the subslice aliases the list and is reversed where it lies. */
  method ReverseInPlace(slice: array<int>, start: nat, length: nat)
    requires start + length < slice.Length
    modifies slice
    ensures slice[..] == Twist(old(slice[..]), start, length)
  {
    ghost var s := slice[..];
    ReverseWindow(slice, start, length);
    forall j | 0 <= j < slice.Length
      ensures slice[j] == Twist(s, start, length)[j]
    {
      if start <= j < start + length {
        ModLap(2 * start + length - 1 - j, slice.Length, 0);
      }
    }
  }

  /** The window wraps: its two pieces are copied out, reversed and copied back. */
  method ReverseThroughCopy(slice: array<int>, start: nat, length: nat)
    requires start <= slice.Length <= start + length <= 2 * slice.Length
    modifies slice
    ensures slice[..] == Twist(old(slice[..]), start, length)
  {
    ghost var s := slice[..];
    var subslice := CopyOut(slice, start, length);
    ghost var c := subslice[..];
    ReverseWindow(subslice, 0, length);
    ghost var r := subslice[..];
    assert forall m :: 0 <= m < length ==> r[m] == c[length - 1 - m];
    CopyBack(slice, subslice, start, s, r);
    WrappedWindow(s, c, r, slice[..], start, length);
  }

  /** The wrapped window, tail piece of the list first, copied into a new subslice. */
  method CopyOut(slice: array<int>, start: nat, length: nat) returns (subslice: array<int>)
    requires start <= slice.Length <= start + length <= 2 * slice.Length
    ensures fresh(subslice)
    ensures subslice[..] == slice[start..] + slice[..length - (slice.Length - start)]
  {
    var k := slice.Length - start;
    subslice := new int[length];
    ghost var z := subslice[..];
    CopyInto(subslice, 0, slice, start, k);
    ghost var front := subslice[..];
    CopyInto(subslice, k, slice, 0, length - k);
    TwoCopies(z, front, subslice[..], slice[start..], slice[..length - k]);
  }

  /** Two copies into z, the second starting where the first ended, fill it with both sources. */
  lemma TwoCopies(z: seq<int>, mid: seq<int>, t: seq<int>, a: seq<int>, b: seq<int>)
    requires |z| == |a| + |b|
    requires mid == z[..0] + a + z[|a|..]
    requires t == mid[..|a|] + b + mid[|a| + |b|..]
    ensures t == a + b
  {
  }

  /**
   * The subslice copied back: its first k elements over the list's tail from
   * start, then the rest over the list's head. A window longer than the list
   * writes part of the tail a second time.
   */
  method CopyBack(slice: array<int>, subslice: array<int>, start: nat, ghost s: seq<int>, ghost r: seq<int>)
    requires slice != subslice && slice[..] == s && subslice[..] == r
    requires start <= slice.Length <= start + subslice.Length <= 2 * slice.Length
    modifies slice
    ensures |slice[..]| == |s|
    ensures var k, length := |s| - start, |r|;
            forall j :: 0 <= j < |s| ==>
              slice[..][j] == if j < length - k then r[k + j]
                              else if j >= start then r[j - start]
                              else s[j]
  {
    var k, length := slice.Length - start, subslice.Length;
    CopyInto(slice, start, subslice, 0, k);
    ghost var mid := slice[..];
    CopyInto(slice, 0, subslice, k, length - k);
    ghost var t := slice[..];
    forall j | 0 <= j < |s|
      ensures t[j] == if j < length - k then r[k + j]
                      else if j >= start then r[j - start]
                      else s[j]
    {
      CopiedAt(mid, s, subslice[0..k], start, j);
      CopiedAt(t, mid, subslice[k..length], 0, j);
    }
  }

  /** An element of a list after a copy over lo .. lo + |b|. */
  lemma CopiedAt(t: seq<int>, a: seq<int>, b: seq<int>, lo: nat, j: nat)
    requires lo + |b| <= |a| && t == a[..lo] + b + a[lo + |b|..] && j < |a|
    ensures t[j] == if lo <= j < lo + |b| then b[j - lo] else a[j]
  {
  }

  /**
   * The list after copying the wrapped window out into c (its tail piece
   * first), reversing c into r and copying r back over the two pieces.
   */
  lemma WrappedWindow(s: seq<int>, c: seq<int>, r: seq<int>, t: seq<int>, start: nat, length: nat)
    requires start <= |s| <= start + length <= 2 * |s|
    requires c == s[start..] + s[..length - (|s| - start)]
    requires |r| == length && forall m :: 0 <= m < length ==> r[m] == c[length - 1 - m]
    requires |t| == |s|
    requires forall j :: 0 <= j < |s| ==>
               t[j] == if j < length - (|s| - start) then r[|s| - start + j]
                       else if j >= start then r[j - start]
                       else s[j]
    ensures t == Twist(s, start, length)
  {
    forall j | 0 <= j < |s|
      ensures t[j] == Twist(s, start, length)[j]
    {
      WrappedWindowAt(s, c, r, t[j], start, length, j);
    }
  }


  /** One position of the wrapped window's copy back. */
  lemma WrappedWindowAt(s: seq<int>, c: seq<int>, r: seq<int>, v: int, start: nat, length: nat, j: nat)
    requires start <= |s| <= start + length <= 2 * |s| && j < |s|
    requires c == s[start..] + s[..length - (|s| - start)]
    requires |r| == length && forall m :: 0 <= m < length ==> r[m] == c[length - 1 - m]
    requires v == if j < length - (|s| - start) then r[|s| - start + j]
                  else if j >= start then r[j - start]
                  else s[j]
    ensures v == Twist(s, start, length)[j]
  {
    var n := |s|;
    var k := n - start;
    var x := 2 * start + length - 1 - j;
    if j < length - k {
      var i := length - 1 - k - j;
      assert v == c[i];
      if i < k { ModLap(x, n, 1); } else { ModLap(x, n, 2); }
    } else if j >= start {
      var i := length - 1 - j + start;
      assert v == c[i];
      if i < k { ModLap(x, n, 0); } else { ModLap(x, n, 1); }
    }
  }

  /** The state of a knot hash as a value: list, current position and skip size. */
  datatype Knot = Knot(list: seq<int>, position: int, skip: int)

  /** The state a fresh KnotHash of the given size starts in. */
  function Initial(size: nat): Knot
  {
    Knot(Iota(size), 0, 0)
  }

  /**
   * What every reachable state keeps: the skip counts steps, and the position
   * is a Go remainder by the list's length (negative after a step whose
   * position, length and skip add up below 0), or the starting 0.
   */
  predicate Valid(k: Knot)
  {
    k.skip >= 0 && (k.position == 0 || -|k.list| < k.position < |k.list|)
  }

  /**
   * hashStep: reverse the window at the position, then move the position on
   * by length plus skip, Go's `%` by the list's length, and count the skip up.
   * None stands for Go's panic: in reverseSubSlice, or the `%` by zero of an
   * empty list.
   */
  function Step(k: Knot, length: int): (r: Option<Knot>)
    requires Valid(k)
    ensures r.Some? ==> Valid(r.value) && |r.value.list| == |k.list| && r.value.skip == k.skip + 1
  {
    if |k.list| == 0 then None
    else match Reversal(k.list, k.position, length)
      case None => None
      case Some(list) => Some(Knot(list, GoRem(k.position + length + k.skip, |k.list|), k.skip + 1))
  }

  /**
   * A step by a length of at most 1, negative ones included, leaves the list
   * as it is and never panics on a non-empty list; the position then goes
   * below 0 exactly when position, length and skip add up below 0 (and are
   * no multiple of the length).
   */
  lemma ShortStep(k: Knot, length: int)
    requires Valid(k) && |k.list| > 0 && length <= 1
    ensures Step(k, length).Some?
    ensures Step(k, length).value.list == k.list
    ensures var p := k.position + length + k.skip;
            Step(k, length).value.position == GoRem(p, |k.list|) &&
            (p >= 0 ==> Step(k, length).value.position >= 0)
  {
  }

  /** A step moves the position by length plus skip, round the list, keeping the sign Go's `%` gives. */
  lemma StepPosition(k: Knot, length: int)
    requires Valid(k) && Step(k, length).Some?
    ensures var n, p, q := |k.list|, k.position + length + k.skip, Step(k, length).value.position;
            -n < q < n && (p - q) % n == 0 && (p >= 0 ==> q >= 0) && (p <= 0 ==> q <= 0)
  {
  }

  /** Once the position is negative, the next length of 2 or more panics. */
  lemma NegativePositionPanics(k: Knot, length: int)
    requires Valid(k) && k.position < 0 && length >= 2
    ensures Step(k, length).None?
  {
  }

  /** A step that does not panic keeps the list a permutation of what it was. */
  lemma StepPermutes(k: Knot, length: int)
    requires Valid(k) && Step(k, length).Some?
    ensures multiset(Step(k, length).value.list) == multiset(k.list)
  {
    ReversalPermutes(k.list, k.position, length);
  }

  /** The hash steps for each length in turn, None at the first step that panics. */
  function Steps(k: Knot, lengths: seq<int>): (r: Option<Knot>)
    requires Valid(k)
    ensures r.Some? ==> Valid(r.value) && |r.value.list| == |k.list|
    decreases |lengths|
  {
    if lengths == [] then Some(k)
    else match Step(k, lengths[0])
      case None => None
      case Some(next) => Steps(next, lengths[1..])
  }

  /** Through any number of steps the list stays a permutation of what it was. */
  lemma {:induction false} StepsPermute(k: Knot, lengths: seq<int>)
    requires Valid(k) && Steps(k, lengths).Some?
    ensures multiset(Steps(k, lengths).value.list) == multiset(k.list)
    ensures Steps(k, lengths).value.skip == k.skip + |lengths|
    decreases |lengths|
  {
    if lengths != [] {
      var next := Step(k, lengths[0]).value;
      StepsPermute(next, lengths[1..]);
      StepPermutes(k, lengths[0]);
    }
  }

  /** So a list started from 0..n-1 always holds each of 0..n-1 exactly once. */
  lemma HashListIsPermutationOfIota(size: nat, lengths: seq<int>)
    requires Steps(Initial(size), lengths).Some?
    ensures multiset(Steps(Initial(size), lengths).value.list) == multiset(Iota(size))
  {
    StepsPermute(Initial(size), lengths);
  }

  /** The steps for a list of lengths are the first length's step followed by the steps for the rest. */
  lemma StepsCons(k: Knot, lengths: seq<int>, next: Knot)
    requires Valid(k) && lengths != [] && Step(k, lengths[0]) == Some(next)
    ensures Steps(k, lengths) == Steps(next, lengths[1..])
  {
  }

  /** A step that panics ends the steps with the panic. */
  lemma StepsPanic(k: Knot, lengths: seq<int>)
    requires Valid(k) && lengths != [] && Step(k, lengths[0]).None?
    ensures Steps(k, lengths).None?
  {
  }

  /** A piece without the spaces at its start. */
  function TrimLeft(s: string): (r: string)
    ensures r == [] || !IsRegexSpace(r[0])
    ensures |r| <= |s|
  {
    if s != [] && IsRegexSpace(s[0]) then TrimLeft(s[1..]) else s
  }

  /** A piece without the spaces at its end. */
  function TrimRight(s: string): (r: string)
    ensures r == [] || !IsRegexSpace(r[|r| - 1])
    ensures |r| <= |s|
  {
    if s != [] && IsRegexSpace(s[|s| - 1]) then TrimRight(s[..|s| - 1]) else s
  }

  /**
   * The pieces of a lengths descriptor split at commas, with the spaces
   * around each comma removed: splitting at the pattern (spaces, comma,
   * spaces), each comma-separated piece loses the spaces next to a comma,
   * but not those at either end of the whole descriptor.
   */
  function SplitLengths(descriptor: string): (pieces: seq<string>)
    ensures |pieces| == |Split(descriptor, ',')|
  {
    TrimPieces(Split(descriptor, ','))
  }

  /** Each piece but the last loses its trailing spaces, each but the first its leading ones. */
  function TrimPieces(parts: seq<string>): (pieces: seq<string>)
    ensures |pieces| == |parts|
  {
    seq(|parts|, i requires 0 <= i < |parts| =>
      var p := if i + 1 < |parts| then TrimRight(parts[i]) else parts[i];
      if i > 0 then TrimLeft(p) else p)
  }

  function ParseLengths(descriptor: string): (lengths: seq<int>)
    ensures |lengths| == |Split(descriptor, ',')|
  {
    var pieces := SplitLengths(descriptor);
    seq(|pieces|, i requires 0 <= i < |pieces| => AtoiOrZero(pieces[i]))
  }


  /**
   * hash on a new list of the given size: the product of the first two
   * elements once every length has been applied. None stands for Go's panic:
   * in make on a negative size, in a step, or on indexing a list of fewer
   * than two elements.
   */
  function HashOf(size: int, descriptor: string): (r: Option<int>)
    ensures size < 0 ==> r.None?
    ensures r.Some? ==> size >= 2 && Steps(Initial(size), ParseLengths(descriptor)).Some?
  {
    if size < 0 then None
    else match Steps(Initial(size), ParseLengths(descriptor))
      case None => None
      case Some(k) => if |k.list| < 2 then None else Some(k.list[0] * k.list[1])
  }

  /** A list agrees with the reversal when it agrees position by position. */
  lemma CircularReverseIs(s: seq<int>, start: nat, length: nat, expected: seq<int>)
    requires start < |s| && length <= |s| && |expected| == |s|
    requires forall j :: 0 <= j < |s| ==>
               expected[j] == (var o := Offset(|s|, start, j);
                               if o < length then s[Wrap(|s|, start + length - 1 - o)] else s[j])
    ensures CircularReverse(s, start, length) == expected
    ensures Twist(s, start, length) == expected
  {
    forall j | 0 <= j < |s|
      ensures CircularReverse(s, start, length)[j] == expected[j]
    {
      CircularReverseAt(s, start, length, j);
    }
    TwistIsCircularReverse(s, start, length);
  }

  /** The worked example: lengths 3, 4, 1, 5 and then 0 on a list of five. */
  lemma ExampleStep1()
    ensures Step(Initial(5), 3) == Some(Knot([2, 1, 0, 3, 4], 3, 1))
  {
    assert Iota(5) == [0, 1, 2, 3, 4];
    CircularReverseIs([0, 1, 2, 3, 4], 0, 3, [2, 1, 0, 3, 4]);
  }

  lemma ExampleStep2()
    ensures Step(Knot([2, 1, 0, 3, 4], 3, 1), 4) == Some(Knot([4, 3, 0, 1, 2], 3, 2))
  {
    CircularReverseIs([2, 1, 0, 3, 4], 3, 4, [4, 3, 0, 1, 2]);
  }

  lemma ExampleStep3()
    ensures Step(Knot([4, 3, 0, 1, 2], 3, 2), 1) == Some(Knot([4, 3, 0, 1, 2], 1, 3))
  {
  }

  lemma ExampleStep4()
    ensures Step(Knot([4, 3, 0, 1, 2], 1, 3), 5) == Some(Knot([3, 4, 2, 1, 0], 4, 4))
  {
    CircularReverseIs([4, 3, 0, 1, 2], 1, 5, [3, 4, 2, 1, 0]);
  }

  lemma ExampleStep5()
    ensures Step(Knot([3, 4, 2, 1, 0], 4, 4), 0) == Some(Knot([3, 4, 2, 1, 0], 3, 5))
  {
  }

  /** A window longer than the list: 7 from the front of five mirrors the whole list. */
  lemma ExampleLongWindow()
    ensures Step(Initial(5), 7) == Some(Knot([1, 0, 4, 3, 2], 2, 1))
  {
    assert Iota(5) == [0, 1, 2, 3, 4];
    LongWindowTwist([0, 1, 2, 3, 4]);
    assert GoRem(7, 5) == 2;
  }

  lemma LongWindowTwist(s: seq<int>)
    requires s == [0, 1, 2, 3, 4]
    ensures Twist(s, 0, 7) == [1, 0, 4, 3, 2]
  {
    var t := Twist(s, 0, 7);
    assert t[0] == 1 by { ModLap(6, 5, 1); }
    assert t[1] == 0 by { ModLap(5, 5, 1); }
    assert t[2] == 4 by { ModLap(4, 5, 0); }
    assert t[3] == 3 by { ModLap(3, 5, 0); }
    assert t[4] == 2 by { ModLap(2, 5, 0); }
  }

  /** A window running past the list's capacity panics. */
  lemma ExampleOverlongWindow()
    ensures Step(Initial(5), 11).None?
  {
  }

  /**
   * A negative length leaves the list as it is; the new position is
   * position + length + skip under Go's `%` (StepPosition), strictly between
   * -n and n, and negative only when that sum is negative. The steps go on.
   */
  lemma ExampleNegativeLength()
    ensures Steps(Initial(5), [3, -1, 2]) == Some(Knot([2, 1, 0, 4, 3], 2, 3))
  {
    var k1 := Knot([2, 1, 0, 3, 4], 3, 1);
    var k2 := Knot([2, 1, 0, 3, 4], 3, 2);
    ExampleStep1();
    StepsCons(Initial(5), [3, -1, 2], k1);
    assert [3, -1, 2][1..] == [-1, 2];
    assert Step(k1, -1) == Some(k2);
    StepsCons(k1, [-1, 2], k2);
    assert [-1, 2][1..] == [2];
    var s := [2, 1, 0, 3, 4];
    var t := Twist(s, 3, 2);
    assert t[3] == 4 by { ModLap(4, 5, 0); }
    assert t[4] == 3 by { ModLap(3, 5, 0); }
    assert t == [2, 1, 0, 4, 3];
    assert Step(k2, 2) == Some(Knot([2, 1, 0, 4, 3], 2, 3));
    StepsCons(k2, [2], Knot([2, 1, 0, 4, 3], 2, 3));
  }

  /** A negative length that takes the position below 0 makes the next reversal panic. */
  lemma ExampleNegativePosition()
    ensures Step(Initial(5), -3) == Some(Knot([0, 1, 2, 3, 4], -3, 1))
    ensures Steps(Initial(5), [-3, 2]).None?
  {
    assert Iota(5) == [0, 1, 2, 3, 4];
    var k1 := Knot([0, 1, 2, 3, 4], -3, 1);
    assert Step(Initial(5), -3) == Some(k1);
    StepsCons(Initial(5), [-3, 2], k1);
    assert [-3, 2][1..] == [2];
    NegativePositionPanics(k1, 2);
    StepsPanic(k1, [2]);
  }

  lemma ExampleSplit()
    ensures Split("3, 4, 1, 5", ',') == ["3", " 4", " 1", " 5"]
  {
    var parts := ["3", " 4", " 1", " 5"];
    assert Join(parts, ',') == "3, 4, 1, 5";
    SplitJoin(parts, ',');
  }

  lemma TrimSpaceDigit(p: string, c: char)
    requires IsDigit(c) && p == [' ', c]
    ensures TrimRight(p) == p && TrimLeft(p) == [c]
  {
    assert !IsRegexSpace(c);
    assert p[1..] == [c];
    assert TrimLeft([c]) == [c];
  }

  lemma ExampleTrimPieces(parts: seq<string>)
    requires parts == ["3", " 4", " 1", " 5"]
    ensures TrimPieces(parts) == ["3", "4", "1", "5"]
  {
    var pieces := TrimPieces(parts);
    assert pieces[0] == "3" by { assert !IsRegexSpace('3'); }
    assert pieces[1] == "4" by { TrimSpaceDigit(parts[1], '4'); }
    assert pieces[2] == "1" by { TrimSpaceDigit(parts[2], '1'); }
    assert pieces[3] == "5" by { TrimSpaceDigit(parts[3], '5'); }
  }

  lemma ExamplePieces(d: string)
    requires d == "3, 4, 1, 5"
    ensures SplitLengths(d) == ["3", "4", "1", "5"]
  {
    ExampleSplit();
    ExampleTrimPieces(Split(d, ','));
  }

  /** The descriptor of the example splits into its four numbers. */
  lemma ExampleLengths(d: string)
    requires d == "3, 4, 1, 5"
    ensures ParseLengths(d) == [3, 4, 1, 5]
  {
    ExamplePieces(d);
    assert Atoi("3") == Some(3) && Atoi("4") == Some(4) && Atoi("1") == Some(1) && Atoi("5") == Some(5);
  }

  lemma ExampleSteps(k: Knot, lengths: seq<int>)
    requires k == Initial(5) && lengths == [3, 4, 1, 5]
    ensures Steps(k, lengths) == Some(Knot([3, 4, 2, 1, 0], 4, 4))
  {
    ExampleStep1();
    ExampleStep2();
    ExampleStep3();
    ExampleStep4();
    var k1, k2, k3, k4 := Knot([2, 1, 0, 3, 4], 3, 1), Knot([4, 3, 0, 1, 2], 3, 2),
                          Knot([4, 3, 0, 1, 2], 1, 3), Knot([3, 4, 2, 1, 0], 4, 4);
    StepsCons(k, lengths, k1);
    assert lengths[1..] == [4, 1, 5];
    StepsCons(k1, [4, 1, 5], k2);
    assert [4, 1, 5][1..] == [1, 5];
    StepsCons(k2, [1, 5], k3);
    assert [1, 5][1..] == [5];
    StepsCons(k3, [5], k4);
  }

  /** The example hash is 12. */
  lemma ExampleHash(d: string)
    requires d == "3, 4, 1, 5"
    ensures HashOf(5, d) == Some(12)
  {
    ExampleLengths(d);
    ExampleSteps(Initial(5), ParseLengths(d));
    HashOfIs(5, d, Knot([3, 4, 2, 1, 0], 4, 4));
  }

  /** hash's result once the steps are known. */
  lemma HashOfIs(size: nat, d: string, k: Knot)
    requires Steps(Initial(size), ParseLengths(d)) == Some(k) && |k.list| >= 2
    ensures HashOf(size, d) == Some(k.list[0] * k.list[1])
  {
  }

  class KnotHash {
    var list: array<int>
    var position: int
    var skip: int

    function Snapshot(): Knot
      reads this, list
    {
      Knot(list[..], position, skip)
    }

    /** NewKnotHash: the list 0..size-1, at position 0 with skip 0. */
    constructor (size: nat)
      ensures Snapshot() == Initial(size) && fresh(list)
    {
      var a := new int[size];
      var j := 0;
      while j < size
        invariant 0 <= j <= size
        invariant forall i :: 0 <= i < j ==> a[i] == i
      {
        a[j] := j;
        j := j + 1;
      }
      list := a;
      position := 0;
      skip := 0;
    }

    method HashStep(length: int)
      requires Valid(Snapshot()) && Step(Snapshot(), length).Some?
      modifies this, list
      ensures list == old(list)
      ensures Snapshot() == Step(old(Snapshot()), length).value
    {
      ReverseSubSlice(list, position, length);
      position := GoRem(position + length + skip, list.Length);
      skip := skip + 1;
    }

    method Hash(lengthsDescriptor: string) returns (r: int)
      requires Valid(Snapshot()) && list.Length >= 2
      requires Steps(Snapshot(), ParseLengths(lengthsDescriptor)).Some?
      modifies this, list
      ensures list == old(list)
      ensures Some(Snapshot()) == Steps(old(Snapshot()), ParseLengths(lengthsDescriptor))
      ensures r == list[0] * list[1]
    {
      var lengths := ParseLengths(lengthsDescriptor);
      var j := 0;
      while j < |lengths|
        invariant 0 <= j <= |lengths| && list == old(list)
        invariant Valid(Snapshot())
        invariant Steps(Snapshot(), lengths[j..]) == Steps(old(Snapshot()), lengths)
      {
        assert lengths[j..][0] == lengths[j] && lengths[j..][1..] == lengths[j + 1..];
        HashStep(lengths[j]);
        j := j + 1;
      }
      r := list[0] * list[1];
    }
  }
}
