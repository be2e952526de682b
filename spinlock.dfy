// The spinlock of day 17: a circular buffer that starts as [0]; each insert
// steps the cursor forward stepSize times, wrapping from the last element to
// the first, puts the next number right after the cursor and moves onto it.
// The linked list becomes a sequence and the cursor the index of its element.
module Spinlock {
  import opened Common

  // ---------------------------------------------------------------------------
  // The buffer as a value

  /** The buffer front to back, the cursor's index in it, and the last number inserted. */
  datatype Lock = Lock(buffer: seq<int>, cursor: int, count: int)

  /** The cursor is on an element of the buffer. */
  predicate OnElement(l: Lock)
  {
    0 <= l.cursor < |l.buffer|
  }

  /** NewSpinLock: the buffer [0] with the cursor on 0 and nothing inserted. */
  function New(): (r: Lock)
    ensures OnElement(r)
  {
    Lock([0], 0, 0)
  }

  /** advanceCursor: the next element, or the front after the last one. */
  function Advance(l: Lock): (r: Lock)
    requires OnElement(l)
    ensures OnElement(r) && r.buffer == l.buffer && r.count == l.count
    ensures r.cursor == (l.cursor + 1) % |l.buffer|
  {
    if l.cursor + 1 < |l.buffer| then l.(cursor := l.cursor + 1) else l.(cursor := 0)
  }

  /** advanceCursor done k times. */
  function AdvanceBy(l: Lock, k: nat): (r: Lock)
    requires OnElement(l)
    ensures OnElement(r) && r.buffer == l.buffer && r.count == l.count
  {
    if k == 0 then l else Advance(AdvanceBy(l, k - 1))
  }

  /** k advances land k places further round the circle. */
  lemma {:induction false} AdvanceByWraps(l: Lock, k: nat)
    requires OnElement(l)
    ensures AdvanceBy(l, k).cursor == (l.cursor + k) % |l.buffer|
  {
    if k > 0 {
      AdvanceByWraps(l, k - 1);
      var prev := AdvanceBy(l, k - 1);
      assert AdvanceBy(l, k) == Advance(prev);
      ModSucc(l.cursor + k - 1, |l.buffer|);
    }
  }

  /** How many times insert's loop advances: `for j := 0; j < stepSize; j++` runs no time for stepSize <= 0. */
  function Advances(stepSize: int): nat
  {
    if stepSize > 0 then stepSize else 0
  }

  /** The buffer with x put right after index c. */
  function InsertAfter(buffer: seq<int>, c: int, x: int): (r: seq<int>)
    requires 0 <= c < |buffer|
    ensures |r| == |buffer| + 1 && r[0] == buffer[0] && r[c + 1] == x
  {
    buffer[..c + 1] + [x] + buffer[c + 1..]
  }

  /**
   * insert, in closed form: count goes one up, the new count lands stepSize
   * places round from the cursor, and the cursor moves onto it.
   */
  function Inserted(l: Lock, stepSize: int): (r: Lock)
    requires OnElement(l)
    ensures OnElement(r) && r.count == l.count + 1 && r.buffer[r.cursor] == r.count
  {
    var c := (l.cursor + Advances(stepSize)) % |l.buffer|;
    Lock(InsertAfter(l.buffer, c, l.count + 1), c + 1, l.count + 1)
  }

  /**
   * insert as the code does it: count one up, advance stepSize times, insert
   * after the cursor and advance once more. That is the closed form.
   */
  lemma InsertSteps(l: Lock, stepSize: int)
    requires OnElement(l)
    ensures var m := AdvanceBy(l.(count := l.count + 1), Advances(stepSize));
            Inserted(l, stepSize) == Advance(Lock(InsertAfter(m.buffer, m.cursor, m.count), m.cursor, m.count))
  {
    AdvanceByWraps(l.(count := l.count + 1), Advances(stepSize));
  }

  /** insertN: insert for j = 1 .. n; nothing when n < 1. */
  function InsertTimes(l: Lock, stepSize: int, n: nat): (r: Lock)
    requires OnElement(l)
    ensures OnElement(r)
  {
    if n == 0 then l else Inserted(InsertTimes(l, stepSize, n - 1), stepSize)
  }

  // ---------------------------------------------------------------------------
  // What the inserts keep

  /** 0, 1, ..., n - 1. */
  function Range(n: nat): (r: seq<int>)
    ensures |r| == n && forall k :: 0 <= k < n ==> r[k] == k
  {
    seq(n, k requires 0 <= k < n => k)
  }

  /**
   * The state after count inserts: the buffer holds each of 0 .. count
   * exactly once, 0 at the front, and the cursor on count.
   */
  predicate Filled(l: Lock)
  {
    && l.count >= 0
    && multiset(l.buffer) == multiset(Range(l.count + 1))
    && OnElement(l)
    && l.buffer[0] == 0
    && l.buffer[l.cursor] == l.count
  }

  lemma NewFilled()
    ensures Filled(New())
  {
    assert Range(1) == [0];
  }

  /** The buffer of a filled lock is as long as the numbers it holds. */
  lemma FilledLength(l: Lock)
    requires Filled(l)
    ensures |l.buffer| == l.count + 1
  {
    assert |multiset(l.buffer)| == |multiset(Range(l.count + 1))|;
  }

  /** Putting x into the buffer adds it to the multiset of values and changes nothing else. */
  lemma InsertAfterAdds(b: seq<int>, c: int, x: int)
    requires 0 <= c < |b|
    ensures multiset(InsertAfter(b, c, x)) == multiset(b) + multiset{x}
  {
    assert b == b[..c + 1] + b[c + 1..];
  }

  lemma RangeSnoc(n: nat)
    ensures multiset(Range(n + 1)) == multiset(Range(n)) + multiset{n}
  {
    assert Range(n + 1) == Range(n) + [n];
  }

  /** Putting the next number after any element keeps the lock filled, with the cursor on the new number. */
  lemma PlaceKeepsFilled(l: Lock, c: int)
    requires Filled(l) && 0 <= c < |l.buffer|
    ensures Filled(Lock(InsertAfter(l.buffer, c, l.count + 1), c + 1, l.count + 1))
  {
    InsertAfterAdds(l.buffer, c, l.count + 1);
    RangeSnoc(l.count + 1);
  }

  /** Every insert keeps the lock filled: the new number goes in once, after an element, so never before 0. */
  lemma InsertKeepsFilled(l: Lock, stepSize: int)
    requires Filled(l)
    ensures Filled(Inserted(l, stepSize)) && Inserted(l, stepSize).count == l.count + 1
  {
    var c := (l.cursor + Advances(stepSize)) % |l.buffer|;
    PlaceKeepsFilled(l, c);
    assert Inserted(l, stepSize) == Lock(InsertAfter(l.buffer, c, l.count + 1), c + 1, l.count + 1);
  }

  /**
   * After n inserts from NewSpinLock the buffer has n + 1 elements holding
   * each of 0 .. n once, 0 is still at the front and the cursor is on n.
   */
  lemma {:induction false} InsertTimesFills(stepSize: int, n: nat)
    ensures Filled(InsertTimes(New(), stepSize, n))
    ensures InsertTimes(New(), stepSize, n).count == n
    ensures |InsertTimes(New(), stepSize, n).buffer| == n + 1
  {
    if n == 0 {
      NewFilled();
    } else {
      InsertTimesFills(stepSize, n - 1);
      InsertKeepsFilled(InsertTimes(New(), stepSize, n - 1), stepSize);
    }
    FilledLength(InsertTimes(New(), stepSize, n));
  }

  /** The value after the cursor, wrapping to the front: the puzzle's answer. */
  function AfterCursor(l: Lock): (v: int)
    requires OnElement(l)
    ensures v == Advance(l).buffer[Advance(l).cursor]
  {
    l.buffer[(l.cursor + 1) % |l.buffer|]
  }

  // ---------------------------------------------------------------------------
  // cursorOf

  /** The first index from k on that holds `desired`, or None when none does. */
  function FindFrom(buffer: seq<int>, desired: int, k: nat): (r: Option<nat>)
    ensures r.None? <==> forall i :: k <= i < |buffer| ==> buffer[i] != desired
    ensures r.Some? ==> k <= r.value < |buffer| && buffer[r.value] == desired
    ensures r.Some? ==> forall i :: k <= i < r.value ==> buffer[i] != desired
    decreases |buffer| - k
  {
    if k >= |buffer| then None
    else if buffer[k] == desired then Some(k)
    else FindFrom(buffer, desired, k + 1)
  }

  /** cursorOf: the index of the first element holding `desired`, None when it is absent. */
  function Find(buffer: seq<int>, desired: int): (r: Option<nat>)
    ensures r.None? <==> desired !in buffer
    ensures r.Some? ==> r.value < |buffer| && buffer[r.value] == desired
    ensures r.Some? ==> forall k :: 0 <= k < r.value ==> buffer[k] != desired
  {
    FindFrom(buffer, desired, 0)
  }

  /** In a filled lock every number inserted so far is found, and nothing else. */
  lemma FindFilled(l: Lock, desired: int)
    requires Filled(l)
    ensures Find(l.buffer, desired).Some? <==> 0 <= desired <= l.count
  {
    assert desired in multiset(l.buffer) <==> desired in multiset(Range(l.count + 1));
    if 0 <= desired <= l.count {
      assert Range(l.count + 1)[desired] == desired;
    }
  }

  // ---------------------------------------------------------------------------
  // SpinLock

  class SpinLock {
    var stepSize: int
    var buffer: seq<int>
    var cursor: int
    var count: int

    function State(): Lock
      reads this
    {
      Lock(buffer, cursor, count)
    }

    /** NewSpinLock(stepSize). */
    constructor (stepSize: int)
      ensures this.stepSize == stepSize && State() == New()
    {
      this.stepSize := stepSize;
      buffer := [0];
      cursor := 0;
      count := 0;
    }

    method AdvanceCursor()
      requires OnElement(State())
      modifies this
      ensures stepSize == old(stepSize) && State() == Advance(old(State()))
    {
      cursor := cursor + 1;
      if cursor >= |buffer| {
        cursor := 0;
      }
    }

    method Insert()
      requires OnElement(State())
      modifies this
      ensures stepSize == old(stepSize) && State() == Inserted(old(State()), stepSize)
    {
      count := count + 1;
      ghost var start := State();
      assert start == old(State()).(count := old(count) + 1);
      var j := 0;
      while j < stepSize
        invariant stepSize == old(stepSize) && 0 <= j <= Advances(stepSize)
        invariant OnElement(State()) && State() == AdvanceBy(start, j)
      {
        AdvanceCursor();
        j := j + 1;
      }
      assert j == Advances(stepSize);
      ghost var m := State();
      buffer := InsertAfter(buffer, cursor, count);
      AdvanceCursor();
      assert State() == Advance(Lock(InsertAfter(m.buffer, m.cursor, m.count), m.cursor, m.count));
      InsertSteps(old(State()), stepSize);
    }

    /** insertN(n), without the progress printing. */
    method InsertN(n: int)
      requires OnElement(State())
      modifies this
      ensures stepSize == old(stepSize)
      ensures State() == InsertTimes(old(State()), stepSize, if n > 0 then n else 0)
    {
      ghost var start := State();
      var j := 1;
      while j <= n
        invariant stepSize == old(stepSize) && 1 <= j && (j <= n + 1 || j == 1)
        invariant OnElement(State()) && State() == InsertTimes(start, stepSize, j - 1)
      {
        Insert();
        j := j + 1;
      }
    }

    /** cursorOf(desired): the index of the first element holding it, or None (Go's nil). */
    method CursorOf(desired: int) returns (r: Option<nat>)
      ensures r == Find(buffer, desired)
    {
      var k := 0;
      while k < |buffer|
        invariant 0 <= k <= |buffer|
        invariant Find(buffer, desired) == FindFrom(buffer, desired, k)
      {
        if buffer[k] == desired {
          return Some(k);
        }
        k := k + 1;
      }
      return None;
    }

    /** toSlice: the values front to back. */
    method ToSlice() returns (r: seq<int>)
      ensures |r| == |buffer| && forall k :: 0 <= k < |r| ==> r[k] == buffer[k]
    {
      var values := new int[|buffer|];
      for j := 0 to |buffer|
        invariant values[..j] == buffer[..j]
      {
        values[j] := buffer[j];
      }
      r := values[..];
    }
  }

  // ---------------------------------------------------------------------------
  // The example: step size 3

  // The nine inserts the test steps through with step size 3, each from the
  // state the test saw before it. The first starts from NewSpinLock(3).

  lemma ExampleInsert1()
    ensures Inserted(Lock([0], 0, 0), 3) == Lock([0, 1], 1, 1)
  {
  }

  lemma ExampleInsert2()
    ensures Inserted(Lock([0, 1], 1, 1), 3) == Lock([0, 2, 1], 1, 2)
  {
  }

  lemma ExampleInsert3()
    ensures Inserted(Lock([0, 2, 1], 1, 2), 3) == Lock([0, 2, 3, 1], 2, 3)
  {
  }

  lemma ExampleInsert4()
    ensures Inserted(Lock([0, 2, 3, 1], 2, 3), 3) == Lock([0, 2, 4, 3, 1], 2, 4)
  {
  }

  lemma ExampleInsert5()
    ensures Inserted(Lock([0, 2, 4, 3, 1], 2, 4), 3) == Lock([0, 5, 2, 4, 3, 1], 1, 5)
  {
  }

  lemma ExampleInsert6()
    ensures Inserted(Lock([0, 5, 2, 4, 3, 1], 1, 5), 3) == Lock([0, 5, 2, 4, 3, 6, 1], 5, 6)
  {
  }

  lemma ExampleInsert7()
    ensures Inserted(Lock([0, 5, 2, 4, 3, 6, 1], 5, 6), 3) == Lock([0, 5, 7, 2, 4, 3, 6, 1], 2, 7)
  {
  }

  lemma ExampleInsert8()
    ensures Inserted(Lock([0, 5, 7, 2, 4, 3, 6, 1], 2, 7), 3) == Lock([0, 5, 7, 2, 4, 3, 8, 6, 1], 6, 8)
  {
  }

  lemma ExampleInsert9()
    ensures Inserted(Lock([0, 5, 7, 2, 4, 3, 8, 6, 1], 6, 8), 3) == Lock([0, 9, 5, 7, 2, 4, 3, 8, 6, 1], 1, 9)
  {
  }

  /** After the ninth insert the value after the cursor is 5. */
  lemma ExampleAfterCursor()
    ensures AfterCursor(Lock([0, 9, 5, 7, 2, 4, 3, 8, 6, 1], 1, 9)) == 5
  {
  }

  /** cursorOf after those nine inserts finds 4, 0 and 1. */
  lemma ExampleCursorOf()
    ensures Find([0, 9, 5, 7, 2, 4, 3, 8, 6, 1], 4) == Some(5)
    ensures Find([0, 9, 5, 7, 2, 4, 3, 8, 6, 1], 0) == Some(0)
    ensures Find([0, 9, 5, 7, 2, 4, 3, 8, 6, 1], 1) == Some(9)
  {
  }
}
