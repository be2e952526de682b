// The circular digit captcha of day 1: sum the digits that equal their partner
// digit, where the partner is the next digit (solution 1) or the digit half the
// list ahead (solution 2), wrapping around the end of the list.
module Captcha {
  import opened Common

  /** Ruby's `to_i` on a one-character string: the digit, or 0 for anything else. */
  function DigitValue(c: char): (d: int)
    ensures 0 <= d <= 9
    ensures '0' <= c <= '9' <==> d == c as int - '0' as int
    ensures !('0' <= c <= '9') ==> d == 0
  {
    if '0' <= c <= '9' then c as int - '0' as int else 0
  }

  /** The solver's input: one number per character of the text. */
  function Digits(text: string): (ds: seq<int>)
    ensures |ds| == |text|
    ensures forall i :: 0 <= i < |text| ==> ds[i] == DigitValue(text[i])
  {
    seq(|text|, i requires 0 <= i < |text| => DigitValue(text[i]))
  }

  predicate AreDigits(ds: seq<int>)
  {
    forall i :: 0 <= i < |ds| ==> 0 <= ds[i] <= 9
  }

  /** The block handed to `solve_with`: which index a place is compared with. */
  datatype IndexRule = NextIndex | JumpIndex

  /** `next_index_for` and `jump_index_for`, for a list of length `n`. */
  function PartnerIndex(rule: IndexRule, n: int, index: int): (j: int)
    requires 0 <= index < n
    ensures 0 <= j < n
    ensures rule == NextIndex ==> (j == index + 1 || (index == n - 1 && j == 0))
    ensures rule == JumpIndex ==> (j == index + n / 2 || j == index + n / 2 - n)
  {
    var next := if rule == NextIndex then index + 1 else index + n / 2;
    WrapOnce(next, n);
    next % n
  }

  /** A value below 2n is reduced mod n by at most one subtraction. */
  lemma WrapOnce(x: int, n: int)
    requires 0 <= x < 2 * n
    ensures x % n == (if x < n then x else x - n)
  {
    if x < n {
      ModUnique(x, n, 0, x);
    } else {
      ModUnique(x, n, 1, x - n);
    }
  }

  /** What place `i` adds to the sum: its digit when it equals its partner's. */
  function Contribution(ds: seq<int>, rule: IndexRule, i: int): int
    requires 0 <= i < |ds|
  {
    if ds[i] == ds[PartnerIndex(rule, |ds|, i)] then ds[i] else 0
  }

  /** The contributions of the places lo, ..., hi - 1. */
  function Matches(ds: seq<int>, rule: IndexRule, lo: int, hi: int): int
    requires 0 <= lo && hi <= |ds|
    decreases hi - lo
  {
    if hi <= lo then 0 else Matches(ds, rule, lo, hi - 1) + Contribution(ds, rule, hi - 1)
  }

  /** What `solve_with` returns for the whole list. */
  function Solution(ds: seq<int>, rule: IndexRule): int
  {
    Matches(ds, rule, 0, |ds|)
  }

  /** The solver object; its input never changes after construction. */
  class CaptchaSolver {
    const input: seq<int>

    constructor (text: string)
      ensures input == Digits(text)
    {
      input := Digits(text);
    }

    method Solution1() returns (sum: int)
      ensures sum == Solution(input, NextIndex)
    {
      sum := SolveWith(NextIndex);
    }

    method Solution2() returns (sum: int)
      ensures sum == Solution(input, JumpIndex)
    {
      sum := SolveWith(JumpIndex);
    }

    /** The `each_with_index` loop accumulating matching digits. */
    method SolveWith(rule: IndexRule) returns (sum: int)
      ensures sum == Solution(input, rule)
    {
      sum := 0;
      var place := 0;
      while place < |input|
        invariant 0 <= place <= |input|
        invariant sum == Matches(input, rule, 0, place)
      {
        var number := input[place];
        var following := input[PartnerIndex(rule, |input|, place)];
        if number == following {
          sum := sum + number;
        }
        place := place + 1;
      }
    }
  }

  /** Every place contributes between 0 and its own digit. */
  lemma {:induction false} MatchesBounds(ds: seq<int>, rule: IndexRule, lo: int, hi: int)
    requires AreDigits(ds)
    requires 0 <= lo <= hi <= |ds|
    ensures 0 <= Matches(ds, rule, lo, hi) <= Sum(ds[lo..hi])
    decreases hi - lo
  {
    if hi > lo {
      MatchesBounds(ds, rule, lo, hi - 1);
      assert ds[lo..hi] == ds[lo..hi - 1] + [ds[hi - 1]];
      SumAppend(ds[lo..hi - 1], [ds[hi - 1]]);
      assert Sum([ds[hi - 1]]) == ds[hi - 1];
    } else {
      assert ds[lo..hi] == [];
    }
  }

  /** Both solutions lie between 0 and the sum of all digits, and the empty input gives 0. */
  lemma SolutionBounds(ds: seq<int>, rule: IndexRule)
    requires AreDigits(ds)
    ensures 0 <= Solution(ds, rule) <= Sum(ds)
    ensures ds == [] ==> Solution(ds, rule) == 0
  {
    MatchesBounds(ds, rule, 0, |ds|);
    assert ds[0..|ds|] == ds;
  }

  lemma {:induction false} MatchesSplit(ds: seq<int>, rule: IndexRule, lo: int, mid: int, hi: int)
    requires 0 <= lo <= mid <= hi <= |ds|
    ensures Matches(ds, rule, lo, hi) == Matches(ds, rule, lo, mid) + Matches(ds, rule, mid, hi)
    decreases hi - mid
  {
    if hi > mid {
      MatchesSplit(ds, rule, lo, mid, hi - 1);
    }
  }

  /** With an even length, places i and i + n/2 are each other's partners. */
  lemma {:induction false} HalvesAgree(ds: seq<int>, k: int)
    requires |ds| % 2 == 0
    requires 0 <= k <= |ds| / 2
    ensures Matches(ds, JumpIndex, |ds| / 2, |ds| / 2 + k) == Matches(ds, JumpIndex, 0, k)
    decreases k
  {
    if k > 0 {
      HalvesAgree(ds, k - 1);
      var h := |ds| / 2;
      assert PartnerIndex(JumpIndex, |ds|, k - 1) == h + k - 1;
      assert PartnerIndex(JumpIndex, |ds|, h + k - 1) == k - 1;
    }
  }

  /**
   * Solution 2 on an even-length list counts every matching pair twice: it is
   * double the matches found in the first half alone.
   */
  lemma Solution2Doubles(ds: seq<int>)
    requires |ds| % 2 == 0
    ensures Solution(ds, JumpIndex) == 2 * Matches(ds, JumpIndex, 0, |ds| / 2)
  {
    MatchesSplit(ds, JumpIndex, 0, |ds| / 2, |ds|);
    HalvesAgree(ds, |ds| / 2);
  }

  // The examples the solver is checked against.

  lemma ExampleSolution1Sums()
    ensures Solution(Digits("1122"), NextIndex) == 3
  {
    assert Digits("1122") == [1, 1, 2, 2];
    assert Matches([1, 1, 2, 2], NextIndex, 0, 4) == 3;
  }

  lemma ExampleSolution1AllSame()
    ensures Solution(Digits("1111"), NextIndex) == 4
  {
    assert Digits("1111") == [1, 1, 1, 1];
    assert Matches([1, 1, 1, 1], NextIndex, 0, 4) == 4;
  }

  lemma ExampleSolution1NoMatch()
    ensures Solution(Digits("1234"), NextIndex) == 0
  {
    assert Digits("1234") == [1, 2, 3, 4];
    assert Matches([1, 2, 3, 4], NextIndex, 0, 4) == 0;
  }

  lemma ExampleSolution1WrapsAround()
    ensures Solution(Digits("91212129"), NextIndex) == 9
  {
    assert Digits("91212129") == [9, 1, 2, 1, 2, 1, 2, 9];
    assert Matches([9, 1, 2, 1, 2, 1, 2, 9], NextIndex, 0, 8) == 9;
  }

  lemma ExampleSolution2Sums()
    ensures Solution(Digits("1212"), JumpIndex) == 6
  {
    assert Digits("1212") == [1, 2, 1, 2];
    assert Matches([1, 2, 1, 2], JumpIndex, 0, 4) == 6;
  }

  lemma ExampleSolution2NoMatch()
    ensures Solution(Digits("1221"), JumpIndex) == 0
  {
    assert Digits("1221") == [1, 2, 2, 1];
    assert Matches([1, 2, 2, 1], JumpIndex, 0, 4) == 0;
  }

  lemma ExampleSolution2OnePair()
    ensures Solution(Digits("123425"), JumpIndex) == 4
  {
    assert Digits("123425") == [1, 2, 3, 4, 2, 5];
    assert Matches([1, 2, 3, 4, 2, 5], JumpIndex, 0, 6) == 4;
  }

  lemma ExampleSolution2AllMatch()
    ensures Solution(Digits("123123"), JumpIndex) == 12
  {
    assert Digits("123123") == [1, 2, 3, 1, 2, 3];
    assert Matches([1, 2, 3, 1, 2, 3], JumpIndex, 0, 6) == 12;
  }

  lemma ExampleSolution2Ones()
    ensures Solution(Digits("12131415"), JumpIndex) == 4
  {
    assert Digits("12131415") == [1, 2, 1, 3, 1, 4, 1, 5];
    assert Matches([1, 2, 1, 3, 1, 4, 1, 5], JumpIndex, 0, 8) == 4;
  }
}
