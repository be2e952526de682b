// The memory reallocation of day 6: the fullest bank is emptied and its blocks
// dealt one at a time to the following banks, wrapping around; debug counts the
// reallocations until a configuration repeats.
module MemoryBanks {
  import opened Common
  import opened Text

  // ---------------------------------------------------------------------------
  // findIndexOfLargest

  /**
   * The first index holding the largest value, where the scan only takes a
   * value above -1: so -1 when every value is negative (or there is none).
   */
  function IndexOfLargest(s: seq<int>): (r: int)
    ensures -1 <= r < |s|
    ensures r != -1 ==> s[r] >= 0
  {
    if s == [] then -1
    else
      var r := IndexOfLargest(s[..|s| - 1]);
      var best := if r == -1 then -1 else s[r];
      if s[|s| - 1] > best then |s| - 1 else r
  }

  /**
   * IndexOfLargest is -1 exactly when no value is at least 0; otherwise it is
   * the first index of the maximum, so ties go to the lower index.
   */
  lemma {:induction false} IndexOfLargestIsFirstMax(s: seq<int>)
    ensures var r := IndexOfLargest(s);
            && (r == -1 <==> forall i :: 0 <= i < |s| ==> s[i] < 0)
            && (r != -1 ==> forall i :: 0 <= i < |s| ==> s[i] <= s[r])
            && (r != -1 ==> forall i :: 0 <= i < r ==> s[i] < s[r])
    decreases |s|
  {
    if s != [] {
      var front := s[..|s| - 1];
      IndexOfLargestIsFirstMax(front);
      assert forall i :: 0 <= i < |front| ==> front[i] == s[i];
    }
  }

  method FindIndexOfLargest(intSlice: seq<int>) returns (jlargest: int)
    ensures jlargest == IndexOfLargest(intSlice)
  {
    jlargest := -1;
    var max := -1;
    var j := 0;
    while j < |intSlice|
      invariant 0 <= j <= |intSlice|
      invariant jlargest == IndexOfLargest(intSlice[..j])
      invariant max == if jlargest == -1 then -1 else intSlice[jlargest]
    {
      assert intSlice[..j + 1][..j] == intSlice[..j];
      if intSlice[j] > max {
        jlargest := j;
        max := intSlice[j];
      }
      j := j + 1;
    }
    assert intSlice[..j] == intSlice;
  }

  // ---------------------------------------------------------------------------
  // tick

  /** Banks that can be rebalanced: some bank is found as the largest. */
  predicate CanTick(s: seq<int>)
  {
    IndexOfLargest(s) != -1
  }

  /** Deal `blocks` blocks one per bank from index j on; j == |s| wraps to 0. */
  function Deal(s: seq<int>, j: nat, blocks: nat): (r: seq<int>)
    requires 0 < |s| && j <= |s|
    ensures |r| == |s|
    decreases blocks
  {
    if blocks == 0 then s
    else
      var p := if j >= |s| then 0 else j;
      Deal(s[p := s[p] + 1], p + 1, blocks - 1)
  }

  /** tick: empty the largest bank and deal its blocks from the next index on. */
  function Reallocate(s: seq<int>): (r: seq<int>)
    requires CanTick(s)
    ensures |r| == |s|
  {
    var i := IndexOfLargest(s);
    Deal(s[i := 0], i + 1, s[i])
  }

  /** Where the dealing from j starts: index j, or 0 when j is one past the end. */
  function Start(n: nat, j: nat): nat
  {
    if j >= n then 0 else j
  }

  /** How many banks after p bank k lies, going round the circle. */
  function Dist(n: nat, p: nat, k: nat): nat
    requires p < n && k < n
  {
    if k >= p then k - p else k + n - p
  }

  lemma MulGap(n: int, a: int, b: int)
    requires n > 0 && a > b
    ensures n * a >= n * b + n
  {
    assert n * a - n * b == n * (a - b);
    assert n * (a - b) == n + n * (a - b - 1);
  }

  lemma DivModUnique(x: int, n: int, q: int, r: int)
    requires n > 0 && 0 <= r < n && x == n * q + r
    ensures x / n == q && x % n == r
  {
    var q', r' := x / n, x % n;
    assert x == n * q' + r';
    if q > q' {
      MulGap(n, q, q');
      assert false;
    } else if q < q' {
      MulGap(n, q', q);
      assert false;
    }
  }

  /** Dealing one more block moves the remainder on by one, or completes a round. */
  lemma DivModSucc(b: nat, n: nat)
    requires n > 0 && b >= 1
    ensures (b - 1) % n + 1 < n ==> b / n == (b - 1) / n && b % n == (b - 1) % n + 1
    ensures (b - 1) % n + 1 == n ==> b / n == (b - 1) / n + 1 && b % n == 0
  {
    var q, r := (b - 1) / n, (b - 1) % n;
    if r + 1 < n {
      DivModUnique(b, n, q, r + 1);
    } else {
      DivModUnique(b, n, q + 1, 0);
    }
  }

  /**
   * What dealing leaves in bank k: every bank gets blocks / n, and the
   * blocks % n banks nearest after the start get one more.
   */
  lemma {:induction false} DealAt(s: seq<int>, j: nat, blocks: nat, k: nat)
    requires 0 < |s| && j <= |s| && k < |s|
    ensures var n := |s|;
            Deal(s, j, blocks)[k] ==
              s[k] + blocks / n + (if Dist(n, Start(n, j), k) < blocks % n then 1 else 0)
    decreases blocks
  {
    var n := |s|;
    if blocks > 0 {
      var p := Start(n, j);
      var t := s[p := s[p] + 1];
      DealAt(t, p + 1, blocks - 1, k);
      DivModSucc(blocks, n);
      var next := Start(n, p + 1);
      assert k == p ==> Dist(n, next, k) == n - 1;
      assert k != p ==> Dist(n, next, k) == Dist(n, p, k) - 1;
    }
  }

  /** Dealing adds exactly the dealt blocks to the total. */
  lemma {:induction false} DealSum(s: seq<int>, j: nat, blocks: nat)
    requires 0 < |s| && j <= |s|
    ensures Sum(Deal(s, j, blocks)) == Sum(s) + blocks
    decreases blocks
  {
    if blocks > 0 {
      var p := Start(|s|, j);
      SumUpdate(s, p, s[p] + 1);
      DealSum(s[p := s[p] + 1], p + 1, blocks - 1);
    }
  }

  /** tick keeps the total number of blocks. */
  lemma ReallocateKeepsTotal(s: seq<int>)
    requires CanTick(s)
    ensures Sum(Reallocate(s)) == Sum(s)
  {
    var i := IndexOfLargest(s);
    SumUpdate(s, i, 0);
    DealSum(s[i := 0], i + 1, s[i]);
  }

  lemma ReallocateDeals(s: seq<int>)
    requires CanTick(s)
    ensures Reallocate(s) == Deal(s[IndexOfLargest(s) := 0], IndexOfLargest(s) + 1, s[IndexOfLargest(s)])
  {
  }

  /**
   * tick in closed form: the largest bank i is emptied; with b its blocks and
   * n banks, every bank gains b / n and the b % n banks after i gain one more.
   */
  lemma ReallocateAt(s: seq<int>, k: nat, i: int, rounds: int, extra: int)
    requires CanTick(s) && k < |s| && i == IndexOfLargest(s)
    requires rounds == s[i] / |s| && extra == s[i] % |s|
    ensures Reallocate(s)[k] == (if k == i then 0 else s[k]) + rounds
                                + (if Dist(|s|, Start(|s|, i + 1), k) < extra then 1 else 0)
  {
    ReallocateDeals(s);
    DealAt(s[i := 0], i + 1, s[i], k);
  }

  // ---------------------------------------------------------------------------
  // Valid configurations and the finite space they live in

  /** Non-empty, with no negative bank: what debug is run on. */
  predicate Valid(s: seq<int>)
  {
    |s| > 0 && forall i :: 0 <= i < |s| ==> s[i] >= 0
  }

  /** Dealing never takes a block away from any bank. */
  lemma {:induction false} DealGrows(s: seq<int>, j: nat, blocks: nat, k: nat)
    requires 0 < |s| && j <= |s| && k < |s|
    ensures Deal(s, j, blocks)[k] >= s[k]
    decreases blocks
  {
    if blocks > 0 {
      var p := Start(|s|, j);
      DealGrows(s[p := s[p] + 1], p + 1, blocks - 1, k);
    }
  }

  lemma ReallocateKeepsValid(s: seq<int>)
    requires Valid(s)
    ensures CanTick(s) && Valid(Reallocate(s))
  {
    IndexOfLargestIsFirstMax(s);
    assert s[0] >= 0;
    var i := IndexOfLargest(s);
    var r := Reallocate(s);
    forall k | 0 <= k < |r|
      ensures r[k] >= 0
    {
      DealGrows(s[i := 0], i + 1, s[i], k);
    }
  }

  /** The state after k ticks. */
  function Iter(s: seq<int>, k: nat): (r: seq<int>)
    requires Valid(s)
    ensures Valid(r) && |r| == |s|
  {
    if k == 0 then s
    else
      var prev := Iter(s, k - 1);
      ReallocateKeepsValid(prev);
      Reallocate(prev)
  }

  lemma {:induction false} IterKeepsTotal(s: seq<int>, k: nat)
    requires Valid(s)
    ensures Sum(Iter(s, k)) == Sum(s)
  {
    if k > 0 {
      IterKeepsTotal(s, k - 1);
      ReallocateKeepsValid(Iter(s, k - 1));
      ReallocateKeepsTotal(Iter(s, k - 1));
    }
  }

  /** Every sequence of n values in 0..bound. */
  function AllStates(n: nat, bound: nat): set<seq<int>>
  {
    if n == 0 then {[]}
    else set s, v | s in AllStates(n - 1, bound) && 0 <= v <= bound :: s + [v]
  }

  lemma {:induction false} InAllStates(s: seq<int>, bound: nat)
    requires forall i :: 0 <= i < |s| ==> 0 <= s[i] <= bound
    ensures s in AllStates(|s|, bound)
    decreases |s|
  {
    if s != [] {
      var front := s[..|s| - 1];
      InAllStates(front, bound);
      assert s == front + [s[|s| - 1]];
    }
  }

  lemma {:induction false} AtMostSum(s: seq<int>, i: nat)
    requires i < |s| && forall k :: 0 <= k < |s| ==> s[k] >= 0
    ensures s[i] <= Sum(s)
    decreases |s|
  {
    var front := s[..|s| - 1];
    assert forall k :: 0 <= k < |front| ==> front[k] == s[k];
    if i < |s| - 1 {
      AtMostSum(front, i);
    }
    NonNegativeSum(front);
  }

  lemma {:induction false} NonNegativeSum(s: seq<int>)
    requires forall k :: 0 <= k < |s| ==> s[k] >= 0
    ensures Sum(s) >= 0
    decreases |s|
  {
    if s != [] {
      var front := s[..|s| - 1];
      assert forall k :: 0 <= k < |front| ==> front[k] == s[k];
      NonNegativeSum(front);
    }
  }

  /** Every state debug reaches lies in one finite set. */
  lemma IterInSpace(s: seq<int>, k: nat)
    requires Valid(s)
    ensures Sum(s) >= 0
    ensures Iter(s, k) in AllStates(|s|, Sum(s))
  {
    NonNegativeSum(s);
    var t := Iter(s, k);
    IterKeepsTotal(s, k);
    forall i | 0 <= i < |t|
      ensures 0 <= t[i] <= Sum(s)
    {
      AtMostSum(t, i);
    }
    InAllStates(t, Sum(s));
  }

  // ---------------------------------------------------------------------------
  // makeKeyFrom

  /** The values as decimals joined with commas (strings.Join of no parts is ""). */
  function Key(s: seq<int>): string
  {
    if s == [] then "" else Join(seq(|s|, i requires 0 <= i < |s| => Itoa(s[i])), ',')
  }

  method MakeKeyFrom(intSlice: seq<int>) returns (key: string)
    ensures key == Key(intSlice)
  {
    var pieces: seq<string> := [];
    var j := 0;
    while j < |intSlice|
      invariant 0 <= j <= |intSlice|
      invariant pieces == seq(j, i requires 0 <= i < j => Itoa(intSlice[i]))
    {
      pieces := pieces + [Itoa(intSlice[j])];
      j := j + 1;
    }
    if pieces == [] {
      key := "";
    } else {
      key := Join(pieces, ',');
    }
  }

  lemma ItoaNoComma(n: int)
    ensures ',' !in Itoa(n) && |Itoa(n)| > 0
  {
    var digits := NatToString(if n < 0 then -n else n);
    assert forall i :: 0 <= i < |digits| ==> IsDigit(digits[i]);
    if n < 0 {
      assert Itoa(n) == "-" + digits;
    }
  }

  lemma JoinNonEmpty(parts: seq<string>, sep: char)
    requires |parts| >= 1 && |parts[0]| > 0
    ensures |Join(parts, sep)| > 0
  {
  }

  /** Different configurations get different keys, so the cache recognises a state exactly. */
  lemma KeyInjective(a: seq<int>, b: seq<int>)
    requires Key(a) == Key(b)
    ensures a == b
  {
    var pa := seq(|a|, i requires 0 <= i < |a| => Itoa(a[i]));
    var pb := seq(|b|, i requires 0 <= i < |b| => Itoa(b[i]));
    forall i | 0 <= i < |a| ensures ',' !in pa[i] && |pa[i]| > 0 { ItoaNoComma(a[i]); }
    forall i | 0 <= i < |b| ensures ',' !in pb[i] && |pb[i]| > 0 { ItoaNoComma(b[i]); }
    if a != [] && b != [] {
      JoinInjective(pa, pb, ',');
      forall i | 0 <= i < |a|
        ensures a[i] == b[i]
      {
        assert pa[i] == pb[i];
        ItoaInjective(a[i], b[i]);
      }
    } else if a != [] {
      JoinNonEmpty(pa, ',');
    } else if b != [] {
      JoinNonEmpty(pb, ',');
    }
  }

  // ---------------------------------------------------------------------------
  // debug

  /**
   * k is the first tick count whose state was already seen after some earlier
   * tick (the starting state itself is never compared).
   */
  ghost predicate IsFirstRepeat(s: seq<int>, k: nat)
    requires Valid(s)
  {
    (exists j :: 1 <= j < k && Iter(s, j) == Iter(s, k))
    && forall i, j :: 1 <= i < j < k ==> Iter(s, i) != Iter(s, j)
  }

  /** The states after ticks 1..k, which debug has cached by key. */
  ghost function Seen(s: seq<int>, k: nat): set<seq<int>>
    requires Valid(s)
  {
    set i | 1 <= i <= k :: Iter(s, i)
  }

  ghost function Keys(states: set<seq<int>>): set<string>
  {
    set t | t in states :: Key(t)
  }

  ghost predicate Distinct(s: seq<int>, k: nat)
    requires Valid(s)
  {
    forall i, j :: 1 <= i < j <= k ==> Iter(s, i) != Iter(s, j)
  }

  /** A key already cached means the state after tick k was seen before: k is the first repeat. */
  lemma RepeatFound(s: seq<int>, k: nat)
    requires Valid(s) && k >= 1 && Distinct(s, k - 1)
    requires Key(Iter(s, k)) in Keys(Seen(s, k - 1))
    ensures IsFirstRepeat(s, k)
  {
    var t :| t in Seen(s, k - 1) && Key(t) == Key(Iter(s, k));
    KeyInjective(t, Iter(s, k));
    var j :| 1 <= j <= k - 1 && Iter(s, j) == t;
  }

  /** A key not cached yet means a new state, so the states stay distinct. */
  lemma NewState(s: seq<int>, k: nat)
    requires Valid(s) && k >= 1 && Distinct(s, k - 1)
    requires Key(Iter(s, k)) !in Keys(Seen(s, k - 1))
    ensures Distinct(s, k)
    ensures Seen(s, k) == Seen(s, k - 1) + {Iter(s, k)}
    ensures Keys(Seen(s, k)) == Keys(Seen(s, k - 1)) + {Key(Iter(s, k))}
  {
    var x := Iter(s, k);
    assert x !in Seen(s, k - 1);
    forall i | 1 <= i < k
      ensures Iter(s, i) != x
    {
      assert Iter(s, i) in Seen(s, k - 1);
    }
    SeenStep(s, k);
    KeysAdd(Seen(s, k - 1), x);
  }

  lemma SeenStep(s: seq<int>, k: nat)
    requires Valid(s) && k >= 1
    ensures Seen(s, k) == Seen(s, k - 1) + {Iter(s, k)}
  {
  }

  lemma KeysAdd(states: set<seq<int>>, x: seq<int>)
    ensures Keys(states + {x}) == Keys(states) + {Key(x)}
  {
  }

  /** So debug's answer is determined by the starting state. */
  lemma FirstRepeatUnique(s: seq<int>, k: nat, m: nat)
    requires Valid(s) && IsFirstRepeat(s, k) && IsFirstRepeat(s, m)
    ensures k == m
  {
    if k < m {
      assert false;
    } else if m < k {
      assert false;
    }
  }

  /** The banks as strings.Fields reads them, each field through strconv.Atoi (0 when not a number). */
  function ParseBanks(decl: string): (banks: seq<int>)
    ensures |banks| == |Fields(decl)|
  {
    var fields := Fields(decl);
    seq(|fields|, i requires 0 <= i < |fields| => AtoiOrZero(fields[i]))
  }

  class MemoryBankSet {
    var banks: array<int>

    /** NewMemoryBankSet. */
    constructor (banksDecl: string)
      ensures banks[..] == ParseBanks(banksDecl) && fresh(banks)
    {
      var banksList := Fields(banksDecl);
      var a := new int[|banksList|];
      var j := 0;
      while j < |banksList|
        invariant 0 <= j <= |banksList|
        invariant forall i :: 0 <= i < j ==> a[i] == AtoiOrZero(banksList[i])
      {
        a[j] := AtoiOrZero(banksList[j]);
        j := j + 1;
      }
      banks := a;
    }

    method Tick()
      requires CanTick(banks[..])
      modifies banks
      ensures banks[..] == Reallocate(old(banks[..]))
    {
      ghost var s := banks[..];
      var n := banks.Length;
      var jlargest := FindIndexOfLargest(banks[..]);
      var blocks := banks[jlargest];
      banks[jlargest] := 0;
      var j := jlargest + 1;
      while blocks > 0
        invariant 0 <= j <= n && blocks >= 0
        invariant Deal(banks[..], j, blocks) == Reallocate(s)
      {
        if j >= n {
          j := 0;
        }
        banks[j] := banks[j] + 1;
        blocks := blocks - 1;
        j := j + 1;
      }
    }

    /** debug: tick until a configuration seen after an earlier tick comes back. */
    method Debug() returns (steps: nat)
      requires Valid(banks[..])
      modifies banks
      ensures banks[..] == Iter(old(banks[..]), steps)
      ensures IsFirstRepeat(old(banks[..]), steps)
    {
      ghost var s := banks[..];
      NonNegativeSum(s);
      ghost var space := AllStates(|s|, Sum(s));
      var cache: set<string> := {};
      ghost var seen: set<seq<int>> := {};
      steps := 0;
      while true
        invariant banks[..] == Iter(s, steps)
        invariant seen == Seen(s, steps) && cache == Keys(seen)
        invariant seen <= space && Distinct(s, steps)
        decreases space - seen
      {
        ReallocateKeepsValid(banks[..]);
        Tick();
        steps := steps + 1;
        assert banks[..] == Iter(s, steps) by {
          assert Iter(s, steps) == Reallocate(Iter(s, steps - 1));
        }
        var key := MakeKeyFrom(banks[..]);
        if key in cache {
          RepeatFound(s, steps);
          return;
        }
        NewState(s, steps);
        IterInSpace(s, steps);
        cache := cache + {key};
        seen := seen + {banks[..]};
      }
    }
  }

  // ---------------------------------------------------------------------------
  // The example: 0 2 7 0

  /** A configuration equals the rebalanced one when it matches the closed form bank by bank. */
  lemma ReallocateIs(s: seq<int>, i: int, rounds: int, extra: int, expected: seq<int>)
    requires CanTick(s) && IndexOfLargest(s) == i && |expected| == |s|
    requires rounds == s[i] / |s| && extra == s[i] % |s|
    requires forall k :: 0 <= k < |s| ==>
               expected[k] == (if k == i then 0 else s[k]) + rounds
                              + (if Dist(|s|, Start(|s|, i + 1), k) < extra then 1 else 0)
    ensures Reallocate(s) == expected
  {
    var r := Reallocate(s);
    forall k | 0 <= k < |s|
      ensures r[k] == expected[k]
    {
      ReallocateAt(s, k, i, rounds, extra);
    }
  }

  /** The first index of a maximum that is at least 0 is what findIndexOfLargest finds. */
  lemma FirstMaxIsIndexOfLargest(s: seq<int>, i: nat)
    requires i < |s| && s[i] >= 0
    requires forall k :: 0 <= k < |s| ==> s[k] <= s[i]
    requires forall k :: 0 <= k < i ==> s[k] < s[i]
    ensures IndexOfLargest(s) == i
  {
    IndexOfLargestIsFirstMax(s);
  }

  lemma ExampleFind()
    ensures IndexOfLargest([1, 3, 5, 7, 3]) == 3
    ensures IndexOfLargest([1, 7, 5, 3, 3]) == 1
    ensures IndexOfLargest([1, 7, 5, 7, 3]) == 1
  {
    FirstMaxIsIndexOfLargest([1, 3, 5, 7, 3], 3);
    FirstMaxIsIndexOfLargest([1, 7, 5, 3, 3], 1);
    FirstMaxIsIndexOfLargest([1, 7, 5, 7, 3], 1);
  }

  /** 0 2 7 0 goes to 2 4 1 2, then 3 1 2 3, 0 2 3 4, 1 3 4 1 and back to 2 4 1 2. */
  lemma ExampleTick1()
    ensures CanTick([0, 2, 7, 0]) && Reallocate([0, 2, 7, 0]) == [2, 4, 1, 2]
  {
    FirstMaxIsIndexOfLargest([0, 2, 7, 0], 2);
    ReallocateIs([0, 2, 7, 0], 2, 1, 3, [2, 4, 1, 2]);
  }

  lemma ExampleTick2()
    ensures CanTick([2, 4, 1, 2]) && Reallocate([2, 4, 1, 2]) == [3, 1, 2, 3]
  {
    FirstMaxIsIndexOfLargest([2, 4, 1, 2], 1);
    ReallocateIs([2, 4, 1, 2], 1, 1, 0, [3, 1, 2, 3]);
  }

  lemma ExampleTick3()
    ensures CanTick([3, 1, 2, 3]) && Reallocate([3, 1, 2, 3]) == [0, 2, 3, 4]
  {
    FirstMaxIsIndexOfLargest([3, 1, 2, 3], 0);
    ReallocateIs([3, 1, 2, 3], 0, 0, 3, [0, 2, 3, 4]);
  }

  lemma ExampleTick4()
    ensures CanTick([0, 2, 3, 4]) && Reallocate([0, 2, 3, 4]) == [1, 3, 4, 1]
  {
    FirstMaxIsIndexOfLargest([0, 2, 3, 4], 3);
    ReallocateIs([0, 2, 3, 4], 3, 1, 0, [1, 3, 4, 1]);
  }

  lemma ExampleTick5()
    ensures CanTick([1, 3, 4, 1]) && Reallocate([1, 3, 4, 1]) == [2, 4, 1, 2]
  {
    FirstMaxIsIndexOfLargest([1, 3, 4, 1], 2);
    ReallocateIs([1, 3, 4, 1], 2, 1, 0, [2, 4, 1, 2]);
  }

  lemma IterStep(s: seq<int>, k: nat)
    requires Valid(s)
    ensures CanTick(Iter(s, k)) && Iter(s, k + 1) == Reallocate(Iter(s, k))
  {
    ReallocateKeepsValid(Iter(s, k));
  }

  /** A trace t of k ticks from s, each checked tick by tick, is exactly the iterates of s. */
  lemma {:induction false} TraceIsIter(s: seq<int>, t: seq<seq<int>>, k: nat)
    requires Valid(s) && |t| > k && t[0] == s
    requires forall i :: 0 <= i < k ==> CanTick(t[i]) && t[i + 1] == Reallocate(t[i])
    ensures forall i :: 0 <= i <= k ==> Iter(s, i) == t[i]
  {
    if k > 0 {
      TraceIsIter(s, t, k - 1);
      IterStep(s, k - 1);
    }
  }

  /** debug's answer read off a trace: the last state repeats an earlier one, the others are distinct. */
  lemma FirstRepeatOfTrace(s: seq<int>, t: seq<seq<int>>, k: nat)
    requires Valid(s) && |t| == k + 1
    requires forall i :: 0 <= i <= k ==> Iter(s, i) == t[i]
    requires exists j :: 1 <= j < k && t[j] == t[k]
    requires forall i, j :: 1 <= i < j < k ==> t[i] != t[j]
    ensures IsFirstRepeat(s, k)
  {
  }

  lemma FiveTicks(t: seq<seq<int>>, a: seq<int>, b: seq<int>, c: seq<int>, d: seq<int>, e: seq<int>, f: seq<int>)
    requires t == [a, b, c, d, e, f]
    requires CanTick(a) && b == Reallocate(a) && CanTick(b) && c == Reallocate(b)
    requires CanTick(c) && d == Reallocate(c) && CanTick(d) && e == Reallocate(d)
    requires CanTick(e) && f == Reallocate(e)
    ensures forall i :: 0 <= i < 5 ==> CanTick(t[i]) && t[i + 1] == Reallocate(t[i])
  {
  }

  lemma ExampleTrace(s: seq<int>, t: seq<seq<int>>)
    requires s == [0, 2, 7, 0]
    requires t == [s, [2, 4, 1, 2], [3, 1, 2, 3], [0, 2, 3, 4], [1, 3, 4, 1], [2, 4, 1, 2]]
    ensures forall i :: 0 <= i < 5 ==> CanTick(t[i]) && t[i + 1] == Reallocate(t[i])
  {
    ExampleTick1();
    ExampleTick2();
    ExampleTick3();
    ExampleTick4();
    ExampleTick5();
    FiveTicks(t, s, [2, 4, 1, 2], [3, 1, 2, 3], [0, 2, 3, 4], [1, 3, 4, 1], [2, 4, 1, 2]);
  }

  lemma ExampleTraceDistinct(t: seq<seq<int>>)
    requires t == [[0, 2, 7, 0], [2, 4, 1, 2], [3, 1, 2, 3], [0, 2, 3, 4], [1, 3, 4, 1], [2, 4, 1, 2]]
    ensures forall i, j :: 1 <= i < j < 5 ==> t[i] != t[j]
  {
    forall i, j | 1 <= i < j < 5
      ensures t[i] != t[j]
    {
      assert t[i][0] != t[j][0];
    }
  }

  /** debug on 0 2 7 0 answers 5: the state after tick 5 is the one after tick 1. */
  lemma ExampleDebug(s: seq<int>)
    requires s == [0, 2, 7, 0]
    ensures Valid(s) && IsFirstRepeat(s, 5)
  {
    var t := [s, [2, 4, 1, 2], [3, 1, 2, 3], [0, 2, 3, 4], [1, 3, 4, 1], [2, 4, 1, 2]];
    ExampleTrace(s, t);
    TraceIsIter(s, t, 5);
    ExampleTraceDistinct(t);
    assert t[1] == t[5];
    FirstRepeatOfTrace(s, t, 5);
  }

  lemma DigitStrings()
    ensures Itoa(1) == "1" && Itoa(3) == "3" && Itoa(5) == "5" && Itoa(7) == "7"
  {
  }

  lemma ExampleJoin(pieces: seq<string>)
    requires pieces == ["1", "3", "5", "7", "3"]
    ensures Join(pieces, ',') == "1,3,5,7,3"
  {
    assert Join(pieces[4..], ',') == "3";
    assert Join(pieces[3..], ',') == "7,3" by { assert pieces[3..][1..] == pieces[4..]; }
    assert Join(pieces[2..], ',') == "5,7,3" by { assert pieces[2..][1..] == pieces[3..]; }
    assert Join(pieces[1..], ',') == "3,5,7,3" by { assert pieces[1..][1..] == pieces[2..]; }
  }

  /** makeKeyFrom of 1 3 5 7 3 is "1,3,5,7,3". */
  lemma ExampleKey(s: seq<int>)
    requires s == [1, 3, 5, 7, 3]
    ensures Key(s) == "1,3,5,7,3"
  {
    var pieces := seq(|s|, i requires 0 <= i < |s| => Itoa(s[i]));
    DigitStrings();
    assert pieces == ["1", "3", "5", "7", "3"];
    ExampleJoin(pieces);
  }

}
