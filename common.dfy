// Small value types shared by every puzzle module.
module Common {

  /** An optional value, for Go's nil results and Ruby's nil. */
  datatype Option<T> = None | Some(value: T)

  /** The outcome of an operation that the program aborts with a panic or a raise. */
  datatype Result<T> = Ok(value: T) | Err(reason: string)

  /** Sum of a sequence of integers. */
  function Sum(s: seq<int>): int
  {
    if s == [] then 0 else Sum(s[..|s| - 1]) + s[|s| - 1]
  }

  lemma {:induction false} SumAppend(s: seq<int>, t: seq<int>)
    ensures Sum(s + t) == Sum(s) + Sum(t)
    decreases |t|
  {
    if t == [] {
      assert s + t == s;
    } else {
      assert (s + t)[..|s + t| - 1] == s + t[..|t| - 1];
      SumAppend(s, t[..|t| - 1]);
    }
  }

  /** Replacing one element changes the sum by the difference. */
  lemma {:induction false} SumUpdate(s: seq<int>, i: nat, v: int)
    requires i < |s|
    ensures Sum(s[i := v]) == Sum(s) - s[i] + v
    decreases |s|
  {
    var last := |s| - 1;
    assert s[i := v][..last] == if i == last then s[..last] else s[..last][i := v];
    if i < last {
      SumUpdate(s[..last], i, v);
    }
  }

  /** A non-empty sequence is its prefix followed by its last element. */
  lemma PrefixLast<T>(s: seq<T>)
    requires s != []
    ensures s[..|s| - 1] + [s[|s| - 1]] == s
  {
  }

  /** A subset is no larger than its superset. */
  lemma SubsetCard<T>(a: set<T>, b: set<T>)
    requires a <= b
    ensures |a| <= |b|
  {
    assert b == a + (b - a);
  }

  lemma NonEmptyHasMember<T>(s: set<T>)
    requires s != {}
    ensures exists x :: x in s
  {
    if forall x :: x !in s {
      assert false;
    }
  }

  /** A member of a non-empty set, to witness a `:|` choice. */
  lemma SomeMember<T>(s: set<T>) returns (x: T)
    requires s != {}
    ensures x in s
  {
    NonEmptyHasMember(s);
    x :| x in s;
  }

  function Abs(a: int): nat
  {
    if a < 0 then -a else a
  }

  /**
   * Go's `%`: the remainder of division truncated toward zero, which takes the
   * sign of the dividend and ignores the divisor's. It is a's class modulo the
   * divisor, nearer to zero than the divisor.
   */
  function GoRem(a: int, b: int): (r: int)
    requires b != 0
    ensures Abs(r) < Abs(b)
    ensures a >= 0 ==> 0 <= r
    ensures a <= 0 ==> r <= 0
    ensures (a - r) % Abs(b) == 0
  {
    GoRemCongruent(a, Abs(b));
    TruncatedRem(a, Abs(b))
  }

  /** The remainder of a by m > 0, truncated toward zero. */
  function TruncatedRem(a: int, m: int): int
    requires m > 0
  {
    if a < 0 then -((-a) % m) else a % m
  }

  lemma GoRemCongruent(a: int, m: int)
    requires m > 0
    ensures var r := TruncatedRem(a, m);
            -m < r < m && (a >= 0 ==> 0 <= r) && (a <= 0 ==> r <= 0) && (a - r) % m == 0
  {
    if a >= 0 {
      var q, r := a / m, a % m;
      assert a - r == q * m;
      ModUnique(a - r, m, q, 0);
    } else {
      var b := -a;
      var q, r := b / m, b % m;
      assert b == q * m + r;
      assert a + r == (-q) * m;
      ModUnique(a + r, m, -q, 0);
    }
  }

  /** (x mod n + 1) mod n is (x + 1) mod n. */
  lemma ModSucc(x: nat, n: nat)
    requires n > 0
    ensures (x % n + 1) % n == (x + 1) % n
  {
    var q, r := x / n, x % n;
    if r + 1 < n {
      ModUnique(x + 1, n, q, r + 1);
      ModUnique(r + 1, n, 0, r + 1);
    } else {
      ModUnique(x + 1, n, q + 1, 0);
      ModUnique(r + 1, n, 1, 0);
    }
  }

  /** The remainder is the one r in [0, n) with x = q n + r. */
  lemma ModUnique(x: int, n: int, q: int, r: int)
    requires n > 0 && 0 <= r < n && x == q * n + r
    ensures x % n == r
  {
    var q', r' := x / n, x % n;
    assert (q - q') * n == r' - r;
    if q > q' {
      MulAtLeast(q - q', n);
    } else if q < q' {
      MulAtLeast(q' - q, n);
    }
  }

  lemma MulAtLeast(a: int, n: int)
    requires a >= 1 && n > 0
    ensures a * n >= n
  {
  }
}
