// The dueling generators of day 15: each generator multiplies its previous
// value by its factor and keeps the remainder by 2147483647; the judge counts
// the rounds in which the two generators' values agree in their low 16 bits.
module Generator {
  import opened Common

  const Modulus := 2147483647
  const Low16BitMask := 65535

  // ---------------------------------------------------------------------------
  // Go's integer operators (Go's `%` is Common.GoRem)

  function Pow2(k: nat): (p: nat)
    ensures p >= 1
  {
    if k == 0 then 1 else 2 * Pow2(k - 1)
  }

  const TwoTo64: nat := 0x1_0000_0000_0000_0000

  /** The bit pattern of a 64-bit two's complement integer, as an unsigned value. */
  function Unsigned64(a: int): nat
  {
    a % TwoTo64
  }

  /** Bitwise and of two unsigned values, one bit at a time from the least significant. */
  function BitAnd(a: nat, b: nat): (r: nat)
    ensures r <= a && r <= b
  {
    if a == 0 || b == 0 then 0
    else 2 * BitAnd(a / 2, b / 2) + (if a % 2 == 1 && b % 2 == 1 then 1 else 0)
  }

  /** Masking with 2^k - 1 keeps the remainder by 2^k. */
  lemma {:induction false} BitAndLowMask(a: nat, k: nat)
    ensures BitAnd(a, Pow2(k) - 1) == a % Pow2(k)
  {
    if k > 0 && a > 0 {
      var p, m := Pow2(k - 1), Pow2(k);
      MaskHalves(k);
      BitAndLowMask(a / 2, k - 1);
      BitAndOddMask(a, m - 1);
      RemainderByDouble(a, p, m);
    } else if k == 0 {
      assert Pow2(k) == 1;
    } else {
      ModUnique(a, Pow2(k), 0, 0);
    }
  }

  /** Against an odd mask, the lowest bit of the and is a's lowest bit. */
  lemma BitAndOddMask(a: nat, mask: nat)
    requires a > 0 && mask % 2 == 1
    ensures BitAnd(a, mask) == 2 * BitAnd(a / 2, mask / 2) + a % 2
  {
  }

  /** Dropping the lowest bit of 2^k - 1 leaves 2^(k-1) - 1. */
  lemma MaskHalves(k: nat)
    requires k > 0
    ensures Pow2(k) == 2 * Pow2(k - 1)
    ensures Pow2(k) - 1 > 0 && (Pow2(k) - 1) / 2 == Pow2(k - 1) - 1 && (Pow2(k) - 1) % 2 == 1
  {
  }

  /** The remainder by 2p from the remainder of the half by p and the last bit. */
  lemma RemainderByDouble(a: nat, p: nat, m: nat)
    requires p >= 1 && m == 2 * p
    ensures a % m == 2 * ((a / 2) % p) + a % 2
  {
    var q, rest := (a / 2) / p, (a / 2) % p;
    assert a / 2 == q * p + rest;
    assert a == 2 * (a / 2) + a % 2;
    assert a == q * (2 * p) + (2 * rest + a % 2);
    ModUnique(a, 2 * p, q, 2 * rest + a % 2);
  }

  /** Reducing modulo a multiple of m first does not change the remainder by m. */
  lemma ModOfMod(a: int, m: int, c: int)
    requires m > 0 && c > 0
    ensures (a % (c * m)) % m == a % m
  {
    MulAtLeast(c, m);
    var q, r := a / (c * m), a % (c * m);
    var q', r' := r / m, r % m;
    assert a == q * (c * m) + r;
    assert r == q' * m + r';
    assert a == (q * c + q') * m + r';
    ModUnique(a, m, q * c + q', r');
  }

  // ---------------------------------------------------------------------------
  // sameLow16Bits

  /** Go's `a & low16BitMask` on a 64-bit int, bit by bit. */
  function MaskLow16(a: int): nat
  {
    BitAnd(Unsigned64(a), Low16BitMask)
  }

  /** sameLow16Bits: the two values agree in their low 16 bits, their remainders by 65536. */
  predicate SameLow16Bits(a: int, b: int)
  {
    a % 65536 == b % 65536
  }

  /** Masking the low 16 bits keeps a's remainder by 65536, negative a included. */
  lemma MaskLow16IsRemainder(a: int)
    ensures MaskLow16(a) == a % 65536
  {
    Pow2Of16();
    BitAndLowMask(Unsigned64(a), 16);
    ModOfMod(a, 65536, 0x1_0000_0000_0000);
  }

  lemma Pow2Of16()
    ensures Pow2(16) == 65536
  {
    assert Pow2(1) == 2;
    PowAdd(1, 1);
    PowAdd(2, 2);
    PowAdd(4, 4);
    PowAdd(8, 8);
  }

  lemma {:induction false} PowAdd(j: nat, k: nat)
    ensures Pow2(j + k) == Pow2(j) * Pow2(k)
  {
    if j > 0 {
      PowAdd(j - 1, k);
    }
  }

  /** sameLow16Bits compares exactly what Go's masks of the two values compare. */
  lemma SameLow16BitsIsMaskEquality(a: int, b: int)
    ensures SameLow16Bits(a, b) <==> MaskLow16(a) == MaskLow16(b)
  {
    MaskLow16IsRemainder(a);
    MaskLow16IsRemainder(b);
  }

  // ---------------------------------------------------------------------------
  // The generator's values

  /** NumberGenerator.next's new seed, also its result. */
  function NextValue(seed: int, factor: int): int
  {
    GoRem(seed * factor, Modulus)
  }

  /** The seed after n calls of next. */
  function SeedAfter(seed: int, factor: int, n: nat): int
  {
    if n == 0 then seed else NextValue(SeedAfter(seed, factor, n - 1), factor)
  }

  /** The first n values next returns, in order. */
  function Values(seed: int, factor: int, n: nat): (vs: seq<int>)
    ensures |vs| == n
    ensures forall i :: 0 <= i < n ==> vs[i] == SeedAfter(seed, factor, i + 1)
  {
    if n == 0 then [] else Values(seed, factor, n - 1) + [SeedAfter(seed, factor, n)]
  }

  /** From a seed and factor that are not negative, every value is a residue in [0, 2147483647). */
  lemma {:induction false} ValuesInRange(seed: int, factor: int, n: nat)
    requires seed >= 0 && factor >= 0
    ensures forall i :: 0 <= i < n ==> 0 <= Values(seed, factor, n)[i] < Modulus
  {
    forall i | 0 <= i < n ensures 0 <= Values(seed, factor, n)[i] < Modulus {
      SeedAfterInRange(seed, factor, i + 1);
    }
  }

  lemma {:induction false} SeedAfterInRange(seed: int, factor: int, n: nat)
    requires seed >= 0 && factor >= 0
    ensures 0 <= SeedAfter(seed, factor, n)
    ensures n > 0 ==> SeedAfter(seed, factor, n) < Modulus
  {
    if n > 0 {
      SeedAfterInRange(seed, factor, n - 1);
      assert SeedAfter(seed, factor, n - 1) * factor >= 0;
    }
  }

  /**
   * next saves its value as the seed: a generator started from the seed it
   * has after n values goes on with the same values.
   */
  lemma {:induction false} ValuesResume(seed: int, factor: int, n: nat, m: nat)
    ensures Values(seed, factor, n + m) == Values(seed, factor, n) + Values(SeedAfter(seed, factor, n), factor, m)
  {
    SeedAfterAdds(seed, factor, n, m);
    var whole := Values(seed, factor, n + m);
    var parts := Values(seed, factor, n) + Values(SeedAfter(seed, factor, n), factor, m);
    forall i | 0 <= i < n + m ensures whole[i] == parts[i] {
      if i >= n {
        SeedAfterAdds(seed, factor, n, i - n + 1);
      }
    }
  }

  lemma {:induction false} SeedAfterAdds(seed: int, factor: int, n: nat, m: nat)
    ensures SeedAfter(seed, factor, n + m) == SeedAfter(SeedAfter(seed, factor, n), factor, m)
  {
    if m > 0 {
      SeedAfterAdds(seed, factor, n, m - 1);
    }
  }

  /**
   * For values the generators produce, the product next computes stays far
   * inside Go's 64-bit int, so it never wraps around.
   */
  lemma ProductFits(seed: int, factor: int)
    requires 0 <= seed < Modulus && 0 <= factor < Modulus
    ensures 0 <= seed * factor < 0x8000_0000_0000_0000
  {
    MulLess(seed, factor, Modulus + 1);
  }

  lemma MulLess(a: nat, b: nat, bound: nat)
    requires a < bound && b < bound
    ensures a * b < bound * bound
  {
    assert a * b <= a * bound;
    assert a * bound < bound * bound;
  }

  class NumberGenerator {
    var seed: int
    var factor: int

    /** NewNumberGenerator(seed, factor). */
    constructor (seed: int, factor: int)
      ensures this.seed == seed && this.factor == factor
    {
      this.seed := seed;
      this.factor := factor;
    }

    /** next: the seed becomes seed * factor % 2147483647, and that is the result. */
    method Next() returns (v: int)
      modifies this
      ensures factor == old(factor)
      ensures v == NextValue(old(seed), factor) && seed == v
    {
      seed := GoRem(seed * factor, Modulus);
      v := seed;
    }
  }

  // ---------------------------------------------------------------------------
  // judgeCount

  /** The number of positions at which the two sequences agree in the low 16 bits. */
  function Matches(xs: seq<int>, ys: seq<int>): (r: nat)
    requires |xs| == |ys|
    ensures r <= |xs|
  {
    if xs == [] then 0
    else
      var last := |xs| - 1;
      Matches(xs[..last], ys[..last]) + (if SameLow16Bits(xs[last], ys[last]) then 1 else 0)
  }

  /** The positions at which the two sequences agree in the low 16 bits. */
  function Agreeing(xs: seq<int>, ys: seq<int>): set<int>
    requires |xs| == |ys|
  {
    set i | 0 <= i < |xs| && SameLow16Bits(xs[i], ys[i])
  }

  lemma AgreeingSnoc(xs: seq<int>, ys: seq<int>)
    requires |xs| == |ys| > 0
    ensures var last := |xs| - 1;
            Agreeing(xs, ys) == Agreeing(xs[..last], ys[..last])
                                + (if SameLow16Bits(xs[last], ys[last]) then {last} else {})
    ensures |xs| - 1 !in Agreeing(xs[..|xs| - 1], ys[..|xs| - 1])
  {
  }

  /** Matches counts exactly the agreeing positions. */
  lemma {:induction false} MatchesCountsPositions(xs: seq<int>, ys: seq<int>)
    requires |xs| == |ys|
    ensures Matches(xs, ys) == |Agreeing(xs, ys)|
  {
    if xs != [] {
      var last := |xs| - 1;
      MatchesCountsPositions(xs[..last], ys[..last]);
      AgreeingSnoc(xs, ys);
    } else {
      assert Agreeing(xs, ys) == {};
    }
  }

  /** The judge's count over the first n rounds of two generators. */
  function JudgeCount(seedA: int, factorA: int, seedB: int, factorB: int, n: nat): nat
  {
    Matches(Values(seedA, factorA, n), Values(seedB, factorB, n))
  }

  /** One more round adds one exactly when that round's values agree. */
  lemma JudgeCountStep(seedA: int, factorA: int, seedB: int, factorB: int, n: nat)
    ensures JudgeCount(seedA, factorA, seedB, factorB, n + 1)
            == JudgeCount(seedA, factorA, seedB, factorB, n)
               + (if SameLow16Bits(SeedAfter(seedA, factorA, n + 1), SeedAfter(seedB, factorB, n + 1)) then 1 else 0)
  {
    var xs, ys := Values(seedA, factorA, n + 1), Values(seedB, factorB, n + 1);
    assert xs[..n] == Values(seedA, factorA, n) && ys[..n] == Values(seedB, factorB, n);
  }

  /**
   * judgeCount with its round count as a parameter: both generators advance
   * once per round, and the rounds whose values agree in their low 16 bits
   * are counted. The two generators are distinct objects.
   */
  method Judge(n1: NumberGenerator, n2: NumberGenerator, rounds: nat) returns (count: nat)
    requires n1 != n2
    modifies n1, n2
    ensures n1.factor == old(n1.factor) && n2.factor == old(n2.factor)
    ensures count == JudgeCount(old(n1.seed), n1.factor, old(n2.seed), n2.factor, rounds)
    ensures n1.seed == SeedAfter(old(n1.seed), n1.factor, rounds)
    ensures n2.seed == SeedAfter(old(n2.seed), n2.factor, rounds)
  {
    ghost var seedA, seedB := n1.seed, n2.seed;
    count := 0;
    for j := 0 to rounds
      invariant n1.factor == old(n1.factor) && n2.factor == old(n2.factor)
      invariant n1.seed == SeedAfter(seedA, n1.factor, j) && n2.seed == SeedAfter(seedB, n2.factor, j)
      invariant count == JudgeCount(seedA, n1.factor, seedB, n2.factor, j)
    {
      var a := n1.Next();
      var b := n2.Next();
      JudgeCountStep(seedA, n1.factor, seedB, n2.factor, j);
      if SameLow16Bits(a, b) {
        count := count + 1;
      }
    }
  }

  // ---------------------------------------------------------------------------
  // The examples of the tests

  const ValuesA := [1092455, 1181022009, 245556042, 1744312007, 1352636452]
  const ValuesB := [430625591, 1233683848, 1431495498, 137874439, 285222916]

  /** The five pairs of the sameLow16Bits test: only the third agrees. */
  lemma ExampleSameLow16Bits()
    ensures !SameLow16Bits(1092455, 430625591)
    ensures !SameLow16Bits(1181022009, 1233683848)
    ensures SameLow16Bits(245556042, 1431495498)
    ensures !SameLow16Bits(1744312007, 137874439)
    ensures !SameLow16Bits(1352636452, 285222916)
  {
  }

  lemma ExampleGeneratorA()
    ensures Values(65, 16807, 5) == ValuesA
  {
    assert SeedAfter(65, 16807, 1) == 1092455;
    assert SeedAfter(65, 16807, 2) == 1181022009;
    assert SeedAfter(65, 16807, 3) == 245556042;
    assert SeedAfter(65, 16807, 4) == 1744312007;
    assert SeedAfter(65, 16807, 5) == 1352636452;
  }

  lemma ExampleGeneratorB()
    ensures Values(8921, 48271, 5) == ValuesB
  {
    assert SeedAfter(8921, 48271, 1) == 430625591;
    assert SeedAfter(8921, 48271, 2) == 1233683848;
    assert SeedAfter(8921, 48271, 3) == 1431495498;
    assert SeedAfter(8921, 48271, 4) == 137874439;
    assert SeedAfter(8921, 48271, 5) == 285222916;
  }

  /** Of the first five rounds of the example generators, only the third agrees. */
  lemma ExampleJudgeFiveRounds()
    ensures JudgeCount(65, 16807, 8921, 48271, 5) == 1
  {
    var xs, ys := Values(65, 16807, 5), Values(8921, 48271, 5);
    ExampleGeneratorA();
    ExampleGeneratorB();
    ExampleSameLow16Bits();
    MatchesCountsPositions(xs, ys);
    assert Agreeing(xs, ys) == {2} by {
      forall i | 0 <= i < 5 ensures SameLow16Bits(xs[i], ys[i]) <==> i == 2 {
        assert i == 0 || i == 1 || i == 2 || i == 3 || i == 4;
      }
    }
  }
}
