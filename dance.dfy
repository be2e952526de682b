// The permutation promenade of day 16: programs named by letters stand in a
// line and dance through spins, exchanges and partner swaps. danceN does not
// replay the steps in order: it runs the positional steps once, records where
// every program went and replays that permutation, then replays the partner
// swaps on a table of positions. The main result here is that this gives the
// same line as dancing the steps in order, as many times as asked.
module Dance {
  import opened Common
  import opened Text

  // ---------------------------------------------------------------------------
  // The line of programs

  /** The programs are distinct: each letter stands in one place. */
  predicate Distinct(p: seq<char>)
  {
    forall i, j :: 0 <= i < j < |p| ==> p[i] != p[j]
  }

  /** NewProgramDance(n): the first n letters in order. */
  function Letters(n: nat): (p: seq<char>)
    requires n <= 26
    ensures |p| == n && Distinct(p)
    ensures forall i :: 0 <= i < n ==> 'a' <= p[i] <= 'z'
  {
    seq(n, j requires 0 <= j < n => ('a' as int + j) as char)
  }

  /** In a line of distinct programs, IndexOf finds each program where it stands. */
  lemma IndexOfDistinct(p: seq<char>, i: int)
    requires Distinct(p) && 0 <= i < |p|
    ensures IndexOf(p, p[i]) == i
  {
  }

  // ---------------------------------------------------------------------------
  // Steps and how step() reads them

  datatype Step = Spin(size: nat) | Exchange(a: nat, b: nat) | Partner(first: char, second: char)

  /**
   * step()'s reading: the first of the patterns `s(\d+)`, `x(\d+)/(\d+)` and
   * `p(\w+)/(\w+)` that matches anywhere in the text decides; a partner step
   * names the first character of each capture. None is step()'s panic.
   */
  function ParseStep(s: string): Option<Step>
  {
    match FindCapture(s, "s", Digits, "", 0)
    case Some(n) => Some(Spin(DigitsValue(n)))
    case None =>
      match FindPair(s, 'x', Digits, '/', 0)
      case Some(ab) => Some(Exchange(DigitsValue(ab.0), DigitsValue(ab.1)))
      case None =>
        match FindPair(s, 'p', Word, '/', 0)
        case Some(ab) => Some(Partner(ab.0[0], ab.1[0]))
        case None => None
  }

  /** stepPartnerRe.MatchString, by which danceN sorts the steps. */
  predicate IsPartnerStep(s: string)
  {
    FindPair(s, 'p', Word, '/', 0).Some?
  }

  /** A spin no longer than the line, exchange positions inside it. */
  predicate FitsSize(n: nat, st: Step)
  {
    match st
    case Spin(x) => x <= n
    case Exchange(a, b) => a < n && b < n
    case Partner(_, _) => true
  }

  /** The step applies without a panic: it fits the line's length, and both partners are in the line. */
  predicate Fits(p: seq<char>, st: Step)
  {
    FitsSize(|p|, st) && (st.Partner? ==> st.first in p && st.second in p)
  }

  /** One step on a line it fits. */
  function Play(p: seq<char>, st: Step): (r: seq<char>)
    requires Fits(p, st)
    ensures |r| == |p| && multiset(r) == multiset(p)
  {
    match st
    case Spin(x) =>
      if x == 0 then p
      else
        RotateMultiset(p, |p| - x);
        p[|p| - x..] + p[..|p| - x]
    case Exchange(a, b) =>
      SwapMultiset(p, a, b);
      p[a := p[b]][b := p[a]]
    case Partner(a, b) =>
      var i, j := IndexOf(p, a), IndexOf(p, b);
      SwapMultiset(p, i, j);
      p[i := p[j]][j := p[i]]
  }

  lemma RotateMultiset(p: seq<char>, k: nat)
    requires k <= |p|
    ensures multiset(p[k..] + p[..k]) == multiset(p)
  {
    assert p == p[..k] + p[k..];
  }

  lemma SwapMultiset(p: seq<char>, i: int, j: int)
    requires 0 <= i < |p| && 0 <= j < |p|
    ensures multiset(p[i := p[j]][j := p[i]]) == multiset(p)
  {
  }

  /** step(): the new line, or None where it panics. */
  function StepText(p: seq<char>, s: string): Option<seq<char>>
  {
    match ParseStep(s)
    case None => None
    case Some(st) => if Fits(p, st) then Some(Play(p, st)) else None
  }

  /** Calling step() on each text in turn; None once one panics. */
  function RunSteps(p: seq<char>, ss: seq<string>): (r: Option<seq<char>>)
    ensures r.Some? ==> |r.value| == |p| && multiset(r.value) == multiset(p)
  {
    if ss == [] then Some(p)
    else
      match RunSteps(p, ss[..|ss| - 1])
      case None => None
      case Some(q) => StepText(q, ss[|ss| - 1])
  }

  /** A spin moves the last x programs to the front, keeping their order; s0 changes nothing. */
  lemma SpinMovesTail(p: seq<char>, x: nat)
    requires x <= |p|
    ensures Play(p, Spin(x))[..x] == p[|p| - x..]
    ensures Play(p, Spin(x))[x..] == p[..|p| - x]
  {
  }

  /** An exchange swaps the programs at two positions and leaves the others. */
  lemma ExchangeSwaps(p: seq<char>, a: nat, b: nat)
    requires a < |p| && b < |p|
    ensures var r := Play(p, Exchange(a, b));
            r[a] == p[b] && r[b] == p[a] && forall k :: 0 <= k < |p| && k != a && k != b ==> r[k] == p[k]
  {
  }

  /** A partner swap exchanges where two named programs stand and leaves the others. */
  lemma PartnerSwaps(p: seq<char>, a: char, b: char)
    requires a in p && b in p
    ensures var r := Play(p, Partner(a, b));
            r[IndexOf(p, a)] == b && r[IndexOf(p, b)] == a
            && forall k :: 0 <= k < |p| && p[k] != a && p[k] != b ==> r[k] == p[k]
  {
    var i, j := IndexOf(p, a), IndexOf(p, b);
    assert p[i] == a && p[j] == b;
    assert Play(p, Partner(a, b)) == p[i := p[j]][j := p[i]];
  }

  /** Every step keeps the programs distinct. */
  lemma PlayKeepsDistinct(p: seq<char>, st: Step)
    requires Fits(p, st) && Distinct(p)
    ensures Distinct(Play(p, st))
  {
    var r := Play(p, st);
    if st.Spin? || st.Exchange? {
      forall i | 0 <= i < |p| ensures r[i] == p[StepSrc(|p|, st, i)] {
        PlayReads(p, st, i);
      }
      forall i, j | 0 <= i < j < |p| ensures r[i] != r[j] {
        StepSrcInjective(|p|, st, i, j);
      }
    }
  }

  // ---------------------------------------------------------------------------
  // Spins and exchanges only move positions

  /** Where position i of a spin's or an exchange's result reads from. */
  function StepSrc(n: nat, st: Step, i: int): (r: int)
    requires FitsSize(n, st)
    requires 0 <= i < n
    ensures 0 <= r < n
  {
    match st
    case Spin(x) => if i < x then n - x + i else i - x
    case Exchange(a, b) => if i == a then b else if i == b then a else i
    case Partner(_, _) => i
  }

  /** The inverse of StepSrc: where the program at position j goes. */
  function StepDst(n: nat, st: Step, j: int): (r: int)
    requires FitsSize(n, st)
    requires 0 <= j < n
    ensures 0 <= r < n
    ensures StepSrc(n, st, r) == j
  {
    match st
    case Spin(x) => if j < n - x then j + x else j - (n - x)
    case Exchange(a, b) => if j == a then b else if j == b then a else j
    case Partner(_, _) => j
  }

  lemma StepSrcInjective(n: nat, st: Step, i: int, j: int)
    requires FitsSize(n, st)
    requires 0 <= i < n && 0 <= j < n && i != j
    ensures StepSrc(n, st, i) != StepSrc(n, st, j)
  {
  }

  lemma PlayReads(p: seq<char>, st: Step, i: int)
    requires Fits(p, st) && !st.Partner? && 0 <= i < |p|
    ensures Play(p, st)[i] == p[StepSrc(|p|, st, i)]
  {
  }

  /** The step's moves as a map of positions. */
  function StepMap(n: nat, st: Step): (m: seq<int>)
    requires FitsSize(n, st)
    ensures IsMap(m, n)
  {
    seq(n, i requires 0 <= i < n => StepSrc(n, st, i))
  }

  function StepInverse(n: nat, st: Step): (m: seq<int>)
    requires FitsSize(n, st)
    ensures IsMap(m, n)
  {
    seq(n, j requires 0 <= j < n => StepDst(n, st, j))
  }

  lemma StepMapInverse(n: nat, st: Step)
    requires FitsSize(n, st)
    ensures Inverse(StepMap(n, st), StepInverse(n, st), n)
  {
    var s, t := StepMap(n, st), StepInverse(n, st);
    forall i | 0 <= i < n ensures t[s[i]] == i {
      var j := s[i];
      if t[j] != i {
        StepSrcInjective(n, st, t[j], i);
      }
    }
  }

  /** A spin or an exchange gathers the line through its position map. */
  lemma PlayGathers(p: seq<char>, st: Step)
    requires Fits(p, st) && !st.Partner?
    ensures Play(p, st) == Gather(p, StepMap(|p|, st))
  {
    forall i | 0 <= i < |p| ensures Play(p, st)[i] == Gather(p, StepMap(|p|, st))[i] {
      PlayReads(p, st, i);
    }
  }

  // ---------------------------------------------------------------------------
  // Position maps

  /** m sends every position below n to a position below n. */
  predicate IsMap(m: seq<int>, n: nat)
  {
    |m| == n && forall i :: 0 <= i < n ==> 0 <= m[i] < n
  }

  /** s and t undo each other. */
  predicate Inverse(s: seq<int>, t: seq<int>, n: nat)
  {
    IsMap(s, n) && IsMap(t, n)
    && (forall i :: 0 <= i < n ==> s[t[i]] == i)
    && (forall i :: 0 <= i < n ==> t[s[i]] == i)
  }

  function Identity(n: nat): (m: seq<int>)
    ensures IsMap(m, n)
  {
    seq(n, i requires 0 <= i < n => i)
  }

  /** The line whose position i holds what x holds at m[i]. */
  function Gather(x: seq<char>, m: seq<int>): (r: seq<char>)
    requires IsMap(m, |x|)
    ensures |r| == |x|
  {
    seq(|x|, i requires 0 <= i < |x| => x[m[i]])
  }

  /** Reading through g, then through f. */
  function Compose(f: seq<int>, g: seq<int>, n: nat): (h: seq<int>)
    requires IsMap(f, n) && IsMap(g, n)
    ensures IsMap(h, n)
  {
    seq(n, i requires 0 <= i < n => f[g[i]])
  }

  lemma GatherCompose(x: seq<char>, f: seq<int>, g: seq<int>)
    requires IsMap(f, |x|) && IsMap(g, |x|)
    ensures Gather(Gather(x, f), g) == Gather(x, Compose(f, g, |x|))
  {
  }

  lemma ComposeInverse(f: seq<int>, fi: seq<int>, g: seq<int>, gi: seq<int>, n: nat)
    requires Inverse(f, fi, n) && Inverse(g, gi, n)
    ensures Inverse(Compose(f, g, n), Compose(gi, fi, n), n)
  {
  }

  /** Gathering through a bijection keeps the programs distinct. */
  lemma GatherDistinct(x: seq<char>, s: seq<int>, t: seq<int>)
    requires Inverse(s, t, |x|) && Distinct(x)
    ensures Distinct(Gather(x, s))
  {
    var r := Gather(x, s);
    forall i, j | 0 <= i < j < |x| ensures r[i] != r[j] {
      assert t[s[i]] == i && t[s[j]] == j;
    }
  }

  // ---------------------------------------------------------------------------
  // A list of steps

  /** Every step fits the line (and so, by FitsLater, every line it leads to). */
  predicate AllFit(x: seq<char>, sts: seq<Step>)
  {
    forall i :: 0 <= i < |sts| ==> Fits(x, sts[i])
  }

  /** Whether a step fits depends only on the line's length and letters. */
  lemma FitsLater(x: seq<char>, y: seq<char>, st: Step)
    requires |x| == |y| && multiset(x) == multiset(y) && Fits(x, st)
    ensures Fits(y, st)
  {
    if st.Partner? {
      assert st.first in multiset(x) && st.second in multiset(x);
    }
  }

  lemma AllFitLater(x: seq<char>, y: seq<char>, sts: seq<Step>)
    requires |x| == |y| && multiset(x) == multiset(y) && AllFit(x, sts)
    ensures AllFit(y, sts)
  {
    forall i | 0 <= i < |sts| ensures Fits(y, sts[i]) { FitsLater(x, y, sts[i]); }
  }

  /** The steps in order. */
  function PlayAll(x: seq<char>, sts: seq<Step>): (r: seq<char>)
    requires AllFit(x, sts)
    ensures |r| == |x| && multiset(r) == multiset(x)
  {
    if sts == [] then x
    else
      var y := PlayAll(x, sts[..|sts| - 1]);
      var st := sts[|sts| - 1];
      FitsLater(x, y, st);
      Play(y, st)
  }

  lemma {:induction false} PlayAllDistinct(x: seq<char>, sts: seq<Step>)
    requires AllFit(x, sts) && Distinct(x)
    ensures Distinct(PlayAll(x, sts))
  {
    if sts != [] {
      var y := PlayAll(x, sts[..|sts| - 1]);
      PlayAllDistinct(x, sts[..|sts| - 1]);
      FitsLater(x, y, sts[|sts| - 1]);
      PlayKeepsDistinct(y, sts[|sts| - 1]);
    }
  }

  /** The steps done k times over. */
  function Repeat(x: seq<char>, sts: seq<Step>, k: nat): (r: seq<char>)
    requires AllFit(x, sts)
    ensures |r| == |x| && multiset(r) == multiset(x)
  {
    if k == 0 then x
    else
      var y := Repeat(x, sts, k - 1);
      AllFitLater(x, y, sts);
      PlayAll(y, sts)
  }

  lemma {:induction false} RepeatDistinct(x: seq<char>, sts: seq<Step>, k: nat)
    requires AllFit(x, sts) && Distinct(x)
    ensures Distinct(Repeat(x, sts, k))
  {
    if k > 0 {
      var y := Repeat(x, sts, k - 1);
      RepeatDistinct(x, sts, k - 1);
      AllFitLater(x, y, sts);
      PlayAllDistinct(y, sts);
      assert Repeat(x, sts, k) == PlayAll(y, sts);
    }
  }

  /** The spins and exchanges, in order. */
  function MovesOf(sts: seq<Step>): (r: seq<Step>)
    ensures forall i :: 0 <= i < |r| ==> !r[i].Partner?
  {
    if sts == [] then []
    else
      var front := MovesOf(sts[..|sts| - 1]);
      if sts[|sts| - 1].Partner? then front else front + [sts[|sts| - 1]]
  }

  /** The partner swaps' letters, in order. */
  function PairsOf(sts: seq<Step>): (r: seq<(char, char)>)
  {
    if sts == [] then []
    else
      var front := PairsOf(sts[..|sts| - 1]);
      match sts[|sts| - 1]
      case Partner(a, b) => front + [(a, b)]
      case _ => front
  }

  /** The steps only move positions, and each fits lines of length n. */
  predicate MovesFor(n: nat, sts: seq<Step>)
  {
    forall i :: 0 <= i < |sts| ==> !sts[i].Partner? && FitsSize(n, sts[i])
  }

  /** Where each position of the result of the moves reads from. */
  function SrcOf(n: nat, sts: seq<Step>): (m: seq<int>)
    requires MovesFor(n, sts)
    ensures IsMap(m, n)
  {
    if sts == [] then Identity(n)
    else Compose(SrcOf(n, sts[..|sts| - 1]), StepMap(n, sts[|sts| - 1]), n)
  }

  /** Where each position's program goes under the moves. */
  function DstOf(n: nat, sts: seq<Step>): (m: seq<int>)
    requires MovesFor(n, sts)
    ensures IsMap(m, n)
  {
    if sts == [] then Identity(n)
    else Compose(StepInverse(n, sts[|sts| - 1]), DstOf(n, sts[..|sts| - 1]), n)
  }

  lemma {:induction false} SrcDstInverse(n: nat, sts: seq<Step>)
    requires MovesFor(n, sts)
    ensures Inverse(SrcOf(n, sts), DstOf(n, sts), n)
  {
    if sts != [] {
      var last := sts[|sts| - 1];
      SrcDstInverse(n, sts[..|sts| - 1]);
      StepMapInverse(n, last);
      ComposeInverse(SrcOf(n, sts[..|sts| - 1]), DstOf(n, sts[..|sts| - 1]), StepMap(n, last), StepInverse(n, last), n);
    }
  }

  /** Spins and exchanges in sequence are one gather through the composed map. */
  lemma {:induction false} PlayAllGathers(x: seq<char>, sts: seq<Step>)
    requires MovesFor(|x|, sts)
    ensures AllFit(x, sts)
    ensures PlayAll(x, sts) == Gather(x, SrcOf(|x|, sts))
  {
    if sts != [] {
      var front, last := sts[..|sts| - 1], sts[|sts| - 1];
      PlayAllGathers(x, front);
      PlayGathers(PlayAll(x, front), last);
      GatherCompose(x, SrcOf(|x|, front), StepMap(|x|, last));
    }
  }

  // ---------------------------------------------------------------------------
  // Partner swaps rename letters

  function Swap(a: char, b: char, c: char): char
  {
    if c == a then b else if c == b then a else c
  }

  /** Every a becomes b and every b becomes a. */
  function Rename(y: seq<char>, a: char, b: char): (r: seq<char>)
    ensures |r| == |y|
  {
    seq(|y|, i requires 0 <= i < |y| => Swap(a, b, y[i]))
  }

  /** The renamings in order. */
  function RenameAll(y: seq<char>, pairs: seq<(char, char)>): (r: seq<char>)
    ensures |r| == |y|
  {
    if pairs == [] then y
    else
      var last := pairs[|pairs| - 1];
      Rename(RenameAll(y, pairs[..|pairs| - 1]), last.0, last.1)
  }

  /** On distinct programs, a partner swap is the renaming of its two letters. */
  lemma PartnerRenames(p: seq<char>, a: char, b: char)
    requires Distinct(p) && a in p && b in p
    ensures Play(p, Partner(a, b)) == Rename(p, a, b)
  {
    var i, j := IndexOf(p, a), IndexOf(p, b);
    forall k | 0 <= k < |p| ensures Play(p, Partner(a, b))[k] == Rename(p, a, b)[k] {
      PartnerSwaps(p, a, b);
      if p[k] == a { IndexOfDistinct(p, k); }
      if p[k] == b { IndexOfDistinct(p, k); }
    }
  }

  /** Moving positions and renaming letters commute. */
  lemma GatherRename(x: seq<char>, m: seq<int>, a: char, b: char)
    requires IsMap(m, |x|)
    ensures Gather(Rename(x, a, b), m) == Rename(Gather(x, m), a, b)
  {
  }

  lemma {:induction false} GatherRenameAll(x: seq<char>, m: seq<int>, pairs: seq<(char, char)>)
    requires IsMap(m, |x|)
    ensures Gather(RenameAll(x, pairs), m) == RenameAll(Gather(x, m), pairs)
  {
    if pairs != [] {
      var last := pairs[|pairs| - 1];
      GatherRenameAll(x, m, pairs[..|pairs| - 1]);
      GatherRename(RenameAll(x, pairs[..|pairs| - 1]), m, last.0, last.1);
    }
  }

  /** Renaming with letters of the line keeps its letters and keeps them distinct. */
  lemma RenameKeeps(y: seq<char>, a: char, b: char)
    requires a in y && b in y
    ensures forall c :: c in Rename(y, a, b) <==> c in y
    ensures Distinct(y) ==> Distinct(Rename(y, a, b))
  {
    var r := Rename(y, a, b);
    forall c ensures c in r <==> c in y {
      if c in y {
        var i :| 0 <= i < |y| && y[i] == c;
        if c == a {
          var j :| 0 <= j < |y| && y[j] == b;
          assert r[j] == a;
        } else if c == b {
          var j :| 0 <= j < |y| && y[j] == a;
          assert r[j] == b;
        } else {
          assert r[i] == c;
        }
      }
    }
    if Distinct(y) {
      PartnerRenames(y, a, b);
      PlayKeepsDistinct(y, Partner(a, b));
    }
  }

  // ---------------------------------------------------------------------------
  // Splitting the dance into its moves and its renamings

  /**
   * On distinct programs, dancing the steps in order is the same as doing
   * all the spins and exchanges first, then all the partner swaps as
   * renamings: positional steps and renamings commute.
   */
  lemma {:induction false} Decompose(x: seq<char>, sts: seq<Step>)
    requires Distinct(x) && AllFit(x, sts)
    ensures MovesFor(|x|, MovesOf(sts))
    ensures PlayAll(x, sts) == RenameAll(Gather(x, SrcOf(|x|, MovesOf(sts))), PairsOf(sts))
  {
    if sts != [] {
      var front := sts[..|sts| - 1];
      assert AllFit(x, front);
      Decompose(x, front);
      if sts[|sts| - 1].Partner? {
        DecomposePartner(x, sts);
      } else {
        DecomposeMove(x, sts);
      }
    }
  }

  /** The step of Decompose for a trailing partner swap: one more renaming. */
  lemma DecomposePartner(x: seq<char>, sts: seq<Step>)
    requires Distinct(x) && AllFit(x, sts) && sts != [] && sts[|sts| - 1].Partner?
    requires MovesFor(|x|, MovesOf(sts[..|sts| - 1]))
    requires PlayAll(x, sts[..|sts| - 1])
             == RenameAll(Gather(x, SrcOf(|x|, MovesOf(sts[..|sts| - 1]))), PairsOf(sts[..|sts| - 1]))
    ensures MovesFor(|x|, MovesOf(sts))
    ensures PlayAll(x, sts) == RenameAll(Gather(x, SrcOf(|x|, MovesOf(sts))), PairsOf(sts))
  {
    var front, st := sts[..|sts| - 1], sts[|sts| - 1];
    var pairs := PairsOf(front);
    var y := PlayAll(x, front);
    PlayAllDistinct(x, front);
    FitsLater(x, y, st);
    PartnerRenames(y, st.first, st.second);
    assert MovesOf(sts) == MovesOf(front);
    assert PairsOf(sts) == pairs + [(st.first, st.second)];
    assert (pairs + [(st.first, st.second)])[..|pairs|] == pairs;
  }

  /** A trailing spin or exchange adds itself to the moves, its map to their sources, and nothing to the pairs. */
  lemma MoveSnoc(n: nat, sts: seq<Step>, moves: seq<Step>, pairs: seq<(char, char)>)
    requires sts != [] && !sts[|sts| - 1].Partner? && FitsSize(n, sts[|sts| - 1])
    requires moves == MovesOf(sts[..|sts| - 1]) && pairs == PairsOf(sts[..|sts| - 1]) && MovesFor(n, moves)
    ensures MovesOf(sts) == moves + [sts[|sts| - 1]] && PairsOf(sts) == pairs
    ensures MovesFor(n, MovesOf(sts))
    ensures SrcOf(n, MovesOf(sts)) == Compose(SrcOf(n, moves), StepMap(n, sts[|sts| - 1]), n)
  {
    var st := sts[|sts| - 1];
    assert (moves + [st])[..|moves|] == moves;
  }

  /** The step of Decompose for a trailing spin or exchange: one more gathering, moved under the renamings. */
  lemma DecomposeMove(x: seq<char>, sts: seq<Step>)
    requires Distinct(x) && AllFit(x, sts) && sts != [] && !sts[|sts| - 1].Partner?
    requires MovesFor(|x|, MovesOf(sts[..|sts| - 1]))
    requires PlayAll(x, sts[..|sts| - 1])
             == RenameAll(Gather(x, SrcOf(|x|, MovesOf(sts[..|sts| - 1]))), PairsOf(sts[..|sts| - 1]))
    ensures MovesFor(|x|, MovesOf(sts))
    ensures PlayAll(x, sts) == RenameAll(Gather(x, SrcOf(|x|, MovesOf(sts))), PairsOf(sts))
  {
    var front, st := sts[..|sts| - 1], sts[|sts| - 1];
    var moves, pairs := MovesOf(front), PairsOf(front);
    var g := Gather(x, SrcOf(|x|, moves));
    var y := PlayAll(x, front);
    PlayAllDistinct(x, front);
    FitsLater(x, y, st);
    MoveSnoc(|x|, sts, moves, pairs);
    PlayGathers(y, st);
    GatherRenameAll(g, StepMap(|x|, st), pairs);
    GatherCompose(x, SrcOf(|x|, moves), StepMap(|x|, st));
  }

  /** The map gathered through k times. */
  function GatherRounds(x: seq<char>, m: seq<int>, k: nat): (r: seq<char>)
    requires IsMap(m, |x|)
    ensures |r| == |x|
  {
    if k == 0 then x else Gather(GatherRounds(x, m, k - 1), m)
  }

  /** The renamings done k times over. */
  function RenameRounds(y: seq<char>, pairs: seq<(char, char)>, k: nat): (r: seq<char>)
    ensures |r| == |y|
  {
    if k == 0 then y else RenameAll(RenameRounds(y, pairs, k - 1), pairs)
  }

  lemma {:induction false} GatherRenameRounds(y: seq<char>, m: seq<int>, pairs: seq<(char, char)>, k: nat)
    requires IsMap(m, |y|)
    ensures Gather(RenameRounds(y, pairs, k), m) == RenameRounds(Gather(y, m), pairs, k)
  {
    if k > 0 {
      GatherRenameRounds(y, m, pairs, k - 1);
      GatherRenameAll(RenameRounds(y, pairs, k - 1), m, pairs);
    }
  }

  lemma RoundAfterRounds(y: seq<char>, g: seq<char>, m: seq<int>, pairs: seq<(char, char)>, k: nat)
    requires IsMap(m, |g|) && k > 0 && y == RenameRounds(g, pairs, k - 1)
    ensures RenameAll(Gather(y, m), pairs) == RenameRounds(Gather(g, m), pairs, k)
  {
    GatherRenameRounds(g, m, pairs, k - 1);
  }

  lemma {:induction false} MovesOfFit(x: seq<char>, sts: seq<Step>)
    requires AllFit(x, sts)
    ensures MovesFor(|x|, MovesOf(sts))
  {
    if sts != [] {
      var front := sts[..|sts| - 1];
      assert AllFit(x, front);
      MovesOfFit(x, front);
      assert FitsSize(|x|, sts[|sts| - 1]);
    }
  }

  /** Dancing k times is moving k times, then renaming k times. */
  lemma {:induction false} RepeatSplits(x: seq<char>, sts: seq<Step>, k: nat)
    requires Distinct(x) && AllFit(x, sts)
    ensures MovesFor(|x|, MovesOf(sts))
    ensures Repeat(x, sts, k) == RenameRounds(GatherRounds(x, SrcOf(|x|, MovesOf(sts)), k), PairsOf(sts), k)
  {
    MovesOfFit(x, sts);
    if k > 0 {
      RepeatSplits(x, sts, k - 1);
      RepeatOnce(x, sts, k, SrcOf(|x|, MovesOf(sts)), PairsOf(sts));
    }
  }

  /** One more round on top of k - 1 split rounds. */
  lemma RepeatOnce(x: seq<char>, sts: seq<Step>, k: nat, m: seq<int>, pairs: seq<(char, char)>)
    requires Distinct(x) && AllFit(x, sts) && k > 0
    requires MovesFor(|x|, MovesOf(sts)) && m == SrcOf(|x|, MovesOf(sts)) && pairs == PairsOf(sts)
    requires Repeat(x, sts, k - 1) == RenameRounds(GatherRounds(x, m, k - 1), pairs, k - 1)
    ensures Repeat(x, sts, k) == RenameRounds(GatherRounds(x, m, k), pairs, k)
  {
    var y := Repeat(x, sts, k - 1);
    AllFitLater(x, y, sts);
    RepeatDistinct(x, sts, k - 1);
    Decompose(y, sts);
    assert Repeat(x, sts, k) == PlayAll(y, sts);
    assert PlayAll(y, sts) == RenameAll(Gather(y, m), pairs);
    RoundAfterRounds(y, GatherRounds(x, m, k - 1), m, pairs, k);
    assert GatherRounds(x, m, k) == Gather(GatherRounds(x, m, k - 1), m);
  }
}
