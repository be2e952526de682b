// ProgramDance and danceN of day 16. danceN sorts the steps into positional
// steps (spins and exchanges) and partner swaps. It dances the positional
// steps once, records where each program went (moveTo) and replays that
// permutation repeat - 1 more times. Then it keeps a table from letter to
// position, swaps table entries for every partner step, repeat times, and
// reads the line back from the table. Dance shows that, on a line of
// distinct programs, this is dancing the steps in order, repeat times.
module Promenade {
  import opened Common
  import opened Text
  import D = Dance

  // ---------------------------------------------------------------------------
  // The positional phase: moveTo and its replay

  /** moveTo[j]: where the program that stood at j before the steps stands in cur. */
  function MoveTo(save: seq<char>, cur: seq<char>): (m: seq<int>)
    ensures |m| == |save|
  {
    seq(|save|, j requires 0 <= j < |save| => IndexOf(cur, save[j]))
  }

  /** Every program of save is found in cur when the two hold the same programs. */
  lemma MoveToIsMap(save: seq<char>, cur: seq<char>)
    requires multiset(save) == multiset(cur)
    ensures D.IsMap(MoveTo(save, cur), |cur|)
    ensures forall j :: 0 <= j < |save| ==> cur[MoveTo(save, cur)[j]] == save[j]
  {
    assert |save| == |multiset(save)| == |cur|;
    forall j | 0 <= j < |save| ensures save[j] in cur {
      assert save[j] in multiset(save);
    }
  }

  /** The first k writes of `swap[moveTo[j]] = program` into a fresh zeroed line. */
  function Scatter(cur: seq<char>, m: seq<int>, k: nat): (r: seq<char>)
    requires D.IsMap(m, |cur|) && k <= |cur|
    ensures |r| == |cur|
  {
    if k == 0 then seq(|cur|, _ => 0 as char)
    else Scatter(cur, m, k - 1)[m[k - 1] := cur[k - 1]]
  }

  /** The permutation replayed t times. */
  function Replay(cur: seq<char>, m: seq<int>, t: nat): (r: seq<char>)
    requires D.IsMap(m, |cur|)
    ensures |r| == |cur|
  {
    if t == 0 then cur else Scatter(Replay(cur, m, t - 1), m, |cur|)
  }

  /** How many times danceN_nonpartner replays moveTo: repeat - 1, none when repeat < 1. */
  function Replays(repeat: int): nat
  {
    if repeat > 1 then repeat - 1 else 0
  }

  /** danceN_nonpartner: the new line, or None where one of the steps panics. */
  function NonPartnerPhase(p: seq<char>, steps: seq<string>, repeat: int): (r: Option<seq<char>>)
    ensures r.Some? ==> |r.value| == |p|
  {
    match D.RunSteps(p, steps)
    case None => None
    case Some(q) =>
      MoveToIsMap(p, q);
      Some(Replay(q, MoveTo(p, q), Replays(repeat)))
  }

  /** After k writes, position i holds its program exactly when the program it receives came before k. */
  lemma {:induction false} ScatterPrefix(cur: seq<char>, s: seq<int>, t: seq<int>, k: nat)
    requires D.Inverse(s, t, |cur|) && k <= |cur|
    ensures forall i :: 0 <= i < |cur| ==> Scatter(cur, t, k)[i] == if s[i] < k then cur[s[i]] else 0 as char
  {
    if k > 0 {
      ScatterPrefix(cur, s, t, k - 1);
      forall i | 0 <= i < |cur|
        ensures Scatter(cur, t, k)[i] == if s[i] < k then cur[s[i]] else 0 as char
      {
        if s[i] == k - 1 {
          assert t[s[i]] == i;
        }
      }
    }
  }

  /** Writing each program to where the inverse map sends it is reading through the map. */
  lemma ScatterGathers(cur: seq<char>, s: seq<int>, t: seq<int>)
    requires D.Inverse(s, t, |cur|)
    ensures Scatter(cur, t, |cur|) == D.Gather(cur, s)
  {
    ScatterPrefix(cur, s, t, |cur|);
  }

  /** On distinct programs, moveTo recorded after gathering through s is s's inverse. */
  lemma MoveToInverse(p: seq<char>, s: seq<int>, t: seq<int>)
    requires D.Distinct(p) && D.Inverse(s, t, |p|)
    ensures MoveTo(p, D.Gather(p, s)) == t
  {
    var q := D.Gather(p, s);
    D.GatherDistinct(p, s, t);
    forall j | 0 <= j < |p| ensures MoveTo(p, q)[j] == t[j] {
      assert q[t[j]] == p[j];
      D.IndexOfDistinct(q, t[j]);
    }
  }

  /** Replaying the inverse of s t more times gathers through s t more times. */
  lemma {:induction false} ReplayRounds(p: seq<char>, s: seq<int>, t: seq<int>, k: nat)
    requires D.Inverse(s, t, |p|)
    ensures Replay(D.Gather(p, s), t, k) == D.GatherRounds(p, s, k + 1)
  {
    if k > 0 {
      ReplayRounds(p, s, t, k - 1);
      ScatterGathers(D.GatherRounds(p, s, k), s, t);
    }
  }

  // ---------------------------------------------------------------------------
  // The partner phase: a table from letter to position

  /** danceN_partner's table has 200 entries, indexed by the program's byte. */
  const Slots := 200

  /** Every program can index the table. */
  predicate Small(p: seq<char>)
  {
    forall i :: 0 <= i < |p| ==> p[i] as int < Slots
  }

  predicate SmallPairs(pairs: seq<(char, char)>)
  {
    forall i :: 0 <= i < |pairs| ==> pairs[i].0 as int < Slots && pairs[i].1 as int < Slots
  }

  /** `programs[program] = j` for the first k programs, over a zeroed table. */
  function InitPositions(p: seq<char>, k: nat): (pos: seq<int>)
    requires Small(p) && k <= |p|
    ensures |pos| == Slots
  {
    if k == 0 then seq(Slots, _ => 0)
    else InitPositions(p, k - 1)[p[k - 1] as int := k - 1]
  }

  /** `programs[a], programs[b] = programs[b], programs[a]`. */
  function SwapPositions(pos: seq<int>, a: char, b: char): (r: seq<int>)
    requires |pos| == Slots && a as int < Slots && b as int < Slots
    ensures |r| == Slots
  {
    pos[a as int := pos[b as int]][b as int := pos[a as int]]
  }

  /** The first k compiled steps swapped in order. */
  function Round(pos: seq<int>, pairs: seq<(char, char)>, k: nat): (r: seq<int>)
    requires |pos| == Slots && SmallPairs(pairs) && k <= |pairs|
    ensures |r| == Slots
  {
    if k == 0 then pos
    else SwapPositions(Round(pos, pairs, k - 1), pairs[k - 1].0, pairs[k - 1].1)
  }

  /** The compiled steps swapped t times over. */
  function Rounds(pos: seq<int>, pairs: seq<(char, char)>, t: nat): (r: seq<int>)
    requires |pos| == Slots && SmallPairs(pairs)
    ensures |r| == Slots
  {
    if t == 0 then pos else Round(Rounds(pos, pairs, t - 1), pairs, |pairs|)
  }

  /** Every entry is a position of a line of n programs, or 0. */
  predicate InRange(pos: seq<int>, n: nat)
  {
    |pos| == Slots && forall c :: 0 <= c < Slots ==> 0 <= pos[c] && (pos[c] < n || pos[c] == 0)
  }

  /** programsToByteSlice after k programs: `np[programs[program]] = program` over a zeroed line. */
  function ToBytes(p: seq<char>, pos: seq<int>, k: nat): (r: seq<char>)
    requires Small(p) && InRange(pos, |p|) && k <= |p|
    ensures |r| == |p|
  {
    if k == 0 then seq(|p|, _ => 0 as char)
    else ToBytes(p, pos, k - 1)[pos[p[k - 1] as int] := p[k - 1]]
  }

  /** One compiled step: the first byte of each capture of `p(\w+)/(\w+)`. */
  function CompileStep(step: string): (ab: (char, char))
    requires D.IsPartnerStep(step)
    ensures ab.0 as int < Slots && ab.1 as int < Slots
  {
    var m := FindPair(step, 'p', Word, '/', 0).value;
    assert InClass(m.0[0], Word) && InClass(m.1[0], Word);
    (m.0[0], m.1[0])
  }

  function Compile(steps: seq<string>): (pairs: seq<(char, char)>)
    requires forall i :: 0 <= i < |steps| ==> D.IsPartnerStep(steps[i])
    ensures |pairs| == |steps| && SmallPairs(pairs)
  {
    seq(|steps|, i requires 0 <= i < |steps| => CompileStep(steps[i]))
  }

  lemma InitInRange(p: seq<char>, k: nat)
    requires Small(p) && k <= |p|
    ensures InRange(InitPositions(p, k), |p|)
  {
  }

  lemma {:induction false} RoundInRange(pos: seq<int>, pairs: seq<(char, char)>, k: nat, n: nat)
    requires InRange(pos, n) && SmallPairs(pairs) && k <= |pairs|
    ensures InRange(Round(pos, pairs, k), n)
  {
    if k > 0 {
      RoundInRange(pos, pairs, k - 1, n);
    }
  }

  lemma {:induction false} RoundsInRange(pos: seq<int>, pairs: seq<(char, char)>, t: nat, n: nat)
    requires InRange(pos, n) && SmallPairs(pairs)
    ensures InRange(Rounds(pos, pairs, t), n)
  {
    if t > 0 {
      RoundsInRange(pos, pairs, t - 1, n);
      RoundInRange(Rounds(pos, pairs, t - 1), pairs, |pairs|, n);
    }
  }

  /** danceN_partner on the line q: the table built, swapped repeat times, read back. */
  function PartnerPhase(q: seq<char>, steps: seq<string>, repeat: int): (r: seq<char>)
    requires Small(q)
    requires forall i :: 0 <= i < |steps| ==> D.IsPartnerStep(steps[i])
    ensures |r| == |q|
  {
    var init := InitPositions(q, |q|);
    var pairs := Compile(steps);
    var t: nat := if repeat > 0 then repeat else 0;
    InitInRange(q, |q|);
    RoundsInRange(init, pairs, t, |q|);
    ToBytes(q, Rounds(init, pairs, t), |q|)
  }

  // The table tracks a line: each program's entry is where it stands.

  predicate Tracks(pos: seq<int>, y: seq<char>)
  {
    |pos| == Slots && Small(y) && forall i :: 0 <= i < |y| ==> pos[y[i] as int] == i
  }

  /** Both letters of every pair stand in the line. */
  predicate PairsIn(y: seq<char>, pairs: seq<(char, char)>)
  {
    forall i :: 0 <= i < |pairs| ==> pairs[i].0 in y && pairs[i].1 in y
  }

  lemma {:induction false} InitTracksPrefix(q: seq<char>, k: nat)
    requires D.Distinct(q) && Small(q) && k <= |q|
    ensures forall i :: 0 <= i < k ==> InitPositions(q, k)[q[i] as int] == i
  {
    if k > 0 {
      InitTracksPrefix(q, k - 1);
    }
  }

  /** The table built from a line of distinct programs tracks it. */
  lemma InitTracks(q: seq<char>)
    requires D.Distinct(q) && Small(q)
    ensures Tracks(InitPositions(q, |q|), q)
  {
    InitTracksPrefix(q, |q|);
  }

  /** Swapping two entries tracks the line with the two letters renamed. */
  lemma SwapTracks(pos: seq<int>, y: seq<char>, a: char, b: char)
    requires Tracks(pos, y) && a in y && b in y
    ensures Tracks(SwapPositions(pos, a, b), D.Rename(y, a, b))
  {
    var r := D.Rename(y, a, b);
    var ia :| 0 <= ia < |y| && y[ia] == a;
    var ib :| 0 <= ib < |y| && y[ib] == b;
    forall i | 0 <= i < |r| ensures r[i] as int < Slots {
      assert r[i] == y[i] || r[i] == y[ia] || r[i] == y[ib];
    }
  }

  /** Renaming with letters of the line, in order, keeps its letters and keeps them distinct. */
  lemma {:induction false} RenameAllKeeps(y: seq<char>, pairs: seq<(char, char)>)
    requires PairsIn(y, pairs)
    ensures forall c :: c in D.RenameAll(y, pairs) <==> c in y
    ensures D.Distinct(y) ==> D.Distinct(D.RenameAll(y, pairs))
  {
    if pairs != [] {
      var front, last := pairs[..|pairs| - 1], pairs[|pairs| - 1];
      RenameAllKeeps(y, front);
      D.RenameKeeps(D.RenameAll(y, front), last.0, last.1);
    }
  }

  lemma {:induction false} RenameRoundsKeeps(y: seq<char>, pairs: seq<(char, char)>, t: nat)
    requires PairsIn(y, pairs)
    ensures forall c :: c in D.RenameRounds(y, pairs, t) <==> c in y
    ensures D.Distinct(y) ==> D.Distinct(D.RenameRounds(y, pairs, t))
  {
    if t > 0 {
      RenameRoundsKeeps(y, pairs, t - 1);
      RenameAllKeeps(D.RenameRounds(y, pairs, t - 1), pairs);
    }
  }

  /** A round of swaps tracks the line renamed by the same pairs. */
  lemma {:induction false} RoundTracks(pos: seq<int>, y: seq<char>, pairs: seq<(char, char)>, k: nat)
    requires Tracks(pos, y) && SmallPairs(pairs) && PairsIn(y, pairs) && k <= |pairs|
    ensures Tracks(Round(pos, pairs, k), D.RenameAll(y, pairs[..k]))
  {
    if k > 0 {
      var front := pairs[..k - 1];
      assert pairs[..k][..k - 1] == front;
      RoundTracks(pos, y, pairs, k - 1);
      assert PairsIn(y, front);
      RenameAllKeeps(y, front);
      SwapTracks(Round(pos, pairs, k - 1), D.RenameAll(y, front), pairs[k - 1].0, pairs[k - 1].1);
    }
  }

  lemma {:induction false} RoundsTracks(pos: seq<int>, y: seq<char>, pairs: seq<(char, char)>, t: nat)
    requires Tracks(pos, y) && SmallPairs(pairs) && PairsIn(y, pairs)
    ensures Tracks(Rounds(pos, pairs, t), D.RenameRounds(y, pairs, t))
  {
    if t > 0 {
      var z := D.RenameRounds(y, pairs, t - 1);
      RoundsTracks(pos, y, pairs, t - 1);
      RenameRoundsKeeps(y, pairs, t - 1);
      assert PairsIn(z, pairs);
      RoundTracks(Rounds(pos, pairs, t - 1), z, pairs, |pairs|);
      assert pairs[..|pairs|] == pairs;
    }
  }

  /** Reading back the first k programs of q places each where the tracked line has it. */
  lemma {:induction false} ToBytesPrefix(q: seq<char>, pos: seq<int>, y: seq<char>, k: nat)
    requires Small(q) && InRange(pos, |q|) && Tracks(pos, y) && k <= |q|
    requires |y| == |q| && D.Distinct(y) && forall c :: c in q ==> c in y
    ensures forall i :: 0 <= i < |q| ==> ToBytes(q, pos, k)[i] == if y[i] in q[..k] then y[i] else 0 as char
  {
    if k > 0 {
      ToBytesPrefix(q, pos, y, k - 1);
      var c := q[k - 1];
      assert c in q;
      var j :| 0 <= j < |y| && y[j] == c;
      assert pos[c as int] == j;
      forall i | 0 <= i < |q|
        ensures ToBytes(q, pos, k)[i] == if y[i] in q[..k] then y[i] else 0 as char
      {
        assert q[..k] == q[..k - 1] + [c];
      }
    }
  }

  /** The table read back is the line it tracks. */
  lemma ToBytesTracks(q: seq<char>, pos: seq<int>, y: seq<char>)
    requires Small(q) && InRange(pos, |q|) && Tracks(pos, y)
    requires |y| == |q| && D.Distinct(y) && forall c :: c in y <==> c in q
    ensures ToBytes(q, pos, |q|) == y
  {
    ToBytesPrefix(q, pos, y, |q|);
    assert q[..|q|] == q;
  }

  /** On distinct programs holding every partner, the partner phase is the renamings done repeat times. */
  lemma PartnerPhaseRenames(q: seq<char>, steps: seq<string>, repeat: nat)
    requires D.Distinct(q) && Small(q)
    requires forall i :: 0 <= i < |steps| ==> D.IsPartnerStep(steps[i])
    requires PairsIn(q, Compile(steps))
    ensures PartnerPhase(q, steps, repeat) == D.RenameRounds(q, Compile(steps), repeat)
  {
    var pairs := Compile(steps);
    var init := InitPositions(q, |q|);
    InitTracks(q);
    InitInRange(q, |q|);
    RoundsInRange(init, pairs, repeat, |q|);
    RoundsTracks(init, q, pairs, repeat);
    RenameRoundsKeeps(q, pairs, repeat);
    ToBytesTracks(q, Rounds(init, pairs, repeat), D.RenameRounds(q, pairs, repeat));
  }

  // ---------------------------------------------------------------------------
  // From step texts to steps

  /** Every text reads as a step. */
  predicate AllParse(ss: seq<string>)
  {
    ss == [] || (AllParse(ss[..|ss| - 1]) && D.ParseStep(ss[|ss| - 1]).Some?)
  }

  /** The steps the texts read as, in order. */
  function Parsed(ss: seq<string>): (sts: seq<D.Step>)
    requires AllParse(ss)
    ensures |sts| == |ss|
  {
    if ss == [] then []
    else
      Parsed(ss[..|ss| - 1]) + [D.ParseStep(ss[|ss| - 1]).value]
  }

  /** Every text reads as a step, and the steps fit the line p. */
  predicate Playable(p: seq<char>, ss: seq<string>)
  {
    AllParse(ss) && D.AllFit(p, Parsed(ss))
  }

  /** A list of texts is playable when its front is and its last text reads as a step that fits. */
  lemma PlayableSnoc(p: seq<char>, ss: seq<string>)
    requires ss != []
    ensures var front, s := ss[..|ss| - 1], ss[|ss| - 1];
            Playable(p, ss) <==> Playable(p, front) && D.ParseStep(s).Some? && D.Fits(p, D.ParseStep(s).value)
    ensures AllParse(ss) ==> Parsed(ss) == Parsed(ss[..|ss| - 1]) + [D.ParseStep(ss[|ss| - 1]).value]
  {
    var front, s := ss[..|ss| - 1], ss[|ss| - 1];
    assert forall i :: 0 <= i < |front| ==> front[i] == ss[i];
    assert AllParse(ss) <==> AllParse(front) && D.ParseStep(s).Some?;
    if AllParse(ss) {
      AllFitSnoc(p, Parsed(front), D.ParseStep(s).value);
    }
  }

  lemma AllParseSnoc(front: seq<string>, s: string)
    ensures AllParse(front + [s]) <==> AllParse(front) && D.ParseStep(s).Some?
  {
    assert (front + [s])[..|front|] == front;
  }

  lemma AllFitSnoc(p: seq<char>, front: seq<D.Step>, st: D.Step)
    ensures D.AllFit(p, front + [st]) <==> D.AllFit(p, front) && D.Fits(p, st)
  {
    assert forall i :: 0 <= i < |front| ==> (front + [st])[i] == front[i];
    assert (front + [st])[|front|] == st;
  }

  /** Calling step() on each text succeeds exactly when the texts are playable, and then plays their steps. */
  lemma {:induction false} RunStepsPlays(p: seq<char>, ss: seq<string>)
    ensures D.RunSteps(p, ss).Some? <==> Playable(p, ss)
    ensures Playable(p, ss) ==> D.RunSteps(p, ss) == Some(D.PlayAll(p, Parsed(ss)))
  {
    if ss != [] {
      var front, s := ss[..|ss| - 1], ss[|ss| - 1];
      RunStepsPlays(p, front);
      PlayableSnoc(p, ss);
      match D.RunSteps(p, front)
      case None =>
      case Some(q) =>
        match D.ParseStep(s)
        case None =>
        case Some(st) =>
          if D.Fits(p, st) {
            D.FitsLater(p, q, st);
          } else if D.Fits(q, st) {
            D.FitsLater(q, p, st);
          }
    }
  }

  lemma ParsedSnoc(front: seq<string>, s: string)
    requires AllParse(front + [s])
    ensures AllParse(front) && D.ParseStep(s).Some?
    ensures Parsed(front + [s]) == Parsed(front) + [D.ParseStep(s).value]
  {
    assert (front + [s])[..|front|] == front;
  }

  // ---------------------------------------------------------------------------
  // How danceN sorts the steps

  /** The texts stepPartnerRe does not match, in order. */
  function NonPartners(ss: seq<string>): (r: seq<string>)
    ensures forall i :: 0 <= i < |r| ==> !D.IsPartnerStep(r[i])
  {
    if ss == [] then []
    else
      var front, s := NonPartners(ss[..|ss| - 1]), ss[|ss| - 1];
      if D.IsPartnerStep(s) then front else front + [s]
  }

  /** The texts stepPartnerRe matches, in order. */
  function Partners(ss: seq<string>): (r: seq<string>)
    ensures forall i :: 0 <= i < |r| ==> D.IsPartnerStep(r[i])
  {
    if ss == [] then []
    else
      var front, s := Partners(ss[..|ss| - 1]), ss[|ss| - 1];
      if D.IsPartnerStep(s) then front + [s] else front
  }

  /**
   * Every text reads as a step, and danceN's sorting agrees with step()'s
   * reading: a text matches stepPartnerRe exactly when step() reads it as a
   * partner swap. (A text such as "pa/s1" matches both `s(\d+)` and
   * `p(\w+)/(\w+)`: step() spins it, danceN swaps partners with it.)
   */
  predicate Consistent(ss: seq<string>)
  {
    AllParse(ss) && SortedAlike(ss)
  }

  predicate SortedAlike(ss: seq<string>)
    requires AllParse(ss)
  {
    ss == []
    || (SortedAlike(ss[..|ss| - 1]) && (D.ParseStep(ss[|ss| - 1]).value.Partner? <==> D.IsPartnerStep(ss[|ss| - 1])))
  }

  /** A text that step() reads as a partner swap matches stepPartnerRe and compiles to the same two letters. */
  lemma ParsePartner(s: string)
    requires D.ParseStep(s).Some? && D.ParseStep(s).value.Partner?
    ensures D.IsPartnerStep(s)
    ensures D.ParseStep(s).value == D.Partner(CompileStep(s).0, CompileStep(s).1)
  {
  }

  lemma {:induction false} NonPartnersMoves(ss: seq<string>)
    requires Consistent(ss)
    ensures AllParse(NonPartners(ss))
    ensures Parsed(NonPartners(ss)) == D.MovesOf(Parsed(ss))
  {
    if ss != [] {
      var front, s := ss[..|ss| - 1], ss[|ss| - 1];
      NonPartnersMoves(front);
      if !D.IsPartnerStep(s) {
        assert NonPartners(ss) == NonPartners(front) + [s];
        assert AllParse(NonPartners(ss)) by {
          AllParseSnoc(NonPartners(front), s);
        }
        ParsedSnoc(NonPartners(front), s);
      }
    }
  }

  lemma CompileSnoc(front: seq<string>, s: string)
    requires forall i :: 0 <= i < |front| ==> D.IsPartnerStep(front[i])
    requires D.IsPartnerStep(s)
    ensures Compile(front + [s]) == Compile(front) + [CompileStep(s)]
  {
    assert forall i :: 0 <= i < |front| ==> (front + [s])[i] == front[i];
  }

  lemma {:induction false} PartnersPairs(ss: seq<string>)
    requires Consistent(ss)
    ensures Compile(Partners(ss)) == D.PairsOf(Parsed(ss))
  {
    if ss != [] {
      var front, s := ss[..|ss| - 1], ss[|ss| - 1];
      PartnersPairs(front);
      var sts := Parsed(ss);
      assert sts[..|sts| - 1] == Parsed(front);
      var st := sts[|sts| - 1];
      if D.IsPartnerStep(s) {
        ParsePartner(s);
        assert Partners(ss) == Partners(front) + [s];
        CompileSnoc(Partners(front), s);
        assert D.PairsOf(sts) == D.PairsOf(Parsed(front)) + [(st.first, st.second)];
      } else {
        assert Partners(ss) == Partners(front);
        assert !st.Partner?;
      }
    }
  }

  /** Both letters of every partner swap that fits the line stand in it. */
  lemma {:induction false} PairsOfIn(p: seq<char>, sts: seq<D.Step>)
    requires D.AllFit(p, sts)
    ensures PairsIn(p, D.PairsOf(sts))
  {
    if sts != [] {
      var front := sts[..|sts| - 1];
      assert D.AllFit(p, front);
      PairsOfIn(p, front);
      assert D.Fits(p, sts[|sts| - 1]);
    }
  }

  // ---------------------------------------------------------------------------
  // danceN against dancing the steps in order

  /** danceN(dance, repeat): None where one of its phases panics. */
  function DanceNSpec(p: seq<char>, dance: string, repeat: int): (r: Option<seq<char>>)
    ensures r.Some? ==> |r.value| == |p|
  {
    var ss := Split(dance, ',');
    match NonPartnerPhase(p, NonPartners(ss), repeat)
    case None => None
    case Some(q) => if Small(q) then Some(PartnerPhase(q, Partners(ss), repeat)) else None
  }

  /** The reference: step() on every text of the dance in order, k times over. */
  function DanceTimes(p: seq<char>, ss: seq<string>, k: nat): Option<seq<char>>
  {
    if k == 0 then Some(p)
    else
      match DanceTimes(p, ss, k - 1)
      case None => None
      case Some(y) => D.RunSteps(y, ss)
  }

  lemma {:induction false} DanceTimesRepeat(p: seq<char>, ss: seq<string>, sts: seq<D.Step>, k: nat)
    requires AllParse(ss) && sts == Parsed(ss) && D.AllFit(p, sts)
    ensures DanceTimes(p, ss, k) == Some(D.Repeat(p, sts, k))
  {
    if k > 0 {
      DanceTimesRepeat(p, ss, sts, k - 1);
      var y := D.Repeat(p, sts, k - 1);
      D.AllFitLater(p, y, sts);
      RunStepsPlays(y, ss);
    }
  }

  /** Gathering through a bijection keeps the letters of the line, and keeps them distinct. */
  lemma GatherKeeps(x: seq<char>, s: seq<int>, t: seq<int>)
    requires D.Inverse(s, t, |x|)
    ensures forall c :: c in D.Gather(x, s) <==> c in x
    ensures D.Distinct(x) ==> D.Distinct(D.Gather(x, s))
  {
    var g := D.Gather(x, s);
    forall c | c in x ensures c in g {
      var i :| 0 <= i < |x| && x[i] == c;
      assert g[t[i]] == c;
    }
    if D.Distinct(x) {
      D.GatherDistinct(x, s, t);
    }
  }

  lemma {:induction false} GatherRoundsKeeps(p: seq<char>, s: seq<int>, t: seq<int>, k: nat)
    requires D.Inverse(s, t, |p|)
    ensures forall c :: c in D.GatherRounds(p, s, k) <==> c in p
    ensures D.Distinct(p) ==> D.Distinct(D.GatherRounds(p, s, k))
  {
    if k > 0 {
      GatherRoundsKeeps(p, s, t, k - 1);
      GatherKeeps(D.GatherRounds(p, s, k - 1), s, t);
    }
  }

  lemma SmallLetters(p: seq<char>, q: seq<char>)
    requires Small(p) && forall c :: c in q ==> c in p
    ensures Small(q)
  {
    forall i | 0 <= i < |q| ensures q[i] as int < Slots {
      assert q[i] in p;
    }
  }

  /** Running the positional texts of a dance step by step gathers through the moves' map. */
  lemma NonPartnersRun(p: seq<char>, ss: seq<string>, sts: seq<D.Step>, s: seq<int>)
    requires Consistent(ss) && sts == Parsed(ss) && D.AllFit(p, sts)
    requires D.MovesFor(|p|, D.MovesOf(sts)) && s == D.SrcOf(|p|, D.MovesOf(sts))
    ensures D.RunSteps(p, NonPartners(ss)) == Some(D.Gather(p, s))
  {
    var moves := D.MovesOf(sts);
    NonPartnersMoves(ss);
    D.PlayAllGathers(p, moves);
    RunStepsPlays(p, NonPartners(ss));
  }

  /** The positional phase on the texts of a dance: the spins and exchanges gathered repeat times. */
  lemma NonPartnerPhaseGathers(p: seq<char>, ss: seq<string>, sts: seq<D.Step>, repeat: int, s: seq<int>, t: seq<int>)
    requires D.Distinct(p) && Consistent(ss) && sts == Parsed(ss) && D.AllFit(p, sts) && repeat >= 1
    requires D.MovesFor(|p|, D.MovesOf(sts))
    requires s == D.SrcOf(|p|, D.MovesOf(sts)) && t == D.DstOf(|p|, D.MovesOf(sts))
    ensures D.Inverse(s, t, |p|)
    ensures NonPartnerPhase(p, NonPartners(ss), repeat) == Some(D.GatherRounds(p, s, repeat))
  {
    D.SrcDstInverse(|p|, D.MovesOf(sts));
    NonPartnersRun(p, ss, sts, s);
    MoveToInverse(p, s, t);
    ReplayRounds(p, s, t, repeat - 1);
  }

  /**
   * On a line of distinct programs, when the dance's texts read the same way
   * to step() and to danceN and dancing them in order does not panic,
   * danceN(dance, repeat) for repeat >= 1 is dancing the whole dance in order
   * repeat times.
   */
  lemma DanceNRepeats(p: seq<char>, dance: string, repeat: int)
    requires D.Distinct(p) && Small(p)
    requires Consistent(Split(dance, ',')) && D.RunSteps(p, Split(dance, ',')).Some?
    requires repeat >= 1
    ensures DanceNSpec(p, dance, repeat) == DanceTimes(p, Split(dance, ','), repeat)
  {
    var ss := Split(dance, ',');
    RunStepsPlays(p, ss);
    var sts := Parsed(ss);
    DanceTimesRepeat(p, ss, sts, repeat);
    D.RepeatSplits(p, sts, repeat);
    var s, t := D.SrcOf(|p|, D.MovesOf(sts)), D.DstOf(|p|, D.MovesOf(sts));
    NonPartnerPhaseGathers(p, ss, sts, repeat, s, t);
    var g := D.GatherRounds(p, s, repeat);
    GatherRoundsKeeps(p, s, t, repeat);
    SmallLetters(p, g);
    PartnersPairs(ss);
    PairsOfIn(p, sts);
    PartnerPhaseRenames(g, Partners(ss), repeat);
  }

  /** dance(d) is danceN(d, 1): on such dances, the same line as step() on each text in order. */
  lemma DanceInOrder(p: seq<char>, dance: string)
    requires D.Distinct(p) && Small(p)
    requires Consistent(Split(dance, ',')) && D.RunSteps(p, Split(dance, ',')).Some?
    ensures DanceNSpec(p, dance, 1) == D.RunSteps(p, Split(dance, ','))
  {
    DanceNRepeats(p, dance, 1);
  }

  /** Dancing step by step keeps the programs distinct and keeps their letters. */
  lemma RunStepsKeeps(p: seq<char>, ss: seq<string>)
    requires D.Distinct(p) && Small(p) && D.RunSteps(p, ss).Some?
    ensures D.Distinct(D.RunSteps(p, ss).value) && Small(D.RunSteps(p, ss).value)
  {
    var q := D.RunSteps(p, ss).value;
    RunStepsPlays(p, ss);
    D.PlayAllDistinct(p, Parsed(ss));
    forall c | c in q ensures c in p {
      assert c in multiset(q);
    }
    SmallLetters(p, q);
  }

  /** With no rounds, the table is built and read back unchanged. */
  lemma NoRounds(q: seq<char>, steps: seq<string>, repeat: int)
    requires D.Distinct(q) && Small(q) && repeat <= 0
    requires forall i :: 0 <= i < |steps| ==> D.IsPartnerStep(steps[i])
    ensures PartnerPhase(q, steps, repeat) == q
  {
    InitTracks(q);
    InitInRange(q, |q|);
    ToBytesTracks(q, InitPositions(q, |q|), q);
  }

  /** With repeat <= 0, danceN still dances the spins and exchanges once, and no partner swap. */
  lemma DanceNZero(p: seq<char>, dance: string, repeat: int)
    requires D.Distinct(p) && Small(p) && repeat <= 0
    ensures DanceNSpec(p, dance, repeat) == D.RunSteps(p, NonPartners(Split(dance, ',')))
  {
    var ss := Split(dance, ',');
    if D.RunSteps(p, NonPartners(ss)).Some? {
      RunStepsKeeps(p, NonPartners(ss));
      NoRounds(D.RunSteps(p, NonPartners(ss)).value, Partners(ss), repeat);
    }
  }

  /** When dancing all the texts succeeds, so does dancing any prefix of them. */
  lemma {:induction false} RunStepsPrefix(p: seq<char>, ss: seq<string>, i: nat)
    requires D.RunSteps(p, ss).Some? && i <= |ss|
    ensures D.RunSteps(p, ss[..i]).Some?
  {
    if i < |ss| {
      var front := ss[..|ss| - 1];
      RunStepsPrefix(p, front, i);
      assert front[..i] == ss[..i];
    } else {
      assert ss[..i] == ss;
    }
  }

  /** A line whose first spin places hold the last spin programs and whose others hold the rest is the spin. */
  lemma RotatedAt(line: seq<char>, spin: nat, r: seq<char>)
    requires 0 < spin <= |line| && |r| == |line|
    requires forall k :: 0 <= k < spin ==> r[k] == line[|line| - spin + k]
    requires forall k :: spin <= k < |line| ==> r[k] == line[k - spin]
    ensures r == D.Play(line, D.Spin(spin))
  {
    D.SpinMovesTail(line, spin);
  }

  /** The next text of a dance that runs through is a step that runs on the line reached so far. */
  lemma RunStepsNext(p: seq<char>, ss: seq<string>, i: nat, q: seq<char>)
    requires D.RunSteps(p, ss).Some? && i < |ss| && D.RunSteps(p, ss[..i]) == Some(q)
    ensures D.StepText(q, ss[i]).Some?
    ensures D.RunSteps(p, ss[..i + 1]) == D.StepText(q, ss[i])
  {
    RunStepsPrefix(p, ss, i + 1);
    assert ss[..i + 1][..i] == ss[..i];
  }

  /** The positional phase of a dance that runs through to q: q's permutation replayed. */
  lemma NonPartnerPhaseOf(p: seq<char>, steps: seq<string>, repeat: int, q: seq<char>)
    requires D.RunSteps(p, steps) == Some(q)
    ensures multiset(p) == multiset(q) && D.IsMap(MoveTo(p, q), |q|)
    ensures NonPartnerPhase(p, steps, repeat) == Some(Replay(q, MoveTo(p, q), Replays(repeat)))
  {
    MoveToIsMap(p, q);
  }

  /** What danceN needs of its phases when it runs through. */
  lemma DanceNPhases(p: seq<char>, dance: string, repeat: int)
    requires DanceNSpec(p, dance, repeat).Some?
    ensures var ss := Split(dance, ',');
            D.RunSteps(p, NonPartners(ss)).Some?
            && NonPartnerPhase(p, NonPartners(ss), repeat).Some?
            && Small(NonPartnerPhase(p, NonPartners(ss), repeat).value)
            && DanceNSpec(p, dance, repeat)
               == Some(PartnerPhase(NonPartnerPhase(p, NonPartners(ss), repeat).value, Partners(ss), repeat))
  {
  }

  // ---------------------------------------------------------------------------
  // ProgramDance

  class ProgramDance {
    var programs: seq<char>

    /** NewProgramDance(size): the first size letters; a negative size or one above 26 panics. */
    constructor (size: int)
      requires 0 <= size <= 26
      ensures programs == D.Letters(size)
    {
      var line := new char[size];
      for j := 0 to size
        invariant forall k :: 0 <= k < j ==> line[k] == D.Letters(size)[k]
      {
        line[j] := ('a' as int + j) as char;
      }
      programs := line[..];
    }

    /** step(text): one spin, exchange or partner swap; panics are ruled out by the precondition. */
    method Step(step: string)
      requires D.StepText(programs, step).Some?
      modifies this
      ensures programs == D.StepText(old(programs), step).value
    {
      var st := D.ParseStep(step).value;
      assert D.Fits(programs, st) && D.StepText(programs, step).value == D.Play(programs, st);
      match st
      case Spin(spin) =>
        if spin != 0 {
          SpinBy(spin);
        }
      case Exchange(a, b) =>
        programs := programs[a := programs[b]][b := programs[a]];
      case Partner(first, second) =>
        var a := IndexOf(programs, first);
        var b := IndexOf(programs, second);
        programs := programs[a := programs[b]][b := programs[a]];
    }

    /** step()'s spin: the last spin programs copied to the front of a new line, the rest after them. */
    method SpinBy(spin: nat)
      requires 0 < spin <= |programs|
      modifies this
      ensures programs == D.Play(old(programs), D.Spin(spin))
    {
      var line := programs;
      var n := |line|;
      var np := new char[n];
      for i := 0 to spin
        invariant forall k :: 0 <= k < i ==> np[k] == line[n - spin + k]
      {
        np[i] := line[n - spin + i];
      }
      for i := spin to n
        invariant forall k :: 0 <= k < spin ==> np[k] == line[n - spin + k]
        invariant forall k :: spin <= k < i ==> np[k] == line[k - spin]
      {
        np[i] := line[i - spin];
      }
      RotatedAt(line, spin, np[..]);
      programs := np[..];
    }

    /** dance(text) is danceN(text, 1). */
    method Dance(dance: string)
      requires DanceNSpec(programs, dance, 1).Some?
      modifies this
      ensures programs == DanceNSpec(old(programs), dance, 1).value
    {
      DanceN(dance, 1);
    }

    /** danceN(text, repeat): sort the texts, then run the two phases. */
    method DanceN(dance: string, repeat: int)
      requires DanceNSpec(programs, dance, repeat).Some?
      modifies this
      ensures programs == DanceNSpec(old(programs), dance, repeat).value
    {
      var nonPartnerSteps, partnerSteps := SortSteps(Split(dance, ','));
      DanceNPhases(programs, dance, repeat);
      DanceNNonPartner(nonPartnerSteps, repeat);
      DanceNPartner(partnerSteps, repeat);
    }

    /** step() on each text in turn. */
    method StepAll(steps: seq<string>)
      requires D.RunSteps(programs, steps).Some?
      modifies this
      ensures programs == D.RunSteps(old(programs), steps).value
    {
      ghost var save := programs;
      for i := 0 to |steps|
        invariant D.RunSteps(save, steps[..i]) == Some(programs)
      {
        RunStepsNext(save, steps, i, programs);
        Step(steps[i]);
      }
      assert steps[..|steps|] == steps;
    }

    /** danceN_nonpartner: dance once, record moveTo, replay it repeat - 1 times. */
    method DanceNNonPartner(steps: seq<string>, repeat: int)
      requires D.RunSteps(programs, steps).Some?
      modifies this
      ensures programs == NonPartnerPhase(old(programs), steps, repeat).value
    {
      var save := programs;
      StepAll(steps);
      ghost var q := programs;
      NonPartnerPhaseOf(save, steps, repeat, q);
      var moveTo := RecordMoves(save, programs);
      ReplayMoves(moveTo, repeat);
    }

    /** The loop of danceN_nonpartner: the recorded moves replayed repeat - 1 times. */
    method ReplayMoves(moveTo: seq<int>, repeat: int)
      requires D.IsMap(moveTo, |programs|)
      modifies this
      ensures programs == Replay(old(programs), moveTo, Replays(repeat))
    {
      ghost var q := programs;
      var j := 0;
      while j < repeat - 1
        invariant 0 <= j <= Replays(repeat)
        invariant programs == Replay(q, moveTo, j)
      {
        programs := ScatterLine(programs, moveTo);
        j := j + 1;
      }
    }

    /** danceN_partner: a table from letter to position, swapped for every partner step, repeat times. */
    method DanceNPartner(steps: seq<string>, repeat: int)
      requires Small(programs)
      requires forall i :: 0 <= i < |steps| ==> D.IsPartnerStep(steps[i])
      modifies this
      ensures programs == PartnerPhase(old(programs), steps, repeat)
    {
      var positions := TableOf(programs);
      var compiledSteps := CompileSteps(steps);
      ghost var init := positions[..];
      var j := 0;
      while j < repeat
        modifies positions
        invariant 0 <= j && (j <= repeat || j == 0)
        invariant positions[..] == Rounds(init, compiledSteps, j)
      {
        SwapAll(positions, compiledSteps);
        j := j + 1;
      }
      InitInRange(programs, |programs|);
      RoundsInRange(init, compiledSteps, j, |programs|);
      programs := ProgramsToByteSlice(programs, positions);
    }
  }

  /** danceN's sorting: the texts stepPartnerRe does not match, and those it does. */
  method SortSteps(ss: seq<string>) returns (nonPartnerSteps: seq<string>, partnerSteps: seq<string>)
    ensures nonPartnerSteps == NonPartners(ss) && partnerSteps == Partners(ss)
  {
    nonPartnerSteps, partnerSteps := [], [];
    for i := 0 to |ss|
      invariant nonPartnerSteps == NonPartners(ss[..i])
      invariant partnerSteps == Partners(ss[..i])
    {
      assert ss[..i + 1][..i] == ss[..i];
      if D.IsPartnerStep(ss[i]) {
        partnerSteps := partnerSteps + [ss[i]];
      } else {
        nonPartnerSteps := nonPartnerSteps + [ss[i]];
      }
    }
    assert ss[..|ss|] == ss;
  }

  /** moveTo[j] = bytes.IndexByte(cur, save[j]) for every j. */
  method RecordMoves(save: seq<char>, cur: seq<char>) returns (moveTo: seq<int>)
    ensures moveTo == MoveTo(save, cur)
  {
    var m := new int[|save|];
    for j := 0 to |save|
      invariant m[..j] == MoveTo(save, cur)[..j]
    {
      m[j] := IndexOf(cur, save[j]);
    }
    moveTo := m[..];
  }

  /** One replay: `swap[moveTo[j]] = program` for every program of a fresh zeroed line. */
  method ScatterLine(cur: seq<char>, moveTo: seq<int>) returns (r: seq<char>)
    requires D.IsMap(moveTo, |cur|)
    ensures r == Scatter(cur, moveTo, |cur|)
  {
    var swap := new char[|cur|](_ => 0 as char);
    for j := 0 to |cur|
      invariant swap[..] == Scatter(cur, moveTo, j)
    {
      swap[moveTo[j]] := cur[j];
    }
    r := swap[..];
  }

  /** danceN_partner's table: `programs[program] = j` for every program. */
  method TableOf(line: seq<char>) returns (positions: array<int>)
    requires Small(line)
    ensures fresh(positions) && positions[..] == InitPositions(line, |line|)
  {
    positions := new int[Slots](_ => 0);
    for j := 0 to |line|
      invariant positions[..] == InitPositions(line, j)
    {
      positions[line[j] as int] := j;
    }
  }

  /** The compiled steps: the first byte of each capture of stepPartnerRe, text by text. */
  method CompileSteps(steps: seq<string>) returns (compiledSteps: seq<(char, char)>)
    requires forall i :: 0 <= i < |steps| ==> D.IsPartnerStep(steps[i])
    ensures compiledSteps == Compile(steps)
  {
    compiledSteps := [];
    for i := 0 to |steps|
      invariant compiledSteps == Compile(steps[..i])
    {
      assert D.IsPartnerStep(steps[i]);
      var matches := FindPair(steps[i], 'p', Word, '/', 0).value;
      assert steps[..i + 1] == steps[..i] + [steps[i]];
      CompileSnoc(steps[..i], steps[i]);
      compiledSteps := compiledSteps + [(matches.0[0], matches.1[0])];
    }
    assert steps[..|steps|] == steps;
  }

  /** One round: `programs[a], programs[b] = programs[b], programs[a]` for every compiled step. */
  method SwapAll(positions: array<int>, compiledSteps: seq<(char, char)>)
    requires positions.Length == Slots && SmallPairs(compiledSteps)
    modifies positions
    ensures positions[..] == Round(old(positions[..]), compiledSteps, |compiledSteps|)
  {
    ghost var before := positions[..];
    for c := 0 to |compiledSteps|
      invariant positions[..] == Round(before, compiledSteps, c)
    {
      var a, b := compiledSteps[c].0 as int, compiledSteps[c].1 as int;
      positions[a], positions[b] := positions[b], positions[a];
    }
  }

  /** programsToByteSlice: every program of the line written where the table puts it. */
  method ProgramsToByteSlice(line: seq<char>, positions: array<int>) returns (np: seq<char>)
    requires Small(line) && InRange(positions[..], |line|)
    ensures np == ToBytes(line, positions[..], |line|)
  {
    var bytes := new char[|line|](_ => 0 as char);
    for k := 0 to |line|
      invariant bytes[..] == ToBytes(line, positions[..], k)
    {
      bytes[positions[line[k] as int]] := line[k];
    }
    np := bytes[..];
  }
}
