// The packet scanners of day 13: each depth of the firewall may hold a scanner
// that bounces up and down its range; a packet crosses one depth per
// picosecond and is caught at a depth whose scanner is at the top (position 0).
module Firewall {
  import opened Common

  // ---------------------------------------------------------------------------
  // One scanner

  /** A scanner's state; `up` is the Go scannerDirectionUp (true), `!up` is Down. */
  datatype Scanner = Scanner(srange: int, position: int, up: bool)

  /** ScannerState.tock: one step in the current direction, turning back at either end. */
  function Tocked(s: Scanner): (r: Scanner)
    ensures r.srange == s.srange
    ensures !s.up && s.position + 1 < s.srange ==> r == s.(position := s.position + 1)
    ensures s.up && s.position >= 1 ==> r == s.(position := s.position - 1)
    ensures r.up != s.up <==> (if s.up then s.position < 1 else s.position + 1 >= s.srange)
  {
    if !s.up then
      if s.position + 1 >= s.srange then Scanner(s.srange, s.position + 1 - 2, !s.up)
      else s.(position := s.position + 1)
    else
      if s.position - 1 < 0 then Scanner(s.srange, s.position - 1 + 2, !s.up)
      else s.(position := s.position - 1)
  }

  /** A scanner with a range of at least two never leaves its range. */
  lemma TockStaysInRange(s: Scanner)
    requires s.srange >= 2 && 0 <= s.position < s.srange
    ensures 0 <= Tocked(s).position < Tocked(s).srange
  {
  }

  /** The state NewTrip gives a scanner: at the top, moving down. */
  function Start(srange: int): Scanner
  {
    Scanner(srange, 0, false)
  }

  /** n tocks in a row. */
  function Tocks(s: Scanner, n: nat): (r: Scanner)
    ensures r.srange == s.srange
  {
    if n == 0 then s else Tocked(Tocks(s, n - 1))
  }

  /** The position k steps into a round trip over a range of r: down to r - 1, then back up. */
  function Bounce(r: int, k: int): int
  {
    if k < r then k else 2 * (r - 1) - k
  }

  /** The scanner t tocks after the start, in closed form: periodic in 2(r - 1) once it has moved. */
  function Phase(r: int, t: nat): Scanner
    requires r >= 2
  {
    if t == 0 then Start(r)
    else
      var k := t % (2 * (r - 1));
      Scanner(r, Bounce(r, k), !(1 <= k < r))
  }

  lemma TockPhase(r: int, t: nat)
    requires r >= 2
    ensures Tocked(Phase(r, t)) == Phase(r, t + 1)
  {
    var p := 2 * (r - 1);
    if t > 0 {
      var k := t % p;
      assert Phase(r, t) == Scanner(r, Bounce(r, k), !(1 <= k < r));
      ModSucc(t, p);
      if k + 1 < p {
        ModUnique(k + 1, p, 0, k + 1);
        assert Phase(r, t + 1) == Scanner(r, Bounce(r, k + 1), !(1 <= k + 1 < r));
        TockInside(r, k);
      } else {
        ModUnique(k + 1, p, 1, 0);
        assert Phase(r, t + 1) == Scanner(r, 0, true);
        TockLast(r, k);
      }
    } else {
      assert Phase(r, 1) == Scanner(r, 1, false) by { ModUnique(1, p, 0, 1); }
    }
  }

  /** The last tock of a round trip brings the scanner back to the top. */
  lemma TockLast(r: int, k: int)
    requires r >= 2 && k + 1 == 2 * (r - 1)
    ensures Tocked(Scanner(r, Bounce(r, k), !(1 <= k < r))) == Scanner(r, 0, true)
  {
  }

  /** One tock inside a round trip, before its last step. */
  lemma TockInside(r: int, k: int)
    requires r >= 2 && 0 <= k && k + 1 < 2 * (r - 1)
    ensures Tocked(Scanner(r, Bounce(r, k), !(1 <= k < r))) == Scanner(r, Bounce(r, k + 1), !(1 <= k + 1 < r))
  {
  }

  /** The simulation agrees with the closed form at every time. */
  lemma {:induction false} TocksPhase(r: int, t: nat)
    requires r >= 2
    ensures Tocks(Start(r), t) == Phase(r, t)
  {
    if t > 0 {
      TocksPhase(r, t - 1);
      TockPhase(r, t - 1);
    }
  }

  /** A scanner of range r >= 2 is at the top exactly at the multiples of 2(r - 1). */
  lemma AtTopWhen(r: int, t: nat)
    requires r >= 2
    ensures Tocks(Start(r), t).position == 0 <==> t % (2 * (r - 1)) == 0
    ensures 0 <= Tocks(Start(r), t).position < r
  {
    TocksPhase(r, t);
  }

  /** A scanner of range 1 alternates between position 0 and position -1. */
  lemma {:induction false} RangeOneFlips(t: nat)
    ensures Tocks(Start(1), t) == Scanner(1, if t % 2 == 0 then 0 else -1, t % 2 == 1)
  {
    if t > 0 {
      RangeOneFlips(t - 1);
    }
  }

  // ---------------------------------------------------------------------------
  // Trips as values

  /** A trip: the packet's depth, the scanner at each depth (None where Go holds nil), and the tally. */
  datatype TripState = TripState(packetPos: int, scanners: seq<Option<Scanner>>, severity: int, caught: bool)

  /** Trip.tock: every present scanner moves; empty depths stay empty. */
  function TockAll(scanners: seq<Option<Scanner>>): (r: seq<Option<Scanner>>)
    ensures |r| == |scanners|
  {
    seq(|scanners|, i requires 0 <= i < |scanners| =>
      if scanners[i].Some? then Some(Tocked(scanners[i].value)) else None)
  }

  function TockTrip(t: TripState): TripState
  {
    t.(scanners := TockAll(t.scanners))
  }

  function TockTrips(t: TripState, n: nat): (r: TripState)
    ensures r == t.(scanners := r.scanners) && |r.scanners| == |t.scanners|
  {
    if n == 0 then t else TockTrip(TockTrips(t, n - 1))
  }

  /** The packet can move one depth further without leaving the firewall. */
  predicate CanTick(t: TripState)
  {
    -1 <= t.packetPos < |t.scanners| - 1
  }

  /** Trip.tick: the packet enters the next depth, and a scanner at the top there catches it. */
  function TickTrip(t: TripState): (r: TripState)
    requires CanTick(t)
    ensures r.packetPos == t.packetPos + 1 && r.scanners == t.scanners
    ensures r.caught <==> t.caught || AtTop(t.scanners[r.packetPos])
    ensures r.severity == t.severity + if AtTop(t.scanners[r.packetPos]) then t.scanners[r.packetPos].value.srange * r.packetPos else 0
  {
    var p := t.packetPos + 1;
    match t.scanners[p]
    case None => t.(packetPos := p)
    case Some(s) =>
      if s.position == 0 then TripState(p, t.scanners, t.severity + s.srange * p, true)
      else t.(packetPos := p)
  }

  predicate AtTop(s: Option<Scanner>)
  {
    s.Some? && s.value.position == 0
  }

  /** The loop of tripSeverity: tick and tock until the packet is at the last depth. */
  function Travel(t: TripState): (r: TripState)
    requires t.packetPos >= -1
    ensures r.packetPos == if t.packetPos < |t.scanners| - 1 then |t.scanners| - 1 else t.packetPos
    ensures |r.scanners| == |t.scanners|
    decreases |t.scanners| - t.packetPos
  {
    if t.packetPos < |t.scanners| - 1 then Travel(TockTrip(TickTrip(t))) else t
  }

  // ---------------------------------------------------------------------------
  // The descriptor and the trip it starts

  /** depth -> range, as NewFirewall builds it. */
  type Descriptor = map<int, int>

  /** maxDepth: the largest depth, or -1 (also when every depth is below -1). */
  ghost function MaxDepthOf(desc: Descriptor): (r: int)
    ensures r >= -1
    ensures forall d :: d in desc ==> d <= r
    ensures r == -1 || r in desc
    ensures desc == map[] ==> r == -1
    decreases |desc|
  {
    if desc.Keys == {} then -1
    else
      assert exists x :: x in desc.Keys by { if forall x :: x !in desc.Keys { assert false; } }
      var d :| d in desc.Keys;
      var rest := desc - {d};
      assert rest.Keys == desc.Keys - {d};
      assert |rest| < |desc|;
      var m := MaxDepthOf(rest);
      assert forall e :: e in desc ==> e == d || e in rest;
      if d > m then d else m
  }

  /** The depths a trip over `desc` can enter: NewTrip indexes its slice with each of them. */
  predicate ValidDepths(desc: Descriptor)
  {
    forall d :: d in desc ==> d >= 0
  }

  /** Depths 0 .. n - 1 after k tocks: a scanner where `desc` has one, started at the top. */
  function Layout(desc: Descriptor, n: nat, k: nat): (r: seq<Option<Scanner>>)
    ensures |r| == n
  {
    seq(n, i requires 0 <= i < n => if i in desc then Some(Tocks(Start(desc[i]), k)) else None)
  }

  /** NewTrip: one slot per depth up to maxDepth, the packet before depth 0. */
  ghost function NewTripValue(desc: Descriptor): (r: TripState)
    requires ValidDepths(desc)
    ensures r.packetPos == -1 && r.severity == 0 && !r.caught
    ensures |r.scanners| == MaxDepthOf(desc) + 1
    ensures forall d :: d in desc ==> r.scanners[d] == Some(Start(desc[d]))
  {
    TripState(-1, Layout(desc, MaxDepthOf(desc) + 1, 0), 0, false)
  }

  /** What tripSeverity returns: wait `delay` tocks (none when delay <= 0), then cross. */
  ghost function TripOutcome(desc: Descriptor, delay: int): (int, bool)
    requires ValidDepths(desc)
  {
    var t := Travel(TockTrips(NewTripValue(desc), if delay > 0 then delay else 0));
    (t.severity, t.caught)
  }

  // ---------------------------------------------------------------------------
  // What a trip adds up to

  /** The packet, leaving after `delay`, meets the scanner at depth d at the top. */
  predicate Hit(desc: Descriptor, delay: nat, d: nat)
  {
    d in desc && Tocks(Start(desc[d]), delay + d).position == 0
  }

  /** The severity of the catches at depths p .. n - 1. */
  function SeverityFrom(desc: Descriptor, delay: nat, p: nat, n: nat): int
    decreases n - p
  {
    if p >= n then 0
    else (if Hit(desc, delay, p) then desc[p] * p else 0) + SeverityFrom(desc, delay, p + 1, n)
  }

  /** Whether some depth in p .. n - 1 catches the packet. */
  function CaughtFrom(desc: Descriptor, delay: nat, p: nat, n: nat): (r: bool)
    ensures r <==> exists d :: p <= d < n && Hit(desc, delay, d)
    decreases n - p
  {
    if p >= n then false
    else Hit(desc, delay, p) || CaughtFrom(desc, delay, p + 1, n)
  }

  /** After k tocks of the trip NewTrip builds, each depth's scanner has made k steps. */
  lemma TockTripsScanners(desc: Descriptor, k: nat, d: int)
    requires ValidDepths(desc) && d in desc
    ensures var t := TockTrips(NewTripValue(desc), k);
      t.packetPos == -1 && t.scanners[d] == Some(Tocks(Start(desc[d]), k))
  {
    var n: nat := MaxDepthOf(desc) + 1;
    assert NewTripValue(desc) == TripState(-1, Layout(desc, n, 0), 0, false);
    TockTripsLayout(desc, n, k);
  }

  lemma TockLayout(desc: Descriptor, n: nat, k: nat)
    ensures TockAll(Layout(desc, n, k)) == Layout(desc, n, k + 1)
  {
  }

  lemma {:induction false} TockTripsLayout(desc: Descriptor, n: nat, k: nat)
    ensures TockTrips(TripState(-1, Layout(desc, n, 0), 0, false), k) == TripState(-1, Layout(desc, n, k), 0, false)
  {
    if k > 0 {
      TockTripsLayout(desc, n, k - 1);
      TockLayout(desc, n, k - 1);
    }
  }

  /** One tick and tock at depth p: the packet enters depth p at time delay + p. */
  lemma StepAt(desc: Descriptor, delay: nat, n: nat, p: nat, sev: int, c: bool)
    requires p < n
    ensures var hit := Hit(desc, delay, p);
      TockTrip(TickTrip(TripState(p - 1, Layout(desc, n, delay + p), sev, c)))
      == TripState(p, Layout(desc, n, delay + p + 1), sev + (if hit then desc[p] * p else 0), c || hit)
  {
    var t := TripState(p - 1, Layout(desc, n, delay + p), sev, c);
    var s := t.scanners[p];
    assert AtTop(s) <==> Hit(desc, delay, p);
    assert AtTop(s) ==> s.value.srange == desc[p];
    TockLayout(desc, n, delay + p);
  }

  /** The crossing from depth p on. */
  lemma {:induction false} TravelFrom(desc: Descriptor, delay: nat, n: nat, p: nat, t: TripState)
    requires p <= n && t.packetPos == p - 1 && t.scanners == Layout(desc, n, delay + p)
    ensures Travel(t).scanners == Layout(desc, n, delay + n)
    ensures Travel(t).severity == t.severity + SeverityFrom(desc, delay, p, n)
    ensures Travel(t).caught == (t.caught || CaughtFrom(desc, delay, p, n))
    decreases n - p
  {
    if p < n {
      var hit := Hit(desc, delay, p);
      StepAt(desc, delay, n, p, t.severity, t.caught);
      var next := TockTrip(TickTrip(t));
      assert Travel(t) == Travel(next);
      TravelFrom(desc, delay, n, p + 1, next);
      assert SeverityFrom(desc, delay, p, n) == (if hit then desc[p] * p else 0) + SeverityFrom(desc, delay, p + 1, n);
      assert CaughtFrom(desc, delay, p, n) == (hit || CaughtFrom(desc, delay, p + 1, n));
    }
  }

  /** tripSeverity adds depth times range over the depths that catch the packet; it is caught iff some depth does. */
  lemma TripOutcomeIs(desc: Descriptor, delay: nat)
    requires ValidDepths(desc)
    ensures TripOutcome(desc, delay).0 == SeverityFrom(desc, delay, 0, MaxDepthOf(desc) + 1)
    ensures TripOutcome(desc, delay).1 == CaughtFrom(desc, delay, 0, MaxDepthOf(desc) + 1)
  {
    var n: nat := MaxDepthOf(desc) + 1;
    assert NewTripValue(desc) == TripState(-1, Layout(desc, n, 0), 0, false);
    TockTripsLayout(desc, n, delay);
    var waited := TripState(-1, Layout(desc, n, delay + 0), 0, false);
    assert TripOutcome(desc, delay) == (Travel(waited).severity, Travel(waited).caught);
    TravelFrom(desc, delay, n, 0, waited);
  }

  /** Caught iff some scanner is at the top when the packet reaches its depth. */
  lemma CaughtIff(desc: Descriptor, delay: nat)
    requires ValidDepths(desc)
    ensures TripOutcome(desc, delay).1 <==> Caught(desc, delay)
  {
    TripOutcomeIs(desc, delay);
    var n := MaxDepthOf(desc) + 1;
    if exists d: nat :: Hit(desc, delay, d) {
      var d: nat :| Hit(desc, delay, d);
      assert d < n;
    }
  }

  /** For ranges of at least two, the catches are the depths d with delay + d a multiple of 2(range - 1). */
  lemma HitWhen(desc: Descriptor, delay: nat, d: nat)
    requires d in desc && desc[d] >= 2
    ensures Hit(desc, delay, d) <==> (delay + d) % (2 * (desc[d] - 1)) == 0
  {
    AtTopWhen(desc[d], delay + d);
  }

  /** Whether the trip leaving after `delay` is caught: some depth's scanner is at the top when the packet enters it. */
  ghost predicate Caught(desc: Descriptor, delay: nat)
  {
    exists d: nat :: Hit(desc, delay, d)
  }

  /** Every trip leaving before `delay` is caught. */
  ghost predicate CaughtBefore(desc: Descriptor, delay: nat)
  {
    delay > 0 ==> Caught(desc, delay - 1) && CaughtBefore(desc, delay - 1)
  }

  lemma {:induction false} CaughtBeforeIff(desc: Descriptor, delay: nat)
    ensures CaughtBefore(desc, delay) <==> forall e :: 0 <= e < delay ==> Caught(desc, e)
  {
    if delay > 0 {
      CaughtBeforeIff(desc, delay - 1);
    }
  }

  /** A delay every earlier one of which is caught cannot pass a delay known to get through. */
  lemma CaughtBeforeBound(desc: Descriptor, delay: nat, bound: nat)
    requires CaughtBefore(desc, delay) && !Caught(desc, bound)
    ensures delay <= bound
  {
    CaughtBeforeIff(desc, delay);
  }

  /** A delay that gets through after every earlier one is caught is the first to get through. */
  lemma FirstClearIs(desc: Descriptor, delay: nat)
    requires !Caught(desc, delay) && forall e: nat :: e < delay ==> Caught(desc, e)
    ensures FirstClear(desc, delay)
  {
    CaughtBeforeIff(desc, delay);
  }

  /** tripSeverityZero's answer: the least delay whose trip is not caught. */
  ghost predicate FirstClear(desc: Descriptor, delay: int)
  {
    delay >= 0 && !Caught(desc, delay) && CaughtBefore(desc, delay)
  }

  // ---------------------------------------------------------------------------
  // The example firewall: depths 0, 1, 4 and 6 with ranges 3, 2, 4 and 4

  const Example: Descriptor := map[0 := 3, 1 := 2, 4 := 4, 6 := 4]

  lemma ExampleMaxDepth()
    ensures ValidDepths(Example) && MaxDepthOf(Example) == 6
  {
    assert Example.Keys == {0, 1, 4, 6};
    assert 6 in Example;
  }

  /** The four scanners in closed form: depth 0 every 4, depth 1 every 2, depths 4 and 6 every 6. */
  lemma ExampleHits(delay: nat)
    ensures Hit(Example, delay, 0) <==> delay % 4 == 0
    ensures Hit(Example, delay, 1) <==> (delay + 1) % 2 == 0
    ensures Hit(Example, delay, 4) <==> (delay + 4) % 6 == 0
    ensures Hit(Example, delay, 6) <==> (delay + 6) % 6 == 0
    ensures !Hit(Example, delay, 2) && !Hit(Example, delay, 3) && !Hit(Example, delay, 5)
  {
    HitWhen(Example, delay, 0);
    HitWhen(Example, delay, 1);
    HitWhen(Example, delay, 4);
    HitWhen(Example, delay, 6);
  }

  /** The example's severity and catch in closed form, for every delay. */
  lemma ExampleSums(desc: Descriptor, delay: nat)
    requires desc == Example
    ensures SeverityFrom(desc, delay, 0, 7)
      == (if (delay + 1) % 2 == 0 then 2 else 0) + (if (delay + 4) % 6 == 0 then 16 else 0) + (if (delay + 6) % 6 == 0 then 24 else 0)
    ensures CaughtFrom(desc, delay, 0, 7)
      <==> delay % 4 == 0 || (delay + 1) % 2 == 0 || (delay + 4) % 6 == 0 || (delay + 6) % 6 == 0
  {
    ExampleHits(delay);
    assert SeverityFrom(desc, delay, 5, 7) == (if (delay + 6) % 6 == 0 then 24 else 0);
    assert SeverityFrom(desc, delay, 2, 7) == (if (delay + 4) % 6 == 0 then 16 else 0) + SeverityFrom(desc, delay, 5, 7);
    assert CaughtFrom(desc, delay, 0, 7) <==> Hit(desc, delay, 0) || Hit(desc, delay, 1) || Hit(desc, delay, 4) || Hit(desc, delay, 6);
  }

  /** The example's severity and catch, worked out by hand from the four scanners' periods. */
  function ExampleFormula(delay: nat): (int, bool)
  {
    ((if (delay + 1) % 2 == 0 then 2 else 0) + (if (delay + 4) % 6 == 0 then 16 else 0) + (if (delay + 6) % 6 == 0 then 24 else 0),
     delay % 4 == 0 || (delay + 1) % 2 == 0 || (delay + 4) % 6 == 0 || (delay + 6) % 6 == 0)
  }

  /** The example's trips for every delay: tripSeverity and whether the packet is caught. */
  lemma ExampleTrip(desc: Descriptor, delay: nat)
    requires desc == Example
    ensures ValidDepths(desc)
    ensures TripOutcome(desc, delay).0 == ExampleFormula(delay).0
    ensures TripOutcome(desc, delay).1 == ExampleFormula(delay).1
  {
    ExampleMaxDepth();
    TripOutcomeIs(desc, delay);
    ExampleSums(desc, delay);
  }

  /** Which delays the example catches. */
  lemma ExampleCaught(desc: Descriptor, delay: nat)
    requires desc == Example
    ensures Caught(desc, delay) == ExampleFormula(delay).1
  {
    ExampleTrip(desc, delay);
    CaughtIff(desc, delay);
  }

  /** Leaving at once: caught at depths 0 and 6, severity 0 * 3 + 6 * 4. */
  lemma ExampleSeverityAtZero(desc: Descriptor)
    requires desc == Example
    ensures ValidDepths(desc) && TripOutcome(desc, 0) == (24, true)
  {
    ExampleTrip(desc, 0);
    assert ExampleFormula(0) == (24, true);
  }

  /** Caught at depth 0 only, so caught with severity 0. */
  lemma ExampleSeverityAtFour(desc: Descriptor)
    requires desc == Example
    ensures ValidDepths(desc) && TripOutcome(desc, 4) == (0, true)
  {
    ExampleTrip(desc, 4);
    assert ExampleFormula(4) == (0, true);
  }

  lemma ExampleSeverityAtTen(desc: Descriptor)
    requires desc == Example
    ensures ValidDepths(desc) && TripOutcome(desc, 10) == (0, false)
  {
    ExampleTrip(desc, 10);
    assert ExampleFormula(10) == (0, false);
  }

  lemma ExampleFormulaBelowTen(e: nat)
    requires e < 10
    ensures ExampleFormula(e).1
  {
    if e % 2 == 1 {
      assert (e + 1) % 2 == 0;
    } else if e == 2 {
      assert (e + 4) % 6 == 0;
    } else if e == 6 {
      assert (e + 6) % 6 == 0;
    } else {
      assert e == 0 || e == 4 || e == 8;
    }
  }

  /** Every delay below 10 is caught and 10 is not: tripSeverityZero's answer for the example. */
  lemma ExampleFirstClear(desc: Descriptor, delay: nat)
    requires desc == Example && delay == 10
    ensures ValidDepths(desc) && FirstClear(desc, delay)
  {
    ExampleCaught(desc, delay);
    ExampleTenClear(delay);
    forall e: nat | e < delay
      ensures Caught(desc, e)
    {
      ExampleCaught(desc, e);
      ExampleFormulaBelowTen(e);
    }
    FirstClearIs(desc, delay);
  }

  lemma ExampleTenClear(delay: nat)
    requires delay == 10
    ensures !ExampleFormula(delay).1
  {
  }

  /** The example's NewTrip: depths 0 .. 6, the packet before depth 0. */
  lemma ExampleNewTrip(desc: Descriptor)
    requires desc == Example
    ensures ValidDepths(desc) && NewTripValue(desc) == TripState(-1, Layout(desc, 7, 0), 0, false)
  {
    ExampleMaxDepth();
  }

  /** Ticking five times without a tock: every scanner is still at the top, so depths 0, 1 and 4 catch. */
  lemma ExampleTicks(desc: Descriptor)
    requires desc == Example
    ensures var t0 := TripState(-1, Layout(desc, 7, 0), 0, false);
      var t1 := TickTrip(t0); var t2 := TickTrip(t1); var t3 := TickTrip(t2);
      var t4 := TickTrip(t3); var t5 := TickTrip(t4);
      t1.packetPos == 0 && t1.severity == 0 && t1.caught
      && t2.packetPos == 1 && t2.severity == 2
      && t3.packetPos == 2 && t4.packetPos == 3
      && t5.packetPos == 4 && t5.severity == 18
  {
    var s := Layout(desc, 7, 0);
    assert s[0] == Some(Scanner(3, 0, false)) && s[1] == Some(Scanner(2, 0, false));
    assert s[2] == None && s[3] == None && s[4] == Some(Scanner(4, 0, false));
  }

  /** Positions seen in the example's tock trace: ranges 3, 2 and 4 over four tocks. */
  lemma ExampleTocks()
    ensures Tocks(Start(3), 1).position == 1 && Tocks(Start(3), 2).position == 2
    ensures Tocks(Start(3), 3).position == 1 && Tocks(Start(3), 4).position == 0
    ensures Tocks(Start(2), 1).position == 1 && Tocks(Start(2), 2).position == 0
    ensures Tocks(Start(2), 3).position == 1 && Tocks(Start(2), 4).position == 0
    ensures Tocks(Start(4), 1).position == 1 && Tocks(Start(4), 2).position == 2
    ensures Tocks(Start(4), 3).position == 3 && Tocks(Start(4), 4).position == 2
  {
  }

  // ---------------------------------------------------------------------------
  // The Go objects

  /** The scanner states behind a slice of pointers; None where the slice holds nil. */
  ghost function ObjectsOf(states: seq<ScannerState?>): set<ScannerState>
  {
    set i | 0 <= i < |states| && states[i] != null :: states[i]
  }

  function ValuesOf(states: seq<ScannerState?>): (r: seq<Option<Scanner>>)
    reads ObjectsOf(states)
    ensures |r| == |states|
  {
    seq(|states|, i requires 0 <= i < |states| reads ObjectsOf(states) =>
      if states[i] == null then None else Some(states[i].Value()))
  }

  /** No two slots of the slice point to the same scanner. */
  predicate Distinct(states: seq<ScannerState?>)
  {
    forall i, j :: 0 <= i < j < |states| && states[i] != null ==> states[i] != states[j]
  }

  /** maxDepth, a loop over the descriptor's keys in whatever order the map yields them. */
  method MaxDepth(desc: Descriptor) returns (max: int)
    ensures max == MaxDepthOf(desc)
  {
    max := -1;
    var keys := desc.Keys;
    while keys != {}
      invariant keys <= desc.Keys
      invariant max >= -1 && (max == -1 || max in desc)
      invariant forall d :: d in desc && d !in keys ==> d <= max
      decreases keys
    {
      ghost var w := SomeMember(keys);
      var depth :| depth in keys;
      if depth > max {
        max := depth;
      }
      keys := keys - {depth};
    }
    MaxDepthUnique(desc, max);
  }

  /** The three properties of MaxDepthOf pin it down. */
  lemma MaxDepthUnique(desc: Descriptor, r: int)
    requires r >= -1 && (r == -1 || r in desc) && forall d :: d in desc ==> d <= r
    ensures r == MaxDepthOf(desc)
  {
    var m := MaxDepthOf(desc);
    if r in desc {
      assert r <= m;
    }
    if m in desc {
      assert m <= r;
    }
  }

  /** The slice NewTrip fills: a fresh scanner at the top of each described depth below n, nil elsewhere. */
  method NewScannerStates(desc: Descriptor, n: nat) returns (states: seq<ScannerState?>)
    requires forall d :: d in desc ==> 0 <= d < n
    ensures Distinct(states)
    ensures |states| == n
    ensures forall i :: 0 <= i < n ==> (states[i] != null <==> i in desc)
    ensures forall i :: 0 <= i < n && states[i] != null ==> fresh(states[i]) && states[i].Value() == Start(desc[i])
  {
    states := seq(n, _ => null);
    var keys := desc.Keys;
    while keys != {}
      invariant keys <= desc.Keys && |states| == n
      invariant forall i :: 0 <= i < n ==> (states[i] != null <==> i in desc && i !in keys)
      invariant forall i :: 0 <= i < n && states[i] != null ==> fresh(states[i]) && states[i].Value() == Start(desc[i])
      invariant Distinct(states)
      decreases keys
    {
      ghost var w := SomeMember(keys);
      var sd :| sd in keys;
      var state := new ScannerState(desc[sd], 0, false);
      states := states[sd := state];
      keys := keys - {sd};
    }
  }

  /** One attempt of tripSeverityZero: cross with copies of the given scanners; only fresh objects move. */
  method Trial(states: seq<ScannerState?>) returns (caught: bool)
    ensures caught == Travel(TripState(-1, old(ValuesOf(states)), 0, false)).caught
    ensures ValuesOf(states) == old(ValuesOf(states))
  {
    ghost var before := ValuesOf(states);
    var trip := new Trip.FromStates(states);
    assert forall i :: 0 <= i < |states| && states[i] != null ==> states[i].Value() == old(states[i].Value());
    assert ValuesOf(states) == before;
    trip.Cross();
    caught := trip.caught;
    assert forall i :: 0 <= i < |states| && states[i] != null ==> states[i].Value() == old(states[i].Value());
  }

  /** tripSeverity's result, read off the simulation the Go code runs. */
  lemma OutcomeOfRun(desc: Descriptor, delay: int, final: TripState)
    requires ValidDepths(desc)
    requires final == Travel(TockTrips(NewTripValue(desc), if delay > 0 then delay else 0))
    ensures TripOutcome(desc, delay) == (final.severity, final.caught)
  {
  }

  /** Caught, read off the simulation the Go code runs. */
  lemma SimulationCaught(desc: Descriptor, start: TripState, delay: nat)
    requires ValidDepths(desc) && start == NewTripValue(desc)
    ensures Caught(desc, delay) == Travel(TockTrips(start, delay)).caught
  {
    CaughtIff(desc, delay);
  }

  /** ScannerState: one scanner, moved in place by tock. */
  class ScannerState {
    var srange: int
    var position: int
    var direction: bool

    function Value(): Scanner
      reads this
    {
      Scanner(srange, position, direction)
    }

    constructor (srange: int, position: int, direction: bool)
      ensures Value() == Scanner(srange, position, direction)
    {
      this.srange := srange;
      this.position := position;
      this.direction := direction;
    }

    /** ScannerState.tock. */
    method Tock()
      modifies this
      ensures Value() == Tocked(old(Value()))
    {
      if !direction {
        position := position + 1;
        if position >= srange {
          position := position - 2;
          direction := !direction;
        }
      } else {
        position := position - 1;
        if position < 0 {
          position := position + 2;
          direction := !direction;
        }
      }
    }
  }

  /** Trip: the packet's depth, a slice of scanner pointers and the running tally. */
  class Trip {
    var packetPos: int
    var scannerStates: seq<ScannerState?>
    var severity: int
    var caught: bool

    ghost function Objects(): set<ScannerState>
      reads this
    {
      ObjectsOf(scannerStates)
    }

    function Value(): TripState
      reads this, Objects()
    {
      TripState(packetPos, ValuesOf(scannerStates), severity, caught)
    }

    /** NewTrip: a fresh scanner at the top of each described depth, nil elsewhere. */
    constructor FromDescriptor(desc: Descriptor)
      requires ValidDepths(desc)
      ensures Distinct(scannerStates) && fresh(Objects())
      ensures Value() == NewTripValue(desc)
    {
      var max := MaxDepth(desc);
      var states := NewScannerStates(desc, max + 1);
      packetPos := -1;
      scannerStates := states;
      severity := 0;
      caught := false;
      new;
      assert ValuesOf(scannerStates) == Layout(desc, max + 1, 0);
      assert Value() == TripState(-1, Layout(desc, max + 1, 0), 0, false);
    }

    /** NewTripFromScannerState: fresh copies of the given scanners, so the originals never move. */
    constructor FromStates(states: seq<ScannerState?>)
      ensures Distinct(scannerStates) && fresh(Objects())
      ensures Value() == TripState(-1, ValuesOf(states), 0, false)
    {
      var copies: seq<ScannerState?> := [];
      var j := 0;
      while j < |states|
        invariant 0 <= j <= |states| && |copies| == j
        invariant forall i :: 0 <= i < j ==> (copies[i] == null <==> states[i] == null)
        invariant forall i :: 0 <= i < j && copies[i] != null ==> fresh(copies[i]) && copies[i].Value() == states[i].Value()
        invariant Distinct(copies)
      {
        var jstate := states[j];
        if jstate == null {
          copies := copies + [null];
        } else {
          var copy := new ScannerState(jstate.srange, jstate.position, jstate.direction);
          copies := copies + [copy];
        }
        j := j + 1;
      }
      packetPos := -1;
      scannerStates := copies;
      severity := 0;
      caught := false;
      new;
      assert ValuesOf(copies) == ValuesOf(states);
    }

    /** Trip.tick. */
    method Tick()
      requires -1 <= packetPos < |scannerStates| - 1
      modifies this
      ensures scannerStates == old(scannerStates)
      ensures Value() == TickTrip(old(Value()))
    {
      packetPos := packetPos + 1;
      var scanner := scannerStates[packetPos];
      if scanner == null {
        return;
      }
      if scanner.position == 0 {
        severity := severity + scanner.srange * packetPos;
        caught := true;
      }
    }

    /** Trip.tock: each scanner in the slice moves once. */
    method Tock()
      requires Distinct(scannerStates)
      modifies Objects()
      ensures Value() == TockTrip(old(Value()))
    {
      var j := 0;
      while j < |scannerStates|
        invariant 0 <= j <= |scannerStates|
        invariant forall i :: 0 <= i < |scannerStates| && scannerStates[i] != null ==>
          scannerStates[i].Value() == if i < j then Tocked(old(scannerStates[i].Value())) else old(scannerStates[i].Value())
      {
        var jscanner := scannerStates[j];
        if jscanner != null {
          jscanner.Tock();
        }
        j := j + 1;
      }
      assert ValuesOf(scannerStates) == TockAll(old(ValuesOf(scannerStates)));
    }

    /** The waiting loop of tripSeverity: `delay` tocks, none when delay <= 0. */
    method Wait(delay: int)
      requires Distinct(scannerStates)
      modifies Objects()
      ensures Value() == TockTrips(old(Value()), if delay > 0 then delay else 0)
    {
      var j := 0;
      while j < delay
        invariant 0 <= j && (j <= delay || j == 0)
        invariant Value() == TockTrips(old(Value()), j)
      {
        Tock();
        j := j + 1;
      }
    }

    /** One round of tripSeverityZero's loop: a trial on fresh copies, then, if that trial was
        caught, one tock of this (pristine) trip. */
    method Attempt() returns (got: bool)
      requires Distinct(scannerStates) && packetPos == -1 && severity == 0 && !caught
      modifies Objects()
      ensures got == Travel(old(Value())).caught
      ensures Value() == if got then TockTrip(old(Value())) else old(Value())
    {
      got := Trial(scannerStates);
      if got {
        Tock();
      }
    }

    /** The crossing loop of tripSeverity: tick and tock until the packet is at the last depth. */
    method Cross()
      requires Distinct(scannerStates) && packetPos >= -1
      modifies this, Objects()
      ensures scannerStates == old(scannerStates)
      ensures Value() == Travel(old(Value()))
    {
      while packetPos < |scannerStates| - 1
        invariant scannerStates == old(scannerStates) && packetPos >= -1
        invariant Travel(Value()) == Travel(old(Value()))
        decreases |scannerStates| - packetPos
      {
        Tick();
        Tock();
      }
    }
  }

  /** Firewall: the descriptor NewFirewall reads. */
  class Firewall {
    var scannersDescriptor: Descriptor

    constructor (scannersDescriptor: Descriptor)
      ensures this.scannersDescriptor == scannersDescriptor
    {
      this.scannersDescriptor := scannersDescriptor;
    }

    /** tripSeverity. */
    method TripSeverity(delay: int) returns (severity: int, caught: bool)
      requires ValidDepths(scannersDescriptor)
      ensures (severity, caught) == TripOutcome(scannersDescriptor, delay)
    {
      var desc := scannersDescriptor;
      var trip := new Trip.FromDescriptor(desc);
      trip.Wait(delay);
      trip.Cross();
      severity, caught := trip.severity, trip.caught;
      OutcomeOfRun(desc, delay, trip.Value());
    }

    /** tripSeverityZero: retry, one tock later each time, until a trip is not caught. The
        source loops forever when there is no such delay; `bound` is a delay known to get through. */
    method TripSeverityZero(ghost bound: nat) returns (delay: int)
      requires ValidDepths(scannersDescriptor) && !Caught(scannersDescriptor, bound)
      ensures FirstClear(scannersDescriptor, delay)
    {
      var desc := scannersDescriptor;
      var pristineTrip := new Trip.FromDescriptor(desc);
      ghost var start := pristineTrip.Value();
      delay := 0;
      while true
        invariant 0 <= delay <= bound
        invariant Distinct(pristineTrip.scannerStates) && fresh(pristineTrip.Objects())
        invariant pristineTrip.Value() == TockTrips(start, delay)
        invariant CaughtBefore(desc, delay)
        decreases bound - delay
      {
        var caught := pristineTrip.Attempt();
        SimulationCaught(desc, start, delay);
        if !caught {
          return;
        }
        delay := delay + 1;
        CaughtBeforeBound(desc, delay, bound);
      }
    }
  }
}
